// The MySQL connection pool: a master and a slave side, lazy creation, timed
// waits, ping-and-replace, fallback reads on the master, and release through
// deleters. Taking a lock is an event and so is the critical section that gives
// it back, so threads can stand in every place between the two.

module DbPool {
  import opened Prelude
  import opened Runs

  /** A MYSQL handle and the host it is connected to. */
  datatype Conn = Conn(id: nat, host: string)

  datatype Config = Config(masterHost: string, slaveHosts: seq<string>, maxConns: int)

  /** One queue, its active count, and the connections handed out whose deleter returns them to it. */
  datatype Side = Side(queue: seq<Conn>, count: int, out: set<Conn>)

  /** Where a thread is inside a call. `fallback` is a read that has timed out and calls
      GetWriteConnection with the slave lock held. */
  datatype Place =
    | ForMaster(fallback: bool)     // blocked on the master lock
    | AtMaster(fallback: bool)      // has it, up to a connection or the wait
    | MasterWait(fallback: bool)    // in wait_for, the master lock given back
    | BackAtMaster(fallback: bool)  // wait_for has the lock again
    | ForSlave
    | AtSlave
    | SlaveWait
    | BackAtSlave
    | Leaving                       // a fallback read with its answer, the slave lock still to be given back
    | GiveMaster(c: Conn)           // a deleter, blocked on the lock
    | GivingMaster(c: Conn)
    | GiveSlave(c: Conn)
    | GivingSlave(c: Conn)

  datatype State = State(
    master: Side,
    slave: Side,
    nextId: nat,
    places: map<nat, Place>,
    masterOwner: Option<nat>,
    slaveOwner: Option<nat>)

  /** What the network answers, whether the wait has run its three seconds, and which slave the random
      draw picks. */
  datatype Net = Net(createOk: bool, pingOk: bool, recreateOk: bool, timedOut: bool, draw: nat)

  /** Fallback: the read goes on as GetWriteConnection. */
  datatype Outcome = Got(conn: Conn) | Null | Wait | Fallback

  datatype Event =
    | CallWrite(t: nat)
    | CallRead(t: nat)
    | CallRelease(t: nat, c: Conn)
    | LockMaster(t: nat)
    | LockSlave(t: nat)
    | MasterSection(t: nat, net: Net)
    | SlaveSection(t: nat, net: Net)
    | Push(t: nat)
    | UnlockSlave(t: nat)

  // ----- one critical section on one side -----

  /** front(), pop(), ping, and reconnect when the ping fails. */
  function TakeFront(s: Side, net: Net, spare: Conn): (Side, Outcome)
    requires s.queue != []
  {
    var c, q := s.queue[0], s.queue[1..];
    if net.pingOk then (Side(q, s.count, s.out + {c}), Got(c))
    else if net.recreateOk then (Side(q, s.count, s.out + {spare}), Got(spare))
    else (Side(q, s.count - 1, s.out), Null)
  }

  /** From taking the lock to handing out a connection or starting to wait. */
  function Enter(s: Side, maxConns: int, net: Net, spare: Conn): (Side, Outcome) {
    if s.queue == [] && s.count < maxConns && net.createOk then
      (Side(s.queue, s.count + 1, s.out + {spare}), Got(spare))
    else if s.queue == [] then (s, Wait)
    else TakeFront(s, net, spare)
  }

  /** After wait_for has the lock: an empty queue means the time is up, or a wait that goes on. */
  function Waited(s: Side, net: Net, spare: Conn): (Side, Outcome) {
    if s.queue != [] then TakeFront(s, net, spare) else (s, if net.timedOut then Null else Wait)
  }

  function GivenBack(s: Side, c: Conn): Side {
    Side(s.queue + [c], s.count, s.out - {c})
  }

  // ----- the locks -----

  predicate HoldsMaster(p: Place) {
    p.AtMaster? || p.BackAtMaster? || p.GivingMaster?
  }

  predicate HoldsSlave(p: Place) {
    p.AtSlave? || p.BackAtSlave? || p.GivingSlave? || p.Leaving?
    || ((p.ForMaster? || p.AtMaster? || p.MasterWait? || p.BackAtMaster?) && p.fallback)
  }

  /** Cannot go on without the master lock; a thread in wait_for needs it to return. */
  predicate WantsMaster(p: Place) {
    p.ForMaster? || p.MasterWait? || p.GiveMaster?
  }

  predicate WantsSlave(p: Place) {
    p.ForSlave? || p.SlaveWait? || p.GiveSlave?
  }

  function WithMaster(p: Place): Place
    requires WantsMaster(p)
  {
    match p
    case ForMaster(f) => AtMaster(f)
    case MasterWait(f) => BackAtMaster(f)
    case GiveMaster(c) => GivingMaster(c)
  }

  function WithSlave(p: Place): Place
    requires WantsSlave(p)
  {
    match p
    case ForSlave => AtSlave
    case SlaveWait => BackAtSlave
    case GiveSlave(c) => GivingSlave(c)
  }

  // ----- the system -----

  function FreshMaster(cfg: Config, s: State): Conn {
    Conn(s.nextId, cfg.masterHost)
  }

  function FreshSlave(cfg: Config, s: State, net: Net): Conn
    requires cfg.slaveHosts != []
  {
    Conn(s.nextId, cfg.slaveHosts[net.draw % |cfg.slaveHosts|])
  }

  predicate Gives(p: Place, c: Conn) {
    (p.GiveMaster? || p.GivingMaster? || p.GiveSlave? || p.GivingSlave?) && p.c == c
  }

  predicate Enabled(cfg: Config, s: State, e: Event) {
    match e
    case CallWrite(t) => t !in s.places
    case CallRead(t) => t !in s.places
    case CallRelease(t, c) =>
      t !in s.places && (c in s.master.out || c in s.slave.out) && forall u <- s.places :: !Gives(s.places[u], c)
    case LockMaster(t) => t in s.places && WantsMaster(s.places[t]) && s.masterOwner.None?
    case LockSlave(t) => t in s.places && WantsSlave(s.places[t]) && s.slaveOwner.None?
    case MasterSection(t, _) => t in s.places && (s.places[t].AtMaster? || s.places[t].BackAtMaster?)
    case SlaveSection(t, _) =>
      cfg.slaveHosts != [] && t in s.places && (s.places[t].AtSlave? || s.places[t].BackAtSlave?)
    case Push(t) => t in s.places && (s.places[t].GivingMaster? || s.places[t].GivingSlave?)
    case UnlockSlave(t) => t in s.places && s.places[t].Leaving?
  }

  /** GetWriteConnection with the master lock: up to its wait, or from there on. */
  function MasterTurn(cfg: Config, s: State, p: Place, net: Net): (Side, Outcome) {
    if p.AtMaster? then Enter(s.master, cfg.maxConns, net, FreshMaster(cfg, s))
    else Waited(s.master, net, FreshMaster(cfg, s))
  }

  /** GetReadConnection with the slave lock; a timed-out read falls back. */
  function SlaveTurn(cfg: Config, s: State, p: Place, net: Net): (Side, Outcome)
    requires cfg.slaveHosts != []
  {
    if p.AtSlave? then Enter(s.slave, cfg.maxConns, net, FreshSlave(cfg, s, net))
    else if s.slave.queue == [] && net.timedOut then (s.slave, Fallback)
    else Waited(s.slave, net, FreshSlave(cfg, s, net))
  }

  /** The master lock is given back, by returning or by waiting; the slave lock of a fallback is not. */
  function AfterMaster(cfg: Config, s: State, t: nat, net: Net): State
    requires Enabled(cfg, s, MasterSection(t, net))
  {
    var f := s.places[t].fallback;
    var (m, o) := MasterTurn(cfg, s, s.places[t], net);
    s.(master := m, nextId := s.nextId + 1, masterOwner := None,
       places := if o.Wait? then s.places[t := MasterWait(f)]
                 else if f then s.places[t := Leaving] else s.places - {t})
  }

  function AfterSlave(cfg: Config, s: State, t: nat, net: Net): State
    requires Enabled(cfg, s, SlaveSection(t, net))
  {
    var (v, o) := SlaveTurn(cfg, s, s.places[t], net);
    s.(slave := v, nextId := s.nextId + 1, slaveOwner := if o.Fallback? then s.slaveOwner else None,
       places := if o.Fallback? then s.places[t := ForMaster(true)]
                 else if o.Wait? then s.places[t := SlaveWait] else s.places - {t})
  }

  function AfterPush(s: State, t: nat): State
    requires t in s.places && (s.places[t].GivingMaster? || s.places[t].GivingSlave?)
  {
    var c := s.places[t].c;
    var left := s.(places := s.places - {t});
    if s.places[t].GivingMaster? then left.(master := GivenBack(s.master, c), masterOwner := None)
    else left.(slave := GivenBack(s.slave, c), slaveOwner := None)
  }

  function Apply(cfg: Config, s: State, e: Event): State
    requires Enabled(cfg, s, e)
  {
    match e
    case CallWrite(t) => s.(places := s.places[t := ForMaster(false)])
    case CallRead(t) => s.(places := s.places[t := if cfg.slaveHosts == [] then ForMaster(false) else ForSlave])
    case CallRelease(t, c) => s.(places := s.places[t := if c in s.master.out then GiveMaster(c) else GiveSlave(c)])
    case LockMaster(t) => s.(places := s.places[t := WithMaster(s.places[t])], masterOwner := Some(t))
    case LockSlave(t) => s.(places := s.places[t := WithSlave(s.places[t])], slaveOwner := Some(t))
    case MasterSection(t, net) => AfterMaster(cfg, s, t, net)
    case SlaveSection(t, net) => AfterSlave(cfg, s, t, net)
    case Push(t) => AfterPush(s, t)
    case UnlockSlave(t) => s.(places := s.places - {t}, slaveOwner := None)
  }

  function Next(cfg: Config): (State, Event) -> Option<State> {
    (s, e) => if Enabled(cfg, s, e) then Some(Apply(cfg, s, e)) else None
  }

  /** Init's loop: one connection attempt per host in the list. */
  function Filled(hosts: seq<string>, ok: seq<bool>, firstId: nat): Side
    requires |ok| == |hosts|
  {
    if hosts == [] then Side([], 0, {})
    else
      var n := |hosts| - 1;
      var s := Filled(hosts[..n], ok[..n], firstId);
      if ok[n] then Side(s.queue + [Conn(firstId + n, hosts[n])], s.count + 1, {}) else s
  }

  const MASTER_CONNS := 2

  function MasterList(cfg: Config): seq<string> {
    [cfg.masterHost, cfg.masterHost]
  }

  function InitState(cfg: Config, masterOk: seq<bool>, slaveOk: seq<bool>): State
    requires |masterOk| == MASTER_CONNS && |slaveOk| == |cfg.slaveHosts|
  {
    State(Filled(MasterList(cfg), masterOk, 0), Filled(cfg.slaveHosts, slaveOk, MASTER_CONNS),
          MASTER_CONNS + |cfg.slaveHosts|, map[], None, None)
  }

  ghost predicate Reachable(cfg: Config, s: State) {
    exists masterOk, slaveOk :: |masterOk| == MASTER_CONNS && |slaveOk| == |cfg.slaveHosts|
      && Reaches(Next(cfg), InitState(cfg, masterOk, slaveOk), s)
  }

  // ----- what every run keeps -----

  ghost predicate Holds(s: Side, c: Conn) {
    c in s.queue || c in s.out
  }

  /** Conservation, no connection twice, known ids, and all connections to the right hosts. */
  ghost predicate SideOk(s: Side, nextId: nat, hosts: seq<string>) {
    s.count == |s.queue| + |s.out|
    && Distinct(s.queue)
    && (forall c <- s.queue :: c !in s.out)
    && forall c | Holds(s, c) :: c.id < nextId && c.host in hosts
  }

  ghost predicate Apart(m: Side, v: Side) {
    forall c, d | Holds(m, c) && Holds(v, d) :: c.id != d.id
  }

  function Max(a: int, b: int): int {
    if a > b then a else b
  }

  /** Both sides in order, sharing nothing, and within their bounds. */
  ghost predicate SidesOk(cfg: Config, m: Side, v: Side, nextId: nat) {
    SideOk(m, nextId, [cfg.masterHost]) && SideOk(v, nextId, cfg.slaveHosts) && Apart(m, v)
    && m.count <= Max(cfg.maxConns, MASTER_CONNS) && v.count <= Max(cfg.maxConns, |cfg.slaveHosts|)
  }

  /** The owner of a lock is the one thread at a place that holds it. */
  ghost predicate LocksOk(cfg: Config, s: State) {
    (forall t <- s.places :: HoldsMaster(s.places[t]) <==> s.masterOwner == Some(t))
    && (forall t <- s.places :: HoldsSlave(s.places[t]) <==> s.slaveOwner == Some(t))
    && (s.masterOwner.Some? ==> s.masterOwner.value in s.places)
    && (s.slaveOwner.Some? ==> s.slaveOwner.value in s.places)
    && forall t <- s.places | s.places[t].AtSlave? || s.places[t].BackAtSlave? || WantsSlave(s.places[t]) ::
         s.places[t].GiveSlave? || cfg.slaveHosts != []
  }

  /** A deleter's connection is still handed out, and no other deleter has it. */
  ghost predicate GivesOk(s: State) {
    (forall t <- s.places :: GiveOk(s, s.places[t]))
    && forall t <- s.places, u <- s.places, c: Conn | Gives(s.places[t], c) && Gives(s.places[u], c) :: t == u
  }

  predicate GiveOk(s: State, p: Place) {
    (p.GiveMaster? || p.GivingMaster? ==> p.c in s.master.out) && (p.GiveSlave? || p.GivingSlave? ==> p.c in s.slave.out)
  }

  ghost predicate Inv(cfg: Config, s: State) {
    SidesOk(cfg, s.master, s.slave, s.nextId) && LocksOk(cfg, s) && GivesOk(s)
  }

  /** One critical section's effect on one side: still in order, nothing appears but the spare
      connection, and what is handed out was nobody's and is nobody else's. */
  ghost predicate Moved(s: Side, t: Side, o: Outcome, nextId: nat, hosts: seq<string>) {
    SideOk(t, nextId + 1, hosts)
    && (forall c | Holds(t, c) :: Holds(s, c) || c.id == nextId)
    && (o.Got? ==> o.conn in t.out && o.conn !in s.out && o.conn.host in hosts)
    && s.out <= t.out && (!o.Got? ==> t.out == s.out)
  }

  lemma SideLater(s: Side, nextId: nat, hosts: seq<string>)
    requires SideOk(s, nextId, hosts)
    ensures SideOk(s, nextId + 1, hosts)
  {
  }

  /** The queue's front leaves it. */
  lemma PopOk(s: Side, nextId: nat, hosts: seq<string>)
    requires s.queue != [] && SideOk(s, nextId, hosts)
    ensures var c, q := s.queue[0], s.queue[1..];
      Distinct(q) && c !in q && c !in s.out && c.host in hosts && c.id < nextId
      && (forall d <- q :: d !in s.out && d.id < nextId && d.host in hosts)
      && (forall d <- s.out :: d.id < nextId && d.host in hosts)
  {
    assert Holds(s, s.queue[0]);
    forall d | d in s.queue[1..] || d in s.out ensures Holds(s, d) {
    }
  }

  lemma TakeFrontOk(s: Side, net: Net, spare: Conn, hosts: seq<string>)
    requires s.queue != [] && SideOk(s, spare.id, hosts) && spare.host in hosts
    ensures var (t, o) := TakeFront(s, net, spare);
      Moved(s, t, o, spare.id, hosts) && s.count - 1 <= t.count <= s.count && (o.Got? || o.Null?)
  {
    PopOk(s, spare.id, hosts);
    if net.pingOk {
      HandOut(s, s.queue[0], spare.id, hosts);
    } else if net.recreateOk {
      HandOut(s, spare, spare.id, hosts);
    } else {
      hide Distinct;
    }
  }

  /** The front is taken, and it or its replacement is handed out. */
  lemma HandOut(s: Side, c: Conn, nextId: nat, hosts: seq<string>)
    requires s.queue != [] && s.count == |s.queue| + |s.out| && c.host in hosts && c.id <= nextId
    requires var q := s.queue[1..];
      Distinct(q) && c !in q && c !in s.out
      && (forall d <- q :: d !in s.out && d.id < nextId && d.host in hosts)
      && (forall d <- s.out :: d.id < nextId && d.host in hosts)
    requires c in s.queue || c.id == nextId
    ensures Moved(s, Side(s.queue[1..], s.count, s.out + {c}), Got(c), nextId, hosts)
  {
    hide Distinct;
  }

  lemma EnterOk(s: Side, maxConns: int, net: Net, spare: Conn, hosts: seq<string>)
    requires SideOk(s, spare.id, hosts) && spare.host in hosts
    ensures var (t, o) := Enter(s, maxConns, net, spare);
      Moved(s, t, o, spare.id, hosts) && t.count <= Max(maxConns, s.count)
  {
    hide TakeFront;
    SideLater(s, spare.id, hosts);
    if s.queue != [] {
      TakeFrontOk(s, net, spare, hosts);
    } else {
      assert spare !in s.out by { assert !Holds(s, spare); }
    }
  }

  lemma WaitedOk(s: Side, net: Net, spare: Conn, hosts: seq<string>)
    requires SideOk(s, spare.id, hosts) && spare.host in hosts
    ensures var (t, o) := Waited(s, net, spare);
      Moved(s, t, o, spare.id, hosts) && t.count <= s.count
  {
    hide TakeFront;
    SideLater(s, spare.id, hosts);
    if s.queue != [] {
      TakeFrontOk(s, net, spare, hosts);
    }
  }

  lemma GivenBackOk(s: Side, c: Conn, nextId: nat, hosts: seq<string>)
    requires SideOk(s, nextId, hosts) && c in s.out
    ensures SideOk(GivenBack(s, c), nextId, hosts) && forall d :: Holds(GivenBack(s, c), d) <==> Holds(s, d)
  {
    assert Holds(s, c);
    forall d ensures Holds(GivenBack(s, c), d) <==> Holds(s, d) {
    }
  }

  lemma ApartKept(m: Side, v: Side, m': Side, nextId: nat, hosts: seq<string>)
    requires Apart(m, v) && SideOk(v, nextId, hosts)
    requires forall c | Holds(m', c) :: Holds(m, c) || c.id == nextId
    ensures Apart(m', v) && Apart(v, m')
  {
  }

  /** Init creates as many connections as attempts succeed, one host after the other. */
  lemma {:induction false} FilledOk(hosts: seq<string>, ok: seq<bool>, firstId: nat)
    requires |ok| == |hosts|
    ensures var s := Filled(hosts, ok, firstId);
      SideOk(s, firstId + |hosts|, hosts) && s.count <= |hosts| && s.out == {}
      && (forall c <- s.queue :: firstId <= c.id)
      && ((forall b <- ok :: b) ==> s.count == |hosts|)
    decreases |hosts|
  {
    if hosts != [] {
      var n := |hosts| - 1;
      FilledOk(hosts[..n], ok[..n], firstId);
      var s, t := Filled(hosts[..n], ok[..n], firstId), Filled(hosts, ok, firstId);
      forall c | Holds(t, c) ensures c.id < firstId + |hosts| && c.host in hosts && firstId <= c.id {
        if c in s.queue {
          assert Holds(s, c);
        }
      }
      if forall b <- ok :: b {
        assert ok[n] in ok && forall b <- ok[..n] :: b in ok;
      }
    }
  }

  lemma MasterMoves(cfg: Config, m: Side, v: Side, nextId: nat, m': Side, o: Outcome)
    requires SidesOk(cfg, m, v, nextId) && Moved(m, m', o, nextId, [cfg.masterHost])
    requires m'.count <= Max(cfg.maxConns, m.count)
    ensures SidesOk(cfg, m', v, nextId + 1)
  {
    SideLater(v, nextId, cfg.slaveHosts);
    ApartKept(m, v, m', nextId, cfg.slaveHosts);
    hide SideOk, Holds, Apart;
  }

  lemma SlaveMoves(cfg: Config, m: Side, v: Side, nextId: nat, v': Side, o: Outcome)
    requires SidesOk(cfg, m, v, nextId) && Moved(v, v', o, nextId, cfg.slaveHosts)
    requires v'.count <= Max(cfg.maxConns, v.count)
    ensures SidesOk(cfg, m, v', nextId + 1)
  {
    SideLater(m, nextId, [cfg.masterHost]);
    assert Apart(v, m);
    ApartKept(v, m, v', nextId, [cfg.masterHost]);
    hide SideOk, Holds, Apart;
  }

  lemma MasterSides(cfg: Config, s: State, t: nat, net: Net)
    requires Inv(cfg, s) && Enabled(cfg, s, MasterSection(t, net))
    ensures var (m, o) := MasterTurn(cfg, s, s.places[t], net);
      Moved(s.master, m, o, s.nextId, [cfg.masterHost]) && !o.Fallback?
      && SidesOk(cfg, m, s.slave, s.nextId + 1)
  {
    var (m, o) := MasterTurn(cfg, s, s.places[t], net);
    EnterOk(s.master, cfg.maxConns, net, FreshMaster(cfg, s), [cfg.masterHost]);
    WaitedOk(s.master, net, FreshMaster(cfg, s), [cfg.masterHost]);
    hide Enter, Waited, Moved, SideOk, Apart, LocksOk, GivesOk;
    MasterMoves(cfg, s.master, s.slave, s.nextId, m, o);
  }

  lemma SlaveSides(cfg: Config, s: State, t: nat, net: Net)
    requires Inv(cfg, s) && Enabled(cfg, s, SlaveSection(t, net))
    ensures var (v, o) := SlaveTurn(cfg, s, s.places[t], net);
      Moved(s.slave, v, o, s.nextId, cfg.slaveHosts) && SidesOk(cfg, s.master, v, s.nextId + 1)
  {
    var (v, o) := SlaveTurn(cfg, s, s.places[t], net);
    var spare := FreshSlave(cfg, s, net);
    EnterOk(s.slave, cfg.maxConns, net, spare, cfg.slaveHosts);
    WaitedOk(s.slave, net, spare, cfg.slaveHosts);
    FallbackOk(s.slave, s.nextId, cfg.slaveHosts);
    hide Enter, Waited, Moved, SideOk, Apart, LocksOk, GivesOk;
    SlaveMoves(cfg, s.master, s.slave, s.nextId, v, o);
  }

  lemma FallbackOk(s: Side, nextId: nat, hosts: seq<string>)
    requires SideOk(s, nextId, hosts)
    ensures Moved(s, s, Fallback, nextId, hosts)
  {
    SideLater(s, nextId, hosts);
  }

  lemma PushSides(cfg: Config, s: State, t: nat)
    requires Inv(cfg, s) && Enabled(cfg, s, Push(t))
    ensures var s' := AfterPush(s, t); SidesOk(cfg, s'.master, s'.slave, s'.nextId)
  {
    var c := s.places[t].c;
    assert GiveOk(s, s.places[t]);
    hide SideOk, LocksOk, GivesOk;
    if s.places[t].GivingMaster? {
      GivenBackOk(s.master, c, s.nextId, [cfg.masterHost]);
    } else {
      GivenBackOk(s.slave, c, s.nextId, cfg.slaveHosts);
    }
    hide Holds;
  }

  lemma SidesKept(cfg: Config, s: State, e: Event)
    requires Inv(cfg, s) && Enabled(cfg, s, e)
    ensures var s' := Apply(cfg, s, e); SidesOk(cfg, s'.master, s'.slave, s'.nextId)
  {
    match e {
      case MasterSection(t, net) => MasterSides(cfg, s, t, net); hide MasterTurn, SidesOk, LocksOk, GivesOk, Moved;
      case SlaveSection(t, net) => SlaveSides(cfg, s, t, net); hide SlaveTurn, SidesOk, LocksOk, GivesOk, Moved;
      case Push(t) => PushSides(cfg, s, t); hide AfterPush, SidesOk, LocksOk, GivesOk;
      case _ =>
    }
  }

  /** A lock's owner after a step of thread t. */
  predicate OwnerMoves(before: Option<nat>, after: Option<nat>, t: nat) {
    before == after || ((before.None? || before.value == t) && (after.None? || after.value == t))
  }

  /** Thread t, if still inside a call, is where its locks say. */
  predicate Placed(cfg: Config, s: State, t: nat) {
    if t in s.places then
      (HoldsMaster(s.places[t]) <==> s.masterOwner == Some(t)) && (HoldsSlave(s.places[t]) <==> s.slaveOwner == Some(t))
      && (s.places[t].ForSlave? || s.places[t].AtSlave? || s.places[t].SlaveWait? || s.places[t].BackAtSlave?
          ==> cfg.slaveHosts != [])
    else s.masterOwner != Some(t) && s.slaveOwner != Some(t)
  }

  lemma LocksFollow(cfg: Config, s: State, s': State, t: nat)
    requires LocksOk(cfg, s) && Placed(cfg, s', t)
    requires s'.places - {t} == s.places - {t}
    requires OwnerMoves(s.masterOwner, s'.masterOwner, t) && OwnerMoves(s.slaveOwner, s'.slaveOwner, t)
    ensures LocksOk(cfg, s')
  {
    forall u | u != t ensures u in s'.places <==> u in s.places
                      ensures u in s.places ==> s'.places[u] == s.places[u] {
      assert u in s'.places - {t} <==> u in s.places - {t};
    }
    hide HoldsMaster, HoldsSlave, WantsSlave;
  }

  lemma LocksKept(cfg: Config, s: State, e: Event)
    requires LocksOk(cfg, s) && Enabled(cfg, s, e)
    ensures LocksOk(cfg, Apply(cfg, s, e))
  {
    StepPlaced(cfg, s, e);
    hide LocksOk, Placed, Enabled, Apply;
    LocksFollow(cfg, s, Apply(cfg, s, e), e.t);
  }

  lemma StepPlaced(cfg: Config, s: State, e: Event)
    requires LocksOk(cfg, s) && Enabled(cfg, s, e)
    ensures var s' := Apply(cfg, s, e);
      Placed(cfg, s', e.t) && s'.places - {e.t} == s.places - {e.t}
      && OwnerMoves(s.masterOwner, s'.masterOwner, e.t) && OwnerMoves(s.slaveOwner, s'.slaveOwner, e.t)
  {
    hide MasterTurn, SlaveTurn, GivenBack;
    assert e.t in s.places ==> Placed(cfg, s, e.t);
    assert e.t !in s.places ==> s.masterOwner != Some(e.t) && s.slaveOwner != Some(e.t);
    hide LocksOk;
  }

  /** Steps that hand out more connections, or none. */
  lemma GivesFollow(s: State, s': State, t: nat)
    requires GivesOk(s) && s.master.out <= s'.master.out && s.slave.out <= s'.slave.out
    requires s'.places - {t} == s.places - {t}
    requires t in s'.places ==> GiveOk(s', s'.places[t])
    requires t in s'.places ==> forall u <- s.places, c: Conn | Gives(s'.places[t], c) && Gives(s.places[u], c) :: u == t
    ensures GivesOk(s')
  {
    forall u | u in s'.places && u != t ensures u in s.places && s'.places[u] == s.places[u] && GiveOk(s', s'.places[u]) {
      assert u in s'.places - {t};
      assert GiveOk(s, s.places[u]);
    }
    hide GiveOk, Gives;
  }

  lemma PushGives(s: State, t: nat)
    requires GivesOk(s) && t in s.places && (s.places[t].GivingMaster? || s.places[t].GivingSlave?)
    ensures GivesOk(AfterPush(s, t))
  {
    var s' := AfterPush(s, t);
    forall u | u in s'.places ensures GiveOk(s', s'.places[u]) {
      assert GiveOk(s, s.places[u]);
      assert Gives(s.places[t], s.places[t].c);
    }
  }

  lemma GivesKept(cfg: Config, s: State, e: Event)
    requires Inv(cfg, s) && Enabled(cfg, s, e)
    ensures GivesOk(Apply(cfg, s, e))
  {
    StepPlaced(cfg, s, e);
    var s' := Apply(cfg, s, e);
    hide LocksOk, Placed;
    match e {
      case MasterSection(t, net) => MasterSides(cfg, s, t, net); MasterGives(cfg, s, t, net);
      case SlaveSection(t, net) => SlaveSides(cfg, s, t, net); SlaveGives(cfg, s, t, net);
      case Push(t) => PushGives(s, t);
      case _ =>
        hide SidesOk;
        OtherGives(cfg, s, e);
        hide Apply, Enabled, GivesOk, Gives, GiveOk;
        GivesFollow(s, s', e.t);
    }
  }

  lemma MasterGives(cfg: Config, s: State, t: nat, net: Net)
    requires GivesOk(s) && Enabled(cfg, s, MasterSection(t, net))
    requires s.master.out <= MasterTurn(cfg, s, s.places[t], net).0.out
    ensures GivesOk(AfterMaster(cfg, s, t, net))
  {
    hide MasterTurn, GivesOk;
    GivesFollow(s, AfterMaster(cfg, s, t, net), t);
  }

  lemma SlaveGives(cfg: Config, s: State, t: nat, net: Net)
    requires GivesOk(s) && Enabled(cfg, s, SlaveSection(t, net))
    requires s.slave.out <= SlaveTurn(cfg, s, s.places[t], net).0.out
    ensures GivesOk(AfterSlave(cfg, s, t, net))
  {
    hide SlaveTurn, GivesOk;
    GivesFollow(s, AfterSlave(cfg, s, t, net), t);
  }

  lemma OtherGives(cfg: Config, s: State, e: Event)
    requires GivesOk(s) && Enabled(cfg, s, e) && !e.MasterSection? && !e.SlaveSection? && !e.Push?
    ensures Apply(cfg, s, e).master == s.master && Apply(cfg, s, e).slave == s.slave
    ensures var s' := Apply(cfg, s, e);
      e.t in s'.places ==> GiveOk(s', s'.places[e.t])
    ensures var s' := Apply(cfg, s, e);
      e.t in s'.places ==> forall u <- s.places, c: Conn | Gives(s'.places[e.t], c) && Gives(s.places[u], c) :: u == e.t
  {
    assert e.t in s.places ==> GiveOk(s, s.places[e.t]);
    hide AfterMaster, AfterSlave, AfterPush;
  }

  lemma InvKept(cfg: Config, s: State, e: Event)
    requires Inv(cfg, s) && Enabled(cfg, s, e)
    ensures Inv(cfg, Apply(cfg, s, e))
  {
    SidesKept(cfg, s, e);
    LocksKept(cfg, s, e);
    GivesKept(cfg, s, e);
    hide SidesOk, LocksOk, GivesOk, Apply, Enabled;
  }

  lemma InitInv(cfg: Config, masterOk: seq<bool>, slaveOk: seq<bool>)
    requires |masterOk| == MASTER_CONNS && |slaveOk| == |cfg.slaveHosts|
    ensures Inv(cfg, InitState(cfg, masterOk, slaveOk))
  {
    FilledOk(MasterList(cfg), masterOk, 0);
    FilledOk(cfg.slaveHosts, slaveOk, MASTER_CONNS);
    hide Filled;
    var s := InitState(cfg, masterOk, slaveOk);
    assert SideOk(s.master, s.nextId, [cfg.masterHost]);
  }

  // ----- the theorems -----

  lemma ReachableInv(cfg: Config, s: State)
    requires Reachable(cfg, s)
    ensures Inv(cfg, s)
  {
    var masterOk, slaveOk :| |masterOk| == MASTER_CONNS && |slaveOk| == |cfg.slaveHosts|
      && Reaches(Next(cfg), InitState(cfg, masterOk, slaveOk), s);
    InitInv(cfg, masterOk, slaveOk);
    forall t: State, e | Inv(cfg, t) && Next(cfg)(t, e).Some? ensures Inv(cfg, Next(cfg)(t, e).value) {
      InvKept(cfg, t, e);
      hide Inv, Enabled, Apply;
    }
    hide Inv, Next, InitState;
    ReachesKeeps(Next(cfg), t => Inv(cfg, t), InitState(cfg, masterOk, slaveOk), s);
  }

  lemma Onward(cfg: Config, s: State, e: Event)
    requires Reachable(cfg, s) && Enabled(cfg, s, e)
    ensures Reachable(cfg, Apply(cfg, s, e))
  {
    var masterOk, slaveOk :| |masterOk| == MASTER_CONNS && |slaveOk| == |cfg.slaveHosts|
      && Reaches(Next(cfg), InitState(cfg, masterOk, slaveOk), s);
    hide Enabled, Apply, InitState;
    ReachesStep(Next(cfg), InitState(cfg, masterOk, slaveOk), s, e);
  }

  /** Conservation: each active count is what is queued plus what is handed out, nothing is held twice,
      and the two sides share nothing. */
  lemma Conservation(cfg: Config, s: State)
    requires Reachable(cfg, s)
    ensures s.master.count == |s.master.queue| + |s.master.out|
    ensures s.slave.count == |s.slave.queue| + |s.slave.out|
    ensures forall c :: !(c in s.master.queue && c in s.master.out) && !(c in s.slave.queue && c in s.slave.out)
    ensures forall c :: !(Holds(s.master, c) && Holds(s.slave, c))
  {
    ReachableInv(cfg, s);
    hide LocksOk, GivesOk;
  }

  /** Routing: the master side only ever holds connections to the master, the slave side to configured
      slaves; a fallback read therefore returns to the master's queue. */
  lemma Routing(cfg: Config, s: State, c: Conn)
    requires Reachable(cfg, s)
    ensures Holds(s.master, c) ==> c.host == cfg.masterHost
    ensures Holds(s.slave, c) ==> c.host in cfg.slaveHosts
  {
    ReachableInv(cfg, s);
    hide LocksOk, GivesOk;
  }

  // ----- no deadlock -----

  /** t cannot go on before u gives back a lock. */
  predicate WaitsFor(s: State, t: nat, u: nat) {
    t in s.places && ((WantsMaster(s.places[t]) && s.masterOwner == Some(u))
                      || (WantsSlave(s.places[t]) && s.slaveOwner == Some(u)))
  }

  /** Mutual exclusion, and nesting only slave-then-master: the owner of the master lock is inside a
      critical section and wants no lock; the owner of the slave lock does not want the slave lock. */
  lemma LockOrder(cfg: Config, s: State, t: nat)
    requires Reachable(cfg, s)
    ensures s.masterOwner == Some(t) ==>
      t in s.places && HoldsMaster(s.places[t]) && !WantsMaster(s.places[t]) && !WantsSlave(s.places[t])
    ensures s.slaveOwner == Some(t) ==> t in s.places && HoldsSlave(s.places[t]) && !WantsSlave(s.places[t])
    ensures forall u <- s.places | u != t && t in s.places ::
      !(HoldsMaster(s.places[t]) && HoldsMaster(s.places[u])) && !(HoldsSlave(s.places[t]) && HoldsSlave(s.places[u]))
  {
    ReachableInv(cfg, s);
    hide SidesOk, GivesOk;
  }

  ghost predicate WaitChain(s: State, ts: seq<nat>) {
    forall i | 0 <= i < |ts| - 1 :: WaitsFor(s, ts[i], ts[i + 1])
  }

  /** 2 for whoever wants the slave lock, 1 for whoever wants the master lock, 0 for everybody else. */
  function Rank(s: State, t: nat): nat {
    if t !in s.places then 0 else if WantsSlave(s.places[t]) then 2 else if WantsMaster(s.places[t]) then 1 else 0
  }

  lemma WaitsDown(cfg: Config, s: State, t: nat, u: nat)
    requires Reachable(cfg, s) && WaitsFor(s, t, u)
    ensures Rank(s, t) > Rank(s, u)
  {
    LockOrder(cfg, s, u);
  }

  lemma {:induction false} ChainDown(cfg: Config, s: State, ts: seq<nat>)
    requires Reachable(cfg, s) && WaitChain(s, ts) && ts != []
    ensures Rank(s, ts[0]) >= Rank(s, ts[|ts| - 1]) + |ts| - 1
    decreases |ts|
  {
    if |ts| > 1 {
      var rest := ts[1..];
      hide Reachable, WaitsFor, Rank;
      forall i | 0 <= i < |rest| - 1 ensures WaitsFor(s, rest[i], rest[i + 1]) {
        assert WaitsFor(s, ts[i + 1], ts[i + 1 + 1]);
      }
      ChainDown(cfg, s, rest);
      WaitsDown(cfg, s, ts[0], ts[1]);
    }
  }

  /** In no run do threads wait for each other in a circle; a chain of waits has at most three threads. */
  lemma NoLockCycle(cfg: Config, s: State, ts: seq<nat>)
    requires Reachable(cfg, s) && WaitChain(s, ts) && |ts| > 1
    ensures ts[0] != ts[|ts| - 1] && |ts| <= 3
  {
    ChainDown(cfg, s, ts);
  }

  /** While anybody is inside a call, some thread inside can take its next step. */
  lemma NoDeadlock(cfg: Config, s: State, net: Net) returns (e: Event)
    requires Reachable(cfg, s) && s.places != map[]
    ensures Enabled(cfg, s, e) && e.t in s.places
  {
    ReachableInv(cfg, s);
    hide SidesOk, GivesOk, Reachable;
    var t: nat;
    if s.masterOwner.Some? {
      t := s.masterOwner.value;
    } else if s.slaveOwner.Some? {
      t := s.slaveOwner.value;
    } else {
      t :| t in s.places;
    }
    e := NextStep(s.places[t], t, net);
  }

  function NextStep(p: Place, t: nat, net: Net): (e: Event)
    ensures e.t == t
  {
    if WantsMaster(p) then LockMaster(t)
    else if WantsSlave(p) then LockSlave(t)
    else if p.AtMaster? || p.BackAtMaster? then MasterSection(t, net)
    else if p.AtSlave? || p.BackAtSlave? then SlaveSection(t, net)
    else if p.Leaving? then UnlockSlave(t)
    else Push(t)
  }

  ghost predicate WithinMax(cfg: Config, s: State) {
    s.master.count <= cfg.maxConns && s.slave.count <= cfg.maxConns
  }

  function AllTrue(n: nat): (r: seq<bool>)
    ensures |r| == n && forall b <- r :: b
  {
    seq(n, _ => true)
  }

  /** No run ever exceeds max_conns exactly when max_conns covers what Init creates unasked. */
  lemma BoundExact(cfg: Config)
    ensures (forall s | Reachable(cfg, s) :: WithinMax(cfg, s))
       <==> cfg.maxConns >= MASTER_CONNS && cfg.maxConns >= |cfg.slaveHosts|
  {
    if cfg.maxConns >= MASTER_CONNS && cfg.maxConns >= |cfg.slaveHosts| {
      forall s | Reachable(cfg, s) ensures WithinMax(cfg, s) {
        ReachableInv(cfg, s);
      }
    } else {
      var m, v := AllTrue(MASTER_CONNS), AllTrue(|cfg.slaveHosts|);
      var s := InitState(cfg, m, v);
      ReachesItself(Next(cfg), s);
      FilledOk(MasterList(cfg), m, 0);
      FilledOk(cfg.slaveHosts, v, MASTER_CONNS);
      hide Filled, Exec, Next;
      assert Reachable(cfg, s);
      assert !WithinMax(cfg, s);
    }
  }

  /** What a reader may be given: a slave's connection, or the master's when it falls back. */
  ghost predicate HandedOut(cfg: Config, s: State, c: Conn) {
    (c in s.slave.out && c.host in cfg.slaveHosts) || (c in s.master.out && c.host == cfg.masterHost)
  }

  /** What taking the front of a queue comes to: it is handed out if it answers the ping, a new connection
      in its place if it does not, and the slot is given up if that fails too. */
  ghost predicate Took(s: Side, t: Side, net: Net, spare: Conn, o: Outcome) {
    s.queue != [] && t.queue == s.queue[1..]
    && (net.pingOk ==> o == Got(s.queue[0]) && t.count == s.count && t.out == s.out + {s.queue[0]})
    && (!net.pingOk && net.recreateOk ==> o == Got(spare) && t.count == s.count && t.out == s.out + {spare})
    && (!net.pingOk && !net.recreateOk ==> o == Null && t.count == s.count - 1 && t.out == s.out)
  }

  /** What the first look at a side comes to: a new connection if the queue is empty, the bound allows one
      and it can be made; the wait if the queue is empty otherwise; else the front is taken. */
  ghost predicate Tried(s: Side, t: Side, maxConns: int, net: Net, spare: Conn, o: Outcome) {
    (s.queue == [] && s.count < maxConns && net.createOk ==>
       o == Got(spare) && t == Side([], s.count + 1, s.out + {spare}))
    && (o.Wait? <==> s.queue == [] && (s.count >= maxConns || !net.createOk))
    && (o.Wait? ==> t == s)
    && (s.queue != [] ==> Took(s, t, net, spare, o))
  }

  // ----- the pool -----

  class Pool {
    const cfg: Config
    var masterQueue: seq<Conn>
    var masterActiveCount: int
    var slaveQueue: seq<Conn>
    var slaveActiveCount: int
    var nextId: nat
    ghost var masterOut: set<Conn>
    ghost var slaveOut: set<Conn>
    ghost var places: map<nat, Place>
    ghost var masterOwner: Option<nat>
    ghost var slaveOwner: Option<nat>

    ghost function Now(): State
      reads this
    {
      State(Side(masterQueue, masterActiveCount, masterOut), Side(slaveQueue, slaveActiveCount, slaveOut),
                  nextId, places, masterOwner, slaveOwner)
    }

    /** The pool is at a state of some run. */
    ghost predicate Valid()
      reads this
    {
      Reachable(cfg, Now())
    }

    /** Init: two master connections and one per slave host, those that succeed. */
    constructor (cfg: Config, masterOk: seq<bool>, slaveOk: seq<bool>)
      requires |masterOk| == MASTER_CONNS && |slaveOk| == |cfg.slaveHosts|
      ensures this.cfg == cfg && Now() == InitState(cfg, masterOk, slaveOk) && Valid()
      ensures masterActiveCount == |masterQueue| == (if masterOk[0] then 1 else 0) + (if masterOk[1] then 1 else 0)
      ensures forall c <- masterQueue :: c.host == cfg.masterHost
      ensures slaveActiveCount == |slaveQueue|
      ensures forall i | 0 <= i < |slaveOk| :: Conn(2 + i, cfg.slaveHosts[i]) in slaveQueue <==> slaveOk[i]
      ensures forall c <- slaveQueue :: 2 <= c.id < 2 + |slaveOk| && c.host == cfg.slaveHosts[c.id - 2]
    {
      this.cfg := cfg;
      masterQueue, masterActiveCount, slaveQueue, slaveActiveCount := [], 0, [], 0;
      nextId := 0;
      masterOut, slaveOut, places, masterOwner, slaveOwner := {}, {}, map[], None, None;
      new;
      masterQueue, masterActiveCount := Precreate(MasterList(cfg), masterOk);
      slaveQueue, slaveActiveCount := Precreate(cfg.slaveHosts, slaveOk);
      InitContents(cfg, masterOk, slaveOk);
      hide Next, Filled;
      ReachesItself(Next(cfg), InitState(cfg, masterOk, slaveOk));
    }

    method Precreate(hosts: seq<string>, ok: seq<bool>) returns (queue: seq<Conn>, count: int)
      requires |ok| == |hosts|
      modifies this`nextId
      ensures Side(queue, count, {}) == Filled(hosts, ok, old(nextId)) && nextId == old(nextId) + |hosts|
    {
      queue, count := [], 0;
      for i := 0 to |hosts|
        invariant nextId == old(nextId) + i
        invariant Side(queue, count, {}) == Filled(hosts[..i], ok[..i], old(nextId))
      {
        var conn := CreateConnection(hosts[i], ok[i]);
        FilledSnoc(hosts, ok, old(nextId), i);
        if conn.Some? {
          queue, count := queue + [conn.value], count + 1;
        }
      }
      assert hosts[..|hosts|] == hosts && ok[..|ok|] == ok;
    }

    method CreateConnection(host: string, ok: bool) returns (conn: Option<Conn>)
      modifies this`nextId
      ensures nextId == old(nextId) + 1
      ensures conn == if ok then Some(Conn(old(nextId), host)) else None
    {
      conn := if ok then Some(Conn(nextId, host)) else None;
      nextId := nextId + 1;
    }

    /** Calls begin, locks are taken, and a fallback read gives the slave lock back: no field changes. */
    ghost method Move(e: Event)
      requires Valid() && Enabled(cfg, Now(), e)
      requires !e.MasterSection? && !e.SlaveSection? && !e.Push?
      modifies this`places, this`masterOwner, this`slaveOwner
      ensures Valid() && Now() == Apply(cfg, old(Now()), e)
    {
      Onward(cfg, Now(), e);
      hide Reachable;
      var s := Apply(cfg, Now(), e);
      places, masterOwner, slaveOwner := s.places, s.masterOwner, s.slaveOwner;
    }

    /** The bookkeeping of a critical section's end. */
    ghost method Leave(e: Event, before: State)
      requires Reachable(cfg, before) && Enabled(cfg, before, e)
      requires Now().(places := before.places, masterOwner := before.masterOwner, slaveOwner := before.slaveOwner)
            == Apply(cfg, before, e).(places := before.places, masterOwner := before.masterOwner, slaveOwner := before.slaveOwner)
      modifies this`places, this`masterOwner, this`slaveOwner
      ensures Valid() && Now() == Apply(cfg, before, e)
    {
      Onward(cfg, before, e);
      hide Reachable;
      var s := Apply(cfg, before, e);
      places, masterOwner, slaveOwner := s.places, s.masterOwner, s.slaveOwner;
    }

    /** GetWriteConnection with the master lock, up to a connection or the wait. */
    method BeginWrite(ghost t: nat, net: Net) returns (r: Outcome)
      requires Valid() && t in places && places[t].AtMaster?
      modifies this
      ensures old(masterQueue) == [] && old(masterActiveCount) < cfg.maxConns && net.createOk ==>
        r == Got(Conn(old(nextId), cfg.masterHost))
        && masterActiveCount == old(masterActiveCount) + 1 && masterQueue == []
      ensures r.Wait? <==> old(masterQueue) == [] && (old(masterActiveCount) >= cfg.maxConns || !net.createOk)
      ensures Tried(old(Now()).master, Now().master, cfg.maxConns, net, Conn(old(nextId), cfg.masterHost), r)
      ensures Valid() && Now() == Apply(cfg, old(Now()), MasterSection(t, net))
      ensures r == MasterTurn(cfg, old(Now()), old(places)[t], net).1
      ensures r.Got? ==> r.conn.host == cfg.masterHost && r.conn !in old(masterOut) && r.conn in masterOut
    {
      ghost var before := Now();
      ReachableInv(cfg, before);
      MasterSides(cfg, before, t, net);
      hide Reachable, Inv, SidesOk, Enter;
      r := EnterMaster(net);
      Leave(MasterSection(t, net), before);
    }

    /** Lazy creation, or the front of the queue, or nothing yet. */
    method EnterMaster(net: Net) returns (r: Outcome)
      modifies this`masterQueue, this`masterActiveCount, this`masterOut, this`nextId
      ensures Tried(old(Now()).master, Now().master, cfg.maxConns, net, Conn(old(nextId), cfg.masterHost), r)
      ensures (Side(masterQueue, masterActiveCount, masterOut), r)
           == Enter(Side(old(masterQueue), old(masterActiveCount), old(masterOut)), cfg.maxConns, net,
                    Conn(old(nextId), cfg.masterHost))
      ensures nextId == old(nextId) + 1
    {
      if masterQueue == [] && masterActiveCount < cfg.maxConns && net.createOk {
        var conn := CreateConnection(cfg.masterHost, true);
        masterActiveCount := masterActiveCount + 1;
        masterOut := masterOut + {conn.value};
        return Got(conn.value);
      }
      if masterQueue == [] {
        nextId := nextId + 1;
        return Wait;
      }
      r := TakeMaster(net);
    }

    method TakeMaster(net: Net) returns (r: Outcome)
      requires masterQueue != []
      modifies this`masterQueue, this`masterActiveCount, this`masterOut, this`nextId
      ensures Took(old(Now()).master, Now().master, net, Conn(old(nextId), cfg.masterHost), r)
      ensures (Side(masterQueue, masterActiveCount, masterOut), r)
           == TakeFront(Side(old(masterQueue), old(masterActiveCount), old(masterOut)), net, Conn(old(nextId), cfg.masterHost))
      ensures nextId == old(nextId) + 1
    {
      var conn := masterQueue[0];
      masterQueue := masterQueue[1..];
      if net.pingOk {
        nextId := nextId + 1;
      } else {
        var replacement := CreateConnection(cfg.masterHost, net.recreateOk);
        if replacement.None? {
          masterActiveCount := masterActiveCount - 1;
          return Null;
        }
        conn := replacement.value;
      }
      masterOut := masterOut + {conn};
      r := Got(conn);
    }

    /** ... and after the wait. */
    method EndWrite(ghost t: nat, net: Net) returns (r: Outcome)
      requires Valid() && t in places && places[t].BackAtMaster?
      modifies this
      ensures old(masterQueue) == [] ==> r == (if net.timedOut then Null else Wait) && Now().master == old(Now()).master
      ensures old(masterQueue) != [] ==> Took(old(Now()).master, Now().master, net, Conn(old(nextId), cfg.masterHost), r)
      ensures Valid() && Now() == Apply(cfg, old(Now()), MasterSection(t, net))
      ensures r == MasterTurn(cfg, old(Now()), old(places)[t], net).1
      ensures r.Got? ==> r.conn.host == cfg.masterHost && r.conn !in old(masterOut) && r.conn in masterOut
    {
      ghost var before := Now();
      ReachableInv(cfg, before);
      MasterSides(cfg, before, t, net);
      hide Reachable, Inv, SidesOk;
      if masterQueue == [] {
        nextId := nextId + 1;
        r := if net.timedOut then Null else Wait;
      } else {
        r := TakeMaster(net);
      }
      Leave(MasterSection(t, net), before);
    }

    /** GetReadConnection with the slave lock, up to a connection or the wait. */
    method BeginRead(ghost t: nat, net: Net) returns (r: Outcome)
      requires Valid() && cfg.slaveHosts != [] && t in places && places[t].AtSlave?
      modifies this
      ensures old(slaveQueue) == [] && old(slaveActiveCount) < cfg.maxConns && net.createOk ==>
        r == Got(Conn(old(nextId), cfg.slaveHosts[net.draw % |cfg.slaveHosts|]))
        && slaveActiveCount == old(slaveActiveCount) + 1 && slaveQueue == []
      ensures r.Wait? <==> old(slaveQueue) == [] && (old(slaveActiveCount) >= cfg.maxConns || !net.createOk)
      ensures Tried(old(Now()).slave, Now().slave, cfg.maxConns, net, Conn(old(nextId), cfg.slaveHosts[net.draw % |cfg.slaveHosts|]), r)
      ensures Valid() && Now() == Apply(cfg, old(Now()), SlaveSection(t, net))
      ensures r == SlaveTurn(cfg, old(Now()), old(places)[t], net).1
      ensures r.Got? ==> HandedOut(cfg, Now(), r.conn) && r.conn !in old(slaveOut)
    {
      ghost var before := Now();
      ReachableInv(cfg, before);
      SlaveSides(cfg, before, t, net);
      hide Reachable, Inv, SidesOk, Enter;
      r := EnterSlave(net);
      Leave(SlaveSection(t, net), before);
    }

    method EnterSlave(net: Net) returns (r: Outcome)
      requires cfg.slaveHosts != []
      modifies this`slaveQueue, this`slaveActiveCount, this`slaveOut, this`nextId
      ensures Tried(old(Now()).slave, Now().slave, cfg.maxConns, net, Conn(old(nextId), cfg.slaveHosts[net.draw % |cfg.slaveHosts|]), r)
      ensures (Side(slaveQueue, slaveActiveCount, slaveOut), r)
           == Enter(Side(old(slaveQueue), old(slaveActiveCount), old(slaveOut)), cfg.maxConns, net,
                    FreshSlave(cfg, old(Now()), net))
      ensures nextId == old(nextId) + 1
    {
      if slaveQueue == [] && slaveActiveCount < cfg.maxConns && net.createOk {
        var conn := CreateConnection(cfg.slaveHosts[net.draw % |cfg.slaveHosts|], true);
        slaveActiveCount := slaveActiveCount + 1;
        slaveOut := slaveOut + {conn.value};
        return Got(conn.value);
      }
      if slaveQueue == [] {
        nextId := nextId + 1;
        return Wait;
      }
      r := TakeSlave(net);
    }

    method TakeSlave(net: Net) returns (r: Outcome)
      requires slaveQueue != [] && cfg.slaveHosts != []
      modifies this`slaveQueue, this`slaveActiveCount, this`slaveOut, this`nextId
      ensures Took(old(Now()).slave, Now().slave, net, Conn(old(nextId), cfg.slaveHosts[net.draw % |cfg.slaveHosts|]), r)
      ensures (Side(slaveQueue, slaveActiveCount, slaveOut), r)
           == TakeFront(Side(old(slaveQueue), old(slaveActiveCount), old(slaveOut)), net, FreshSlave(cfg, old(Now()), net))
      ensures nextId == old(nextId) + 1
    {
      var conn := slaveQueue[0];
      slaveQueue := slaveQueue[1..];
      if net.pingOk {
        nextId := nextId + 1;
      } else {
        var replacement := CreateConnection(cfg.slaveHosts[net.draw % |cfg.slaveHosts|], net.recreateOk);
        if replacement.None? {
          slaveActiveCount := slaveActiveCount - 1;
          return Null;
        }
        conn := replacement.value;
      }
      slaveOut := slaveOut + {conn};
      r := Got(conn);
    }

    /** ... and after its wait: on a timeout the read goes on to the master, the slave lock still held. */
    method EndRead(ghost t: nat, net: Net) returns (r: Outcome)
      requires Valid() && cfg.slaveHosts != [] && t in places && places[t].BackAtSlave?
      modifies this
      ensures old(slaveQueue) == [] ==> r == (if net.timedOut then Fallback else Wait) && Now().slave == old(Now()).slave
      ensures old(slaveQueue) != [] ==>
        Took(old(Now()).slave, Now().slave, net, Conn(old(nextId), cfg.slaveHosts[net.draw % |cfg.slaveHosts|]), r)
      ensures Valid() && Now() == Apply(cfg, old(Now()), SlaveSection(t, net))
      ensures r == SlaveTurn(cfg, old(Now()), old(places)[t], net).1
      ensures r.Got? ==> HandedOut(cfg, Now(), r.conn) && r.conn !in old(slaveOut)
      ensures r.Fallback? ==> places[t] == ForMaster(true) && slaveOwner == Some(t)
    {
      ghost var before := Now();
      ReachableInv(cfg, before);
      assert slaveOwner == Some(t);
      SlaveSides(cfg, before, t, net);
      hide Reachable, Inv, SidesOk;
      if slaveQueue == [] {
        nextId := nextId + 1;
        r := if net.timedOut then Fallback else Wait;
      } else {
        r := TakeSlave(net);
      }
      Leave(SlaveSection(t, net), before);
    }

    /** GetWriteConnection from the start, when nobody has the master lock. */
    method GetWriteConnection(ghost t: nat, net: Net) returns (r: Outcome)
      requires Valid() && t !in places && masterOwner.None?
      modifies this
      ensures old(masterQueue) == [] && old(masterActiveCount) < cfg.maxConns && net.createOk ==>
        r == Got(Conn(old(nextId), cfg.masterHost))
        && masterActiveCount == old(masterActiveCount) + 1 && masterQueue == []
      ensures r.Wait? <==> old(masterQueue) == [] && (old(masterActiveCount) >= cfg.maxConns || !net.createOk)
      ensures Tried(old(Now()).master, Now().master, cfg.maxConns, net, Conn(old(nextId), cfg.masterHost), r)
      ensures Now().slave == old(Now()).slave
      ensures Valid() && masterOwner.None? && slaveOwner == old(slaveOwner)
      ensures r.Wait? ==> places == old(places)[t := MasterWait(false)]
      ensures !r.Wait? ==> places == old(places)
      ensures r.Got? ==> r.conn.host == cfg.masterHost && r.conn !in old(masterOut) && r.conn in masterOut
    {
      hide Reachable, MasterTurn;
      Move(CallWrite(t));
      Move(LockMaster(t));
      r := BeginWrite(t, net);
      if !r.Wait? {
        assert places == old(places);
      }
    }

    /** GetReadConnection from the start, when its lock is free: without slaves it is GetWriteConnection. */
    method GetReadConnection(ghost t: nat, net: Net) returns (r: Outcome)
      requires Valid() && t !in places && masterOwner.None? && slaveOwner.None?
      modifies this
      ensures Valid() && masterOwner.None? && slaveOwner.None?
      ensures cfg.slaveHosts == [] ==>
        Tried(old(Now()).master, Now().master, cfg.maxConns, net, Conn(old(nextId), cfg.masterHost), r)
        && Now().slave == old(Now()).slave
      ensures cfg.slaveHosts != [] ==>
        Tried(old(Now()).slave, Now().slave, cfg.maxConns, net,
              Conn(old(nextId), cfg.slaveHosts[net.draw % |cfg.slaveHosts|]), r)
        && Now().master == old(Now()).master
    {
      if cfg.slaveHosts == [] {
        r := GetWriteConnection(t, net);
        return;
      }
      hide Reachable, SlaveTurn, Tried;
      Move(CallRead(t));
      Move(LockSlave(t));
      r := BeginRead(t, net);
      assert !r.Fallback?;
    }

    /** The fallback of a timed-out read: the same under the slave lock, which is given back with the
        answer and kept through another wait. */
    method FallBack(ghost t: nat, net: Net) returns (r: Outcome)
      requires Valid() && t in places && places[t] == ForMaster(true) && masterOwner.None?
      modifies this
      ensures old(masterQueue) == [] && old(masterActiveCount) < cfg.maxConns && net.createOk ==>
        r == Got(Conn(old(nextId), cfg.masterHost))
        && masterActiveCount == old(masterActiveCount) + 1 && masterQueue == []
      ensures r.Wait? <==> old(masterQueue) == [] && (old(masterActiveCount) >= cfg.maxConns || !net.createOk)
      ensures Tried(old(Now()).master, Now().master, cfg.maxConns, net, Conn(old(nextId), cfg.masterHost), r)
      ensures Valid() && masterOwner.None?
      ensures r.Wait? ==> t in places && places[t] == MasterWait(true) && slaveOwner == Some(t)
      ensures !r.Wait? ==> t !in places && slaveOwner.None?
      ensures r.Got? ==> r.conn.host == cfg.masterHost && r.conn !in old(masterOut) && r.conn in masterOut
    {
      assert slaveOwner == Some(t) by { ReachableInv(cfg, Now()); }
      hide Reachable, MasterTurn;
      Move(LockMaster(t));
      r := BeginWrite(t, net);
      if !r.Wait? {
        Move(UnlockSlave(t));
      }
    }

    /** The deleters, with their lock. */
    method ReleaseMasterConnection(ghost t: nat, c: Conn)
      requires Valid() && t in places && places[t] == GivingMaster(c)
      modifies this
      ensures Valid() && Now() == Apply(cfg, old(Now()), Push(t))
      ensures masterQueue == old(masterQueue) + [c] && masterActiveCount == old(masterActiveCount)
      ensures masterOut == old(masterOut) - {c} && masterOwner.None? && t !in places
      ensures Now().slave == old(Now()).slave
    {
      ghost var before := Now();
      hide Reachable;
      masterQueue := masterQueue + [c];
      masterOut := masterOut - {c};
      Leave(Push(t), before);
    }

    method ReleaseSlaveConnection(ghost t: nat, c: Conn)
      requires Valid() && t in places && places[t] == GivingSlave(c)
      modifies this
      ensures Valid() && Now() == Apply(cfg, old(Now()), Push(t))
      ensures slaveQueue == old(slaveQueue) + [c] && slaveActiveCount == old(slaveActiveCount)
      ensures slaveOut == old(slaveOut) - {c} && slaveOwner.None? && t !in places
      ensures Now().master == old(Now()).master
    {
      ghost var before := Now();
      hide Reachable;
      slaveQueue := slaveQueue + [c];
      slaveOut := slaveOut - {c};
      Leave(Push(t), before);
    }
  }

  lemma FilledSnoc(hosts: seq<string>, ok: seq<bool>, firstId: nat, i: nat)
    requires |ok| == |hosts| && i < |hosts|
    ensures var s := Filled(hosts[..i], ok[..i], firstId);
      Filled(hosts[..i + 1], ok[..i + 1], firstId)
      == if ok[i] then Side(s.queue + [Conn(firstId + i, hosts[i])], s.count + 1, {}) else s
    ensures Filled(hosts[..i], ok[..i], firstId).out == {}
  {
    assert hosts[..i + 1][..i] == hosts[..i] && ok[..i + 1][..i] == ok[..i];
    FilledOk(hosts[..i], ok[..i], firstId);
  }

  lemma {:induction false} FilledContents(hosts: seq<string>, ok: seq<bool>, firstId: nat)
    requires |ok| == |hosts|
    ensures var s := Filled(hosts, ok, firstId);
      s.count == |s.queue|
      && (forall i | 0 <= i < |ok| :: Conn(firstId + i, hosts[i]) in s.queue <==> ok[i])
      && forall c <- s.queue :: firstId <= c.id < firstId + |ok| && c.host == hosts[c.id - firstId]
    decreases |hosts|
  {
    if hosts != [] {
      var n := |hosts| - 1;
      FilledContents(hosts[..n], ok[..n], firstId);
    }
  }

  lemma InitContents(cfg: Config, masterOk: seq<bool>, slaveOk: seq<bool>)
    requires |masterOk| == 2 && |slaveOk| == |cfg.slaveHosts|
    ensures var m := InitState(cfg, masterOk, slaveOk).master;
      m.count == |m.queue| == (if masterOk[0] then 1 else 0) + (if masterOk[1] then 1 else 0)
      && forall c <- m.queue :: c.host == cfg.masterHost
    ensures var v := InitState(cfg, masterOk, slaveOk).slave;
      v.count == |v.queue|
      && (forall i | 0 <= i < |slaveOk| :: Conn(2 + i, cfg.slaveHosts[i]) in v.queue <==> slaveOk[i])
      && forall c <- v.queue :: 2 <= c.id < 2 + |slaveOk| && c.host == cfg.slaveHosts[c.id - 2]
  {
    FilledContents(MasterList(cfg), masterOk, 0);
    FilledContents(cfg.slaveHosts, slaveOk, MASTER_CONNS);
    FilledTwo(MasterList(cfg), masterOk, 0);
    hide Filled;
  }

  lemma FilledTwo(hosts: seq<string>, ok: seq<bool>, firstId: nat)
    requires |ok| == |hosts| == 2
    ensures Filled(hosts, ok, firstId).count == (if ok[0] then 1 else 0) + (if ok[1] then 1 else 0)
  {
    assert hosts[..1][..0] == [] && ok[..1][..0] == [];
    assert Filled(hosts[..1], ok[..1], firstId).count == if ok[0] then 1 else 0;
  }
}
