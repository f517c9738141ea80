// The storage the chat and relation services share, as a system of atomic
// statements: one event per SQL statement or Redis command, so that every
// sequence of events is one interleaving of any number of running requests.

module Store {
  import opened Prelude
  import opened Runs
  import opened Inbox

  datatype Body = Body(sender: int, groupId: int, kind: int)

  /** One committed statement of the master, in commit order; a replica holds a prefix of these. */
  datatype Entry = BodyRow(msgId: nat, body: Body) | IndexRows(rows: seq<Row>)

  const SYSTEM := 3
  const FRIEND_REQ := 4
  const NORMAL := 1

  /** A running SendMessage: its message is stored, and then it numbers its recipients in turn. */
  datatype Stage = Stored | Numbering(targets: seq<int>, seqs: seq<nat>)

  datatype Send = Send(sender: int, receiver: int, groupId: int, kind: int, stage: Stage)

  /** `drawn` is a history variable: which message drew each number of each user's counter. */
  datatype State = State(
    log: seq<Entry>,
    counters: map<int, nat>,
    lastMsgId: nat,
    relations: map<(int, int), int>,
    sends: map<nat, Send>,
    drawn: map<(int, nat), nat>)

  const EMPTY := State([], map[], 0, map[], map[], map[])

  datatype Event =
    | StoreBody(sender: int, receiver: int, groupId: int, kind: int)
    | CheckFriend(msgId: nat)
    | ReadMembers(msgId: nat, members: seq<int>)
    | Incr(msgId: nat)
    | InsertIndex(msgId: nat)
    | Abandon(msgId: nat)  // a failed statement, or a server that stopped half-way
    | Accept(user: int, requester: int)

  // ----- reading -----

  /** An absent Redis key counts from 0. */
  function CounterIn(counters: map<int, nat>, user: int): nat {
    if user in counters then counters[user] else 0
  }

  function Counter(s: State, user: int): nat {
    CounterIn(s.counters, user)
  }

  function RowsIn(e: Entry): seq<Row> {
    if e.IndexRows? then e.rows else []
  }

  /** The index table after a prefix of the log, rows in commit order. */
  function Rows(log: seq<Entry>): seq<Row> {
    if log == [] then [] else Rows(log[..|log| - 1]) + RowsIn(log[|log| - 1])
  }

  /** The body table: the LEFT JOIN's right side. */
  function BodyOf(log: seq<Entry>, msgId: nat): Option<Body> {
    if log == [] then None
    else
      var e := log[|log| - 1];
      if e.BodyRow? && e.msgId == msgId then Some(e.body) else BodyOf(log[..|log| - 1], msgId)
  }

  predicate Related(relations: map<(int, int), int>, a: int, b: int) {
    (a, b) in relations && relations[(a, b)] == NORMAL
  }

  predicate NeedsFriend(groupId: int, kind: int) {
    groupId <= 0 && kind != SYSTEM && kind != FRIEND_REQ
  }

  // ----- writing -----

  function InsertIgnore(relations: map<(int, int), int>, a: int, b: int): map<(int, int), int> {
    if (a, b) in relations then relations else relations[(a, b) := NORMAL]
  }

  function RowsFor(msgId: nat, send: Send): (rows: seq<Row>)
    requires send.stage.Numbering? && |send.stage.seqs| == |send.stage.targets|
    ensures |rows| == |send.stage.targets|
  {
    seq(|send.stage.targets|, k requires 0 <= k < |send.stage.targets| =>
      Row(send.stage.targets[k], if send.groupId > 0 then send.groupId else send.sender, msgId, send.stage.seqs[k]))
  }

  ghost predicate Enabled(s: State, e: Event) {
    match e
    case StoreBody(_, _, _, _) => true
    case CheckFriend(m) => m in s.sends && s.sends[m].stage.Stored? && s.sends[m].groupId <= 0
    case ReadMembers(m, members) =>
      m in s.sends && s.sends[m].stage.Stored? && s.sends[m].groupId > 0 && Distinct(members)
    case Incr(m) =>
      m in s.sends && s.sends[m].stage.Numbering? && |s.sends[m].stage.seqs| < |s.sends[m].stage.targets|
    case InsertIndex(m) =>
      m in s.sends && s.sends[m].stage.Numbering? && |s.sends[m].stage.seqs| == |s.sends[m].stage.targets|
    case Abandon(m) => m in s.sends
    case Accept(_, _) => true
  }

  function Staged(s: State, m: nat, stage: Stage): State
    requires m in s.sends
  {
    s.(sends := s.sends[m := s.sends[m].(stage := stage)])
  }

  function Ended(s: State, m: nat): State {
    s.(sends := s.sends - {m})
  }

  function AfterStoreBody(s: State, sender: int, receiver: int, groupId: int, kind: int): State {
    var m := s.lastMsgId + 1;
    s.(log := s.log + [BodyRow(m, Body(sender, groupId, kind))], lastMsgId := m,
       sends := s.sends[m := Send(sender, receiver, groupId, kind, Stored)])
  }

  function AfterIncr(s: State, m: nat): State
    requires m in s.sends && s.sends[m].stage.Numbering?
    requires |s.sends[m].stage.seqs| < |s.sends[m].stage.targets|
  {
    var st := s.sends[m].stage;
    var user := st.targets[|st.seqs|];
    var n := Counter(s, user) + 1;
    Staged(s, m, st.(seqs := st.seqs + [n]))
      .(counters := s.counters[user := n], drawn := s.drawn[(user, n) := m])
  }

  ghost function Apply(s: State, e: Event): State
    requires Enabled(s, e)
  {
    match e
    case StoreBody(a, b, g, k) => AfterStoreBody(s, a, b, g, k)
    case CheckFriend(m) =>
      var d := s.sends[m];
      if Related(s.relations, d.sender, d.receiver) || !NeedsFriend(d.groupId, d.kind)
      then Staged(s, m, Numbering([d.receiver], [])) else Ended(s, m)
    case ReadMembers(m, members) =>
      if members == [] then Ended(s, m) else Staged(s, m, Numbering(members, []))
    case Incr(m) => AfterIncr(s, m)
    case InsertIndex(m) => Ended(s, m).(log := s.log + [IndexRows(RowsFor(m, s.sends[m]))])
    case Abandon(m) => Ended(s, m)
    case Accept(u, r) => s.(relations := InsertIgnore(InsertIgnore(s.relations, u, r), r, u))
  }

  ghost function Next(s: State, e: Event): Option<State> {
    if Enabled(s, e) then Some(Apply(s, e)) else None
  }

  // ----- what every run keeps -----

  /** Counters have issued every drawn number, and each running send drew its own. */
  ghost predicate NumbersOk(s: State) {
    (forall k <- s.drawn :: 1 <= k.1 <= Counter(s, k.0))
    && (forall m <- s.sends :: m <= s.lastMsgId)
    && forall m <- s.sends | s.sends[m].stage.Numbering? :: SendOk(s, m, s.sends[m].stage)
  }

  ghost predicate SendOk(s: State, m: nat, st: Stage)
    requires st.Numbering?
  {
    Distinct(st.targets) && |st.seqs| <= |st.targets|
    && forall k | 0 <= k < |st.seqs| :: Drew(s, st.targets[k], st.seqs[k], m)
  }

  ghost predicate Drew(s: State, user: int, n: nat, m: nat) {
    (user, n) in s.drawn && s.drawn[(user, n)] == m
  }

  /** Committed rows carry numbers their own, finished message drew, and no number twice. */
  ghost predicate RowsOk(s: State) {
    UniqueKey(Rows(s.log))
    && forall r <- Rows(s.log) :: Drew(s, r.owner, r.seqId, r.msgId) && r.msgId !in s.sends && r.msgId <= s.lastMsgId
  }

  /** Every message id up to the last has its body; a running send's is its own. */
  ghost predicate BodiesOk(s: State) {
    (forall m <- s.sends :: BodyOf(s.log, m) == Some(Body(s.sends[m].sender, s.sends[m].groupId, s.sends[m].kind)))
    && (forall k | 0 <= k <= |s.log| :: Joined(s.log[..k]))
  }

  /** The LEFT JOIN of a replica that holds this prefix of the log never meets a missing body. */
  ghost predicate Joined(log: seq<Entry>) {
    forall r <- Rows(log) :: BodyOf(log, r.msgId).Some?
  }

  ghost predicate FriendsOk(s: State) {
    forall p <- s.relations :: s.relations[p] == NORMAL && Related(s.relations, p.1, p.0)
  }

  /** Single messages other than SYSTEM and FRIEND_REQ only reach friends of their sender. */
  ghost predicate StrangersOk(s: State) {
    (forall r <- Rows(s.log) :: Allowed(s, BodyOf(s.log, r.msgId), r.owner))
    && forall m <- s.sends | s.sends[m].stage.Numbering? ::
        forall t <- s.sends[m].stage.targets ::
          Allowed(s, Some(Body(s.sends[m].sender, s.sends[m].groupId, s.sends[m].kind)), t)
  }

  ghost predicate Allowed(s: State, b: Option<Body>, owner: int) {
    b.Some? && NeedsFriend(b.value.groupId, b.value.kind) ==> Related(s.relations, b.value.sender, owner)
  }

  /** One batch never holds two rows of one owner. */
  ghost predicate BatchesOk(log: seq<Entry>) {
    forall e <- log :: OneRowEach(RowsIn(e))
  }

  ghost predicate OneRowEach(rows: seq<Row>) {
    forall i, j | 0 <= i < j < |rows| :: rows[i].owner != rows[j].owner
  }

  ghost predicate Inv(s: State) {
    BatchesOk(s.log) && NumbersOk(s) && RowsOk(s) && BodiesOk(s) && FriendsOk(s) && StrangersOk(s)
  }

  lemma RowsSnoc(log: seq<Entry>, e: Entry)
    ensures Rows(log + [e]) == Rows(log) + RowsIn(e)
  {
    assert (log + [e])[..|log|] == log;
  }

  lemma BodySnoc(log: seq<Entry>, e: Entry, m: nat)
    ensures BodyOf(log + [e], m) == if e.BodyRow? && e.msgId == m then Some(e.body) else BodyOf(log, m)
  {
    assert (log + [e])[..|log|] == log;
  }

  lemma NumbersKept(s: State, e: Event)
    requires NumbersOk(s) && Enabled(s, e)
    ensures NumbersOk(Apply(s, e))
  {
    hide RowsFor, Counter;
    var s' := Apply(s, e);
    match e {
      case Incr(m) => IncrNumbers(s, m);
      case _ => SendsKept(s, s');
    }
  }

  /** Sends that end, start or are given their recipients; no number is drawn. */
  lemma SendsKept(s: State, s': State)
    requires NumbersOk(s) && s'.drawn == s.drawn && s'.counters == s.counters && s'.lastMsgId >= s.lastMsgId
    requires forall m <- s'.sends :: (m in s.sends && s'.sends[m] == s.sends[m]) || StartsOk(s', m, s'.sends[m].stage)
    ensures NumbersOk(s')
  {
    hide Distinct;
    forall k | k in s'.drawn ensures 1 <= k.1 <= Counter(s', k.0) {
      assert Counter(s', k.0) == Counter(s, k.0);
    }
    forall m | m in s'.sends && s'.sends[m].stage.Numbering? ensures SendOk(s', m, s'.sends[m].stage) {
      if m in s.sends && s'.sends[m] == s.sends[m] {
        assert SendOk(s, m, s.sends[m].stage);
      }
    }
  }

  ghost predicate StartsOk(s: State, m: nat, st: Stage) {
    m <= s.lastMsgId && (st.Numbering? ==> st.seqs == [] && Distinct(st.targets))
  }

  lemma IncrNumbers(s: State, m: nat)
    requires NumbersOk(s) && Enabled(s, Incr(m))
    ensures NumbersOk(AfterIncr(s, m))
    ensures forall k <- s.drawn :: k in AfterIncr(s, m).drawn && AfterIncr(s, m).drawn[k] == s.drawn[k]
  {
    var s' := AfterIncr(s, m);
    var user := s.sends[m].stage.targets[|s.sends[m].stage.seqs|];
    assert (user, Counter(s, user) + 1) !in s.drawn;
    forall k | k in s'.drawn ensures 1 <= k.1 <= Counter(s', k.0) {
    }
    forall q | q in s'.sends && s'.sends[q].stage.Numbering? ensures SendOk(s', q, s'.sends[q].stage) {
      assert SendOk(s, q, s.sends[q].stage);
      var old_ := s.sends[q].stage;
      forall k | 0 <= k < |s'.sends[q].stage.seqs| ensures Drew(s', old_.targets[k], s'.sends[q].stage.seqs[k], q) {
        if k < |old_.seqs| {
          assert Drew(s, old_.targets[k], old_.seqs[k], q);
        }
      }
    }
  }

  lemma RowsKept(s: State, e: Event)
    requires NumbersOk(s) && RowsOk(s) && Enabled(s, e)
    ensures RowsOk(Apply(s, e))
  {
    match e {
      case InsertIndex(m) => InsertRows(s, m);
      case Incr(m) => IncrNumbers(s, m);
      case StoreBody(a, b, g, k) => RowsSnoc(s.log, BodyRow(s.lastMsgId + 1, Body(a, g, k)));
      case _ =>
    }
  }

  lemma BatchRows(s: State, m: nat)
    requires NumbersOk(s) && Enabled(s, InsertIndex(m))
    ensures var st, rows := s.sends[m].stage, RowsFor(m, s.sends[m]);
      Distinct(st.targets)
      && forall k | 0 <= k < |rows| ::
           rows[k].owner == st.targets[k] && rows[k].seqId == st.seqs[k] && rows[k].msgId == m
           && Drew(s, rows[k].owner, rows[k].seqId, m)
  {
    var st := s.sends[m].stage;
    assert SendOk(s, m, st);
    forall k | 0 <= k < |st.seqs| ensures Drew(s, st.targets[k], st.seqs[k], m) {
    }
  }

  /** The batch's rows carry the numbers this message drew, so none of them is committed yet. */
  lemma BatchFresh(s: State, m: nat)
    requires NumbersOk(s) && RowsOk(s) && Enabled(s, InsertIndex(m))
    ensures forall r <- RowsFor(m, s.sends[m]) :: Drew(s, r.owner, r.seqId, m) && r.msgId == m
    ensures forall r <- RowsFor(m, s.sends[m]) :: forall q <- Rows(s.log) :: (r.owner, r.seqId) != (q.owner, q.seqId)
  {
    BatchRows(s, m);
    hide RowsFor, Distinct, NumbersOk, UniqueKey, Rows;
    forall r, q | r in RowsFor(m, s.sends[m]) && q in Rows(s.log)
      ensures (r.owner, r.seqId) != (q.owner, q.seqId)
    {
      assert Drew(s, r.owner, r.seqId, m) && Drew(s, q.owner, q.seqId, q.msgId);
    }
  }

  lemma InsertRows(s: State, m: nat)
    requires NumbersOk(s) && RowsOk(s) && Enabled(s, InsertIndex(m))
    ensures RowsOk(Apply(s, InsertIndex(m)))
  {
    var rows, old_ := RowsFor(m, s.sends[m]), Rows(s.log);
    BatchFresh(s, m);
    BatchOwners(s, m);
    UniqueConcat(old_, rows);
    RowsSnoc(s.log, IndexRows(rows));
    hide RowsFor, UniqueKey, Rows, Distinct, SendOk;
    var s' := Apply(s, InsertIndex(m));
    assert Rows(s'.log) == old_ + rows;
    forall r: Row | r in old_ + rows ensures Drew(s', r.owner, r.seqId, r.msgId) && r.msgId !in s'.sends && r.msgId <= s'.lastMsgId {
      assert r in old_ || r in rows;
      assert Drew(s, r.owner, r.seqId, r.msgId);
    }
  }

  lemma BatchOwners(s: State, m: nat)
    requires NumbersOk(s) && Enabled(s, InsertIndex(m))
    ensures OneRowEach(RowsFor(m, s.sends[m]))
  {
    BatchRows(s, m);
  }

  lemma UniqueConcat(a: seq<Row>, b: seq<Row>)
    requires UniqueKey(a)
    requires OneRowEach(b)
    requires forall r <- b :: forall q <- a :: (r.owner, r.seqId) != (q.owner, q.seqId)
    ensures UniqueKey(a + b)
  {
    var c := a + b;
    forall i, j | 0 <= i < j < |c| && c[i].owner == c[j].owner ensures c[i].seqId != c[j].seqId {
      if i < |a| <= j {
        assert c[i] == a[i] && c[j] == b[j - |a|];
      }
    }
  }

  lemma BodiesKept(s: State, e: Event)
    requires NumbersOk(s) && RowsOk(s) && BodiesOk(s) && Enabled(s, e)
    ensures BodiesOk(Apply(s, e))
  {
    match e {
      case StoreBody(a, b, g, k) => StoredBodies(s, a, b, g, k);
      case InsertIndex(m) => IndexedBodies(s, m);
      case _ => hide RowsFor, Joined, BodyOf, RowsOk;
    }
  }

  lemma StoredBodies(s: State, sender: int, receiver: int, groupId: int, kind: int)
    requires NumbersOk(s) && BodiesOk(s)
    ensures BodiesOk(AfterStoreBody(s, sender, receiver, groupId, kind))
  {
    var entry := BodyRow(s.lastMsgId + 1, Body(sender, groupId, kind));
    JoinedGrows(s, entry);
    var s' := AfterStoreBody(s, sender, receiver, groupId, kind);
    hide BodyOf, Joined;
    forall m | m in s'.sends ensures BodyOf(s'.log, m) == Some(Body(s'.sends[m].sender, s'.sends[m].groupId, s'.sends[m].kind)) {
      BodySnoc(s.log, entry, m);
    }
  }

  lemma IndexedBodies(s: State, m: nat)
    requires BodiesOk(s) && Enabled(s, InsertIndex(m))
    ensures BodiesOk(Apply(s, InsertIndex(m)))
  {
    var rows := RowsFor(m, s.sends[m]);
    forall r | r in rows ensures r.msgId == m {
    }
    hide RowsFor, BodyOf;
    JoinedGrows(s, IndexRows(rows));
    hide Joined;
    forall k | k in s.sends ensures BodyOf(s.log + [IndexRows(rows)], k) == BodyOf(s.log, k) {
      BodySnoc(s.log, IndexRows(rows), k);
    }
  }

  lemma JoinedGrows(s: State, entry: Entry)
    requires BodiesOk(s)
    requires entry.IndexRows? ==> forall r <- entry.rows :: BodyOf(s.log, r.msgId).Some?
    ensures forall k | 0 <= k <= |s.log| + 1 :: Joined((s.log + [entry])[..k])
  {
    var log := s.log + [entry];
    forall k | 0 <= k <= |log| ensures Joined(log[..k]) {
      if k <= |s.log| {
        assert log[..k] == s.log[..k];
      } else {
        assert log[..k] == log && s.log[..|s.log|] == s.log;
        assert Joined(s.log);
        RowsSnoc(s.log, entry);
        forall r | r in Rows(log) ensures BodyOf(log, r.msgId).Some? {
          BodySnoc(s.log, entry, r.msgId);
        }
      }
    }
  }

  lemma FriendsKept(s: State, e: Event)
    requires FriendsOk(s) && Enabled(s, e)
    ensures FriendsOk(Apply(s, e))
    ensures forall p <- s.relations :: p in Apply(s, e).relations && Apply(s, e).relations[p] == s.relations[p]
  {
    match e {
      case Accept(u, r) => AcceptedBoth(s, u, r);
      case _ => hide RowsFor;
    }
  }

  lemma AcceptedBoth(s: State, u: int, r: int)
    requires FriendsOk(s)
    ensures var rel := InsertIgnore(InsertIgnore(s.relations, u, r), r, u);
      FriendsOk(s.(relations := rel)) && forall p <- s.relations :: p in rel && rel[p] == s.relations[p]
  {
    var one := InsertIgnore(s.relations, u, r);
    var two := InsertIgnore(one, r, u);
    assert (u, r) in two && (r, u) in two;
  }

  lemma StrangersKept(s: State, e: Event)
    requires Inv(s) && Enabled(s, e)
    ensures StrangersOk(Apply(s, e))
  {
    FriendsKept(s, e);
    var s' := Apply(s, e);
    StrangerSends(s, e);
    forall r | r in Rows(s'.log) ensures Allowed(s', BodyOf(s'.log, r.msgId), r.owner) {
      StrangerRow(s, e, r);
    }
  }

  lemma StrangerSends(s: State, e: Event)
    requires Inv(s) && Enabled(s, e)
    requires forall p <- s.relations :: p in Apply(s, e).relations && Apply(s, e).relations[p] == s.relations[p]
    ensures var s' := Apply(s, e);
      forall m <- s'.sends | s'.sends[m].stage.Numbering? ::
        forall t <- s'.sends[m].stage.targets ::
          Allowed(s', Some(Body(s'.sends[m].sender, s'.sends[m].groupId, s'.sends[m].kind)), t)
  {
    hide RowsFor, NumbersOk, RowsOk, BodiesOk, FriendsOk;
    var s' := Apply(s, e);
    forall m, t | m in s'.sends && s'.sends[m].stage.Numbering? && t in s'.sends[m].stage.targets
      ensures Allowed(s', Some(Body(s'.sends[m].sender, s'.sends[m].groupId, s'.sends[m].kind)), t)
    {
      if m in s.sends && s.sends[m].stage.Numbering? {
        assert s'.sends[m].stage.targets == s.sends[m].stage.targets;
        assert Allowed(s, Some(Body(s.sends[m].sender, s.sends[m].groupId, s.sends[m].kind)), t);
      }
    }
  }

  lemma StrangerRow(s: State, e: Event, r: Row)
    requires Inv(s) && Enabled(s, e) && r in Rows(Apply(s, e).log)
    requires forall p <- s.relations :: p in Apply(s, e).relations && Apply(s, e).relations[p] == s.relations[p]
    ensures Allowed(Apply(s, e), BodyOf(Apply(s, e).log, r.msgId), r.owner)
  {
    match e {
      case StoreBody(a, b, g, k) =>
        var entry := BodyRow(s.lastMsgId + 1, Body(a, g, k));
        RowsSnoc(s.log, entry);
        assert r in Rows(s.log) && r.msgId <= s.lastMsgId;
        BodySnoc(s.log, entry, r.msgId);
        assert Allowed(s, BodyOf(s.log, r.msgId), r.owner);
      case InsertIndex(m) => StrangerBatch(s, m, r);
      case _ =>
        assert Allowed(s, BodyOf(s.log, r.msgId), r.owner);
    }
  }

  lemma StrangerBatch(s: State, m: nat, r: Row)
    requires Inv(s) && Enabled(s, InsertIndex(m)) && r in Rows(Apply(s, InsertIndex(m)).log)
    ensures Allowed(s, BodyOf(Apply(s, InsertIndex(m)).log, r.msgId), r.owner)
  {
    var rows := RowsFor(m, s.sends[m]);
    RowsSnoc(s.log, IndexRows(rows));
    BodySnoc(s.log, IndexRows(rows), r.msgId);
    BatchRows(s, m);
    hide FriendsOk, RowsOk, NumbersOk, RowsFor, Rows;
    if r in rows {
      var k :| 0 <= k < |rows| && rows[k] == r;
      assert r.owner in s.sends[m].stage.targets;
    } else {
      assert Allowed(s, BodyOf(s.log, r.msgId), r.owner);
    }
  }

  lemma BatchesKept(s: State, e: Event)
    requires BatchesOk(s.log) && NumbersOk(s) && Enabled(s, e)
    ensures BatchesOk(Apply(s, e).log)
  {
    match e {
      case InsertIndex(m) => BatchOwners(s, m);
      case _ =>
    }
  }

  lemma InvKept(s: State, e: Event)
    requires Inv(s) && Enabled(s, e)
    ensures Inv(Apply(s, e))
  {
    BatchesKept(s, e);
    NumbersKept(s, e);
    RowsKept(s, e);
    BodiesKept(s, e);
    FriendsKept(s, e);
    StrangersKept(s, e);
    hide *;
  }

  lemma InvKeeps()
    ensures Keeps(Next, Inv)
  {
    forall s: State, e | Inv(s) && Next(s, e).Some? ensures Inv(Next(s, e).value) {
      InvKept(s, e);
      hide Inv, Enabled, Apply;
    }
  }

  lemma InvEmpty()
    ensures Inv(EMPTY)
  {
  }

  // ----- the theorems, over every run from empty tables -----

  ghost predicate Reachable(s: State) {
    Reaches(Next, EMPTY, s)
  }

  lemma ReachableInv(s: State)
    requires Reachable(s)
    ensures Inv(s)
  {
    InvEmpty();
    InvKeeps();
    hide Inv, Next;
    ReachesKeeps(Next, Inv, EMPTY, s);
  }

  lemma Step(s: State, e: Event) returns (t: State)
    requires Reachable(s) && Enabled(s, e)
    ensures t == Apply(s, e) && Reachable(t)
  {
    t := Apply(s, e);
    hide Apply, Enabled;
    ReachesStep(Next, EMPTY, s, e);
  }

  /** No two inbox rows share an owner and a number, and every number lies within its owner's counter. */
  lemma SeqIntegrity(s: State)
    requires Reachable(s)
    ensures UniqueKey(Rows(s.log))
    ensures forall r <- Rows(s.log) :: 1 <= r.seqId <= Counter(s, r.owner)
  {
    ReachableInv(s);
    forall r | r in Rows(s.log) ensures 1 <= r.seqId <= Counter(s, r.owner) {
      assert Drew(s, r.owner, r.seqId, r.msgId);
    }
  }

  /** On every replica prefix, every index row finds its body. */
  lemma ReferentialOnReplicas(s: State, upTo: nat)
    requires Reachable(s) && upTo <= |s.log|
    ensures forall r <- Rows(s.log[..upTo]) :: BodyOf(s.log[..upTo], r.msgId).Some?
  {
    ReachableInv(s);
    assert Joined(s.log[..upTo]);
  }

  /** Friendship is symmetric, and a stranger's message is never in an inbox: a row's body exists, and
      unless it is a group's or of type 3 (SYSTEM) or 4 (FRIEND_REQ), the relation from its sender to the
      row's owner has status 1. */
  lemma StrangerRule(s: State)
    requires Reachable(s)
    ensures forall a, b :: (a, b) in s.relations ==>
      s.relations[(a, b)] == 1 && (b, a) in s.relations && s.relations[(b, a)] == 1
    ensures forall r <- Rows(s.log) :: BodyOf(s.log, r.msgId).Some?
    ensures forall r <- Rows(s.log) :: var b := BodyOf(s.log, r.msgId).value;
      b.groupId <= 0 && b.kind != 3 && b.kind != 4 ==>
      (b.sender, r.owner) in s.relations && s.relations[(b.sender, r.owner)] == 1
  {
    ReachableInv(s);
    ReferentialOnReplicas(s, |s.log|);
    assert s.log[..|s.log|] == s.log;
    forall a, b | (a, b) in s.relations
      ensures s.relations[(a, b)] == 1 && (b, a) in s.relations && s.relations[(b, a)] == 1
    {
      assert Related(s.relations, b, a);
    }
    forall r | r in Rows(s.log) ensures var b := BodyOf(s.log, r.msgId).value;
      b.groupId <= 0 && b.kind != 3 && b.kind != 4 ==>
      (b.sender, r.owner) in s.relations && s.relations[(b.sender, r.owner)] == 1
    {
      assert Allowed(s, BodyOf(s.log, r.msgId), r.owner);
    }
  }

  /** The index table holds exactly the rows of the committed batches. */
  lemma {:induction false} RowsContents(log: seq<Entry>, r: Row)
    ensures r in Rows(log) <==> exists i :: 0 <= i < |log| && log[i].IndexRows? && r in log[i].rows
  {
    if log != [] {
      var n := |log| - 1;
      RowsContents(log[..n], r);
      if i :| 0 <= i < n && log[i].IndexRows? && r in log[i].rows {
        assert log[..n][i] == log[i];
      }
    }
  }

  /** Message ids are given out once, in commit order. */
  ghost predicate IdsOk(s: State) {
    (forall i | 0 <= i < |s.log| && s.log[i].BodyRow? :: s.log[i].msgId <= s.lastMsgId)
    && forall i, j | 0 <= i < j < |s.log| && s.log[i].BodyRow? && s.log[j].BodyRow? :: s.log[i].msgId < s.log[j].msgId
  }

  lemma IdsKept(s: State, e: Event)
    requires IdsOk(s) && Enabled(s, e)
    ensures IdsOk(Apply(s, e))
  {
    hide RowsFor;
  }

  lemma {:induction false} BodyFound(log: seq<Entry>, i: nat)
    requires i < |log| && log[i].BodyRow?
    requires forall j | i < j < |log| && log[j].BodyRow? :: log[i].msgId < log[j].msgId
    ensures BodyOf(log, log[i].msgId) == Some(log[i].body)
    decreases |log|
  {
    if i < |log| - 1 {
      BodyFound(log[..|log| - 1], i);
    }
  }

  /** The join is faithful: on every replica that holds it, each committed body is the one found under
      its id. */
  lemma OwnBody(s: State, upTo: nat, i: nat)
    requires Reachable(s) && i < upTo <= |s.log| && s.log[i].BodyRow?
    ensures BodyOf(s.log[..upTo], s.log[i].msgId) == Some(s.log[i].body)
  {
    forall t: State, e | IdsOk(t) && Next(t, e).Some? ensures IdsOk(Next(t, e).value) {
      IdsKept(t, e);
      hide IdsOk, Enabled, Apply;
    }
    hide Next;
    ReachesKeeps(Next, IdsOk, EMPTY, s);
    BodyFound(s.log[..upTo], i);
  }

  function Owned(rows: seq<Row>, owner: int): seq<Row> {
    if rows == [] then []
    else Owned(rows[..|rows| - 1], owner) + (if rows[|rows| - 1].owner == owner then [rows[|rows| - 1]] else [])
  }

  /** A successful batch insert, whatever ran in between: each member gains exactly one row, with this
      message's id and the number it drew from that member's counter, which no row of theirs had. */
  lemma FanOutMember(s: State, m: nat, k: nat)
    requires Reachable(s) && Enabled(s, InsertIndex(m)) && k < |s.sends[m].stage.targets|
    ensures var st := s.sends[m].stage;
      var before := Owned(Rows(s.log), st.targets[k]);
      var row := RowsFor(m, s.sends[m])[k];
      Owned(Rows(Apply(s, InsertIndex(m)).log), st.targets[k]) == before + [row]
      && row.owner == st.targets[k] && row.msgId == m && row.seqId == st.seqs[k]
      && row.other == (if s.sends[m].groupId > 0 then s.sends[m].groupId else s.sends[m].sender)
      && Drew(s, st.targets[k], st.seqs[k], m)
      && forall q <- before :: q.seqId != row.seqId
  {
    ReachableInv(s);
    var rows := RowsFor(m, s.sends[m]);
    BatchRows(s, m);
    BatchOwners(s, m);
    BatchFresh(s, m);
    Appended(s, m, rows[k].owner);
    hide *;
    OwnedOne(rows, k);
    FreshRow(rows, k, Rows(s.log));
  }

  /** Nobody else's inbox changes. */
  lemma FanOutOther(s: State, m: nat, owner: int)
    requires Reachable(s) && Enabled(s, InsertIndex(m)) && owner !in s.sends[m].stage.targets
    ensures Owned(Rows(Apply(s, InsertIndex(m)).log), owner) == Owned(Rows(s.log), owner)
  {
    ReachableInv(s);
    BatchRows(s, m);
    Appended(s, m, owner);
    hide *;
    OwnedNone(RowsFor(m, s.sends[m]), owner);
  }

  lemma Appended(s: State, m: nat, owner: int)
    requires Enabled(s, InsertIndex(m))
    ensures Owned(Rows(Apply(s, InsertIndex(m)).log), owner)
         == Owned(Rows(s.log), owner) + Owned(RowsFor(m, s.sends[m]), owner)
  {
    hide RowsFor, Rows, Owned;
    RowsSnoc(s.log, IndexRows(RowsFor(m, s.sends[m])));
    OwnedConcat(Rows(s.log), RowsFor(m, s.sends[m]), owner);
  }

  lemma FreshRow(rows: seq<Row>, k: nat, before: seq<Row>)
    requires k < |rows|
    requires forall r <- rows :: forall q <- before :: (r.owner, r.seqId) != (q.owner, q.seqId)
    ensures forall q <- Owned(before, rows[k].owner) :: q.seqId != rows[k].seqId
  {
    forall q | q in Owned(before, rows[k].owner) ensures q.seqId != rows[k].seqId {
      OwnedContents(before, rows[k].owner, q);
      assert rows[k] in rows;
    }
  }

  lemma {:induction false} OwnedContents(rows: seq<Row>, owner: int, r: Row)
    ensures r in Owned(rows, owner) <==> r in rows && r.owner == owner
  {
    if rows != [] {
      OwnedContents(rows[..|rows| - 1], owner, r);
      assert rows == rows[..|rows| - 1] + [rows[|rows| - 1]];
    }
  }

  lemma {:induction false} OwnedConcat(a: seq<Row>, b: seq<Row>, owner: int)
    ensures Owned(a + b, owner) == Owned(a, owner) + Owned(b, owner)
  {
    if b == [] {
      assert a + b == a;
    } else {
      OwnedConcat(a, b[..|b| - 1], owner);
      assert (a + b)[..|a + b| - 1] == a + b[..|b| - 1];
    }
  }

  lemma {:induction false} OwnedNone(rows: seq<Row>, owner: int)
    requires forall k | 0 <= k < |rows| :: rows[k].owner != owner
    ensures Owned(rows, owner) == []
  {
    if rows != [] {
      OwnedNone(rows[..|rows| - 1], owner);
    }
  }

  lemma {:induction false} OwnedOne(rows: seq<Row>, k: nat)
    requires k < |rows| && OneRowEach(rows)
    ensures Owned(rows, rows[k].owner) == [rows[k]]
    decreases |rows|
  {
    var n := |rows| - 1;
    if k == n {
      OwnedNone(rows[..n], rows[k].owner);
    } else {
      OwnedOne(rows[..n], k);
    }
  }
}
