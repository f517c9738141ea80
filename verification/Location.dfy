// Who is where: each gateway's users_ map and the im:location hash they all
// share in Redis. Joining registers the session before it writes the hash, and
// closing deletes from the hash before it unregisters; other sessions' steps
// fall in between.

module Location {
  import opened Prelude
  import opened Runs

  /** How far a session has come: registered, written to the hash, deleted from it, unregistered. */
  datatype Phase = New | Joined | Located | Erased | Left

  /** user 0 is an anonymous upgrade that may log in later with a packet. */
  datatype Session = Session(gateway: string, user: nat, device: string, phase: Phase)

  /** A hash value; the writing session is history, Redis stores the gateway address. */
  datatype Entry = Entry(gateway: string, writer: nat)

  datatype State = State(
    sessions: map<nat, Session>,
    users: map<(string, nat), set<nat>>,
    location: map<(nat, string), Entry>)

  const START := State(map[], map[], map[])

  datatype Event =
    | Connect(id: nat, gateway: string, user: nat, device: string)
    | Login(id: nat, user: nat)
    | Join(id: nat)
    | HSet(id: nat)
    | HDel(id: nat)
    | Leave(id: nat)

  function Registered(s: State, gateway: string, user: nat): set<nat> {
    if (gateway, user) in s.users then s.users[(gateway, user)] else {}
  }

  function KeyOf(x: Session): (nat, string) {
    (x.user, x.device)
  }

  predicate InPhase(s: State, id: nat, p: Phase) {
    id in s.sessions && s.sessions[id].phase == p
  }

  predicate Enabled(s: State, e: Event) {
    match e
    case Connect(id, _, _, _) => id !in s.sessions
    case Login(id, user) => InPhase(s, id, New) && s.sessions[id].user == 0 && user > 0
    case Join(id) => InPhase(s, id, New) && s.sessions[id].user > 0
    case HSet(id) => InPhase(s, id, Joined)
    case HDel(id) => InPhase(s, id, New) || InPhase(s, id, Joined) || InPhase(s, id, Located)
    case Leave(id) => InPhase(s, id, Erased)
  }

  function Moved(s: State, id: nat, p: Phase): State
    requires id in s.sessions
  {
    s.(sessions := s.sessions[id := s.sessions[id].(phase := p)])
  }

  function Apply(s: State, e: Event): State
    requires Enabled(s, e)
  {
    match e
    case Connect(id, g, u, d) => s.(sessions := s.sessions[id := Session(g, u, d, New)])
    case Login(id, u) => s.(sessions := s.sessions[id := s.sessions[id].(user := u)])
    case Join(id) =>
      var x := s.sessions[id];
      Moved(s, id, Joined).(users := s.users[(x.gateway, x.user) := Registered(s, x.gateway, x.user) + {id}])
    case HSet(id) =>
      var x := s.sessions[id];
      Moved(s, id, Located).(location := s.location[KeyOf(x) := Entry(x.gateway, id)])
    case HDel(id) => Moved(s, id, Erased).(location := s.location - {KeyOf(s.sessions[id])})
    case Leave(id) =>
      var x := s.sessions[id];
      Moved(s, id, Left).(users := s.users[(x.gateway, x.user) := Registered(s, x.gateway, x.user) - {id}])
  }

  function Next(s: State, e: Event): Option<State> {
    if Enabled(s, e) then Some(Apply(s, e)) else None
  }

  ghost predicate Reachable(s: State) {
    Reaches(Next, START, s)
  }

  // ----- what every run keeps -----

  ghost predicate JoinedOk(s: State) {
    forall id <- s.sessions | s.sessions[id].phase == Joined || s.sessions[id].phase == Located ::
      id in Registered(s, s.sessions[id].gateway, s.sessions[id].user)
  }

  /** The entry's writer is still between its HSET and its HDEL. */
  ghost predicate EntryOk(s: State, key: (nat, string), e: Entry) {
    InPhase(s, e.writer, Located) && KeyOf(s.sessions[e.writer]) == key && s.sessions[e.writer].gateway == e.gateway
  }

  ghost predicate LocationOk(s: State) {
    forall key <- s.location :: EntryOk(s, key, s.location[key])
  }

  /** The hash holds what this session wrote. */
  predicate Stands(s: State, id: nat)
    requires id in s.sessions
  {
    var key := KeyOf(s.sessions[id]);
    key in s.location && s.location[key] == Entry(s.sessions[id].gateway, id)
  }

  /** Another session of the same user and device, that has touched the hash. */
  predicate Rivals(s: State, id: nat, other: nat)
    requires id in s.sessions
  {
    other in s.sessions && other != id && KeyOf(s.sessions[other]) == KeyOf(s.sessions[id])
    && !s.sessions[other].phase.New? && !s.sessions[other].phase.Joined?
  }

  ghost predicate StandsOk(s: State) {
    forall id <- s.sessions | s.sessions[id].phase.Located? :: Stands(s, id) || exists other :: Rivals(s, id, other)
  }

  ghost predicate Inv(s: State) {
    JoinedOk(s) && LocationOk(s) && StandsOk(s)
  }

  lemma JoinedKept(s: State, e: Event)
    requires JoinedOk(s) && Enabled(s, e)
    ensures JoinedOk(Apply(s, e))
  {
    hide KeyOf;
  }

  lemma LocationKept(s: State, e: Event)
    requires LocationOk(s) && Enabled(s, e)
    ensures LocationOk(Apply(s, e))
  {
    hide Registered;
    var s' := Apply(s, e);
    forall key | key in s'.location ensures EntryOk(s', key, s'.location[key]) {
      if key in s.location && s'.location[key] == s.location[key] {
        assert EntryOk(s, key, s.location[key]);
      }
    }
  }

  lemma RivalsKept(s: State, e: Event, id: nat, other: nat)
    requires Enabled(s, e) && id in s.sessions && s.sessions[id].phase.Located? && Rivals(s, id, other)
    ensures id in Apply(s, e).sessions && Rivals(Apply(s, e), id, other)
  {
    hide Registered;
  }

  lemma StandsKept(s: State, e: Event)
    requires StandsOk(s) && Enabled(s, e)
    ensures StandsOk(Apply(s, e))
  {
    var s' := Apply(s, e);
    forall id | id in s'.sessions && s'.sessions[id].phase.Located?
      ensures Stands(s', id) || exists other :: Rivals(s', id, other)
    {
      if InPhase(s, id, Located) {
        StoodBefore(s, e, id);
      }
    }
  }

  lemma StoodBefore(s: State, e: Event, id: nat)
    requires Enabled(s, e) && InPhase(s, id, Located) && InPhase(Apply(s, e), id, Located)
    requires Stands(s, id) || exists other :: Rivals(s, id, other)
    ensures Stands(Apply(s, e), id) || exists other :: Rivals(Apply(s, e), id, other)
  {
    var s' := Apply(s, e);
    if !Stands(s, id) {
      var other :| Rivals(s, id, other);
      RivalsKept(s, e, id, other);
    } else if !Stands(s', id) {
      assert Rivals(s', id, e.id);
    }
  }

  lemma InvKeeps()
    ensures Keeps(Next, Inv)
  {
    forall s: State, e | Inv(s) && Next(s, e).Some? ensures Inv(Next(s, e).value) {
      JoinedKept(s, e);
      LocationKept(s, e);
      StandsKept(s, e);
      hide JoinedOk, LocationOk, StandsOk, Enabled, Apply;
    }
  }

  lemma ReachableInv(s: State)
    requires Reachable(s)
    ensures Inv(s)
  {
    InvKeeps();
    hide Next;
    ReachesKeeps(Next, Inv, START, s);
  }

  // ----- the theorems -----

  /** In every interleaving across gateways, an entry (u, d) -> g written by session w means that w is
      still registered for u on gateway g, with device d. */
  lemma LocationSound(s: State, user: nat, device: string)
    requires Reachable(s) && (user, device) in s.location
    ensures var e := s.location[(user, device)];
      e.writer in s.sessions && s.sessions[e.writer].device == device && s.sessions[e.writer].user == user
      && e.writer in Registered(s, e.gateway, user)
  {
    ReachableInv(s);
    assert EntryOk(s, (user, device), s.location[(user, device)]);
  }

  /** Only a session of the same user and device, which has itself written or closed, can take a
      located session's entry away. */
  lemma EntryStands(s: State, id: nat)
    requires Reachable(s) && InPhase(s, id, Located)
    requires forall other :: !Rivals(s, id, other)
    ensures Stands(s, id)
  {
    ReachableInv(s);
  }

  // ----- which sessions can lose their entries -----

  /** Who is going to connect: where, as which user in the end, on which device. */
  datatype Peer = Peer(gateway: string, user: nat, device: string)

  type Plan = map<nat, Peer>

  /** A planned session may authenticate with the handshake or log in afterwards. */
  predicate Planned(plan: Plan, e: Event) {
    e.id in plan && match e
      case Connect(id, g, u, d) => g == plan[id].gateway && d == plan[id].device && (u == plan[id].user || u == 0)
      case Login(id, u) => u == plan[id].user
      case _ => true
  }

  function NextIn(plan: Plan): (State, Event) -> Option<State> {
    (s, e) => if Planned(plan, e) then Next(s, e) else None
  }

  /** No two of them share a user and a device. */
  predicate OneEach(plan: Plan) {
    forall a <- plan, b <- plan | a != b :: (plan[a].user, plan[a].device) != (plan[b].user, plan[b].device)
  }

  ghost predicate AlwaysFound(plan: Plan) {
    forall s: State | Reaches(NextIn(plan), START, s) :: AllStand(s)
  }

  ghost predicate AllStand(s: State) {
    forall id <- s.sessions | s.sessions[id].phase.Located? :: Stands(s, id)
  }

  ghost predicate AsPlanned(plan: Plan, s: State) {
    forall id <- s.sessions :: id in plan && s.sessions[id].device == plan[id].device
      && (s.sessions[id].user == plan[id].user
          || (s.sessions[id].user == 0 && !s.sessions[id].phase.Joined? && !s.sessions[id].phase.Located?))
  }

  lemma PlanKept(plan: Plan, s: State, e: Event)
    requires AsPlanned(plan, s) && Planned(plan, e) && Enabled(s, e)
    ensures AsPlanned(plan, Apply(s, e))
  {
    hide Registered, KeyOf;
  }

  lemma PlanInv(plan: Plan, s: State)
    requires Reaches(NextIn(plan), START, s)
    ensures StandsOk(s) && AsPlanned(plan, s)
  {
    var inv := (t: State) => StandsOk(t) && AsPlanned(plan, t);
    forall t: State, e | inv(t) && NextIn(plan)(t, e).Some? ensures inv(NextIn(plan)(t, e).value) {
      StandsKept(t, e);
      PlanKept(plan, t, e);
      hide StandsOk, AsPlanned, Enabled, Apply;
    }
    hide NextIn;
    ReachesKeeps(NextIn(plan), inv, START, s);
  }

  lemma StandIfAlone(plan: Plan, s: State)
    requires StandsOk(s) && AsPlanned(plan, s) && OneEach(plan) && forall id <- plan :: plan[id].user > 0
    ensures AllStand(s)
  {
    forall id | id in s.sessions && s.sessions[id].phase.Located? ensures Stands(s, id) {
      forall other ensures !Rivals(s, id, other) {
      }
    }
  }

  lemma PlanStep(plan: Plan, s: State, e: Event) returns (t: State)
    requires Reaches(NextIn(plan), START, s) && Planned(plan, e) && Enabled(s, e)
    ensures t == Apply(s, e) && Reaches(NextIn(plan), START, t)
  {
    t := Apply(s, e);
    assert NextIn(plan)(s, e) == Some(t);
    hide Planned, Enabled, Apply, NextIn;
    ReachesStep(NextIn(plan), START, s, e);
  }

  lemma ComeOnline(plan: Plan, s: State, id: nat) returns (t: State)
    requires Reaches(NextIn(plan), START, s) && id in plan && plan[id].user > 0 && id !in s.sessions
    ensures Reaches(NextIn(plan), START, t)
    ensures t.sessions == s.sessions[id := Session(plan[id].gateway, plan[id].user, plan[id].device, Located)]
    ensures id in Registered(t, plan[id].gateway, plan[id].user)
  {
    hide Reaches, NextIn;
    t := PlanStep(plan, s, Connect(id, plan[id].gateway, plan[id].user, plan[id].device));
    t := PlanStep(plan, t, Join(id));
    t := PlanStep(plan, t, HSet(id));
  }

  /** The converse of LocationSound fails: of two sessions with the same user and device, the close of
      the one erases the entry of the other, which stays registered. */
  lemma LocatedYetMissing(plan: Plan, old_: nat, new_: nat) returns (s: State)
    requires old_ in plan && new_ in plan && old_ != new_ && plan[old_].user > 0
    requires (plan[old_].user, plan[old_].device) == (plan[new_].user, plan[new_].device)
    ensures Reaches(NextIn(plan), START, s) && InPhase(s, new_, Located)
    ensures KeyOf(s.sessions[new_]) !in s.location
    ensures new_ in Registered(s, plan[new_].gateway, plan[new_].user)
  {
    ReachesItself(NextIn(plan), START);
    hide Reaches, Registered, NextIn;
    s := ComeOnline(plan, START, old_);
    s := ComeOnline(plan, s, new_);
    var t := s;
    s := PlanStep(plan, t, HDel(old_));
    SameUsers(t, s, plan[new_].gateway, plan[new_].user);
  }

  lemma SameUsers(s: State, t: State, gateway: string, user: nat)
    requires s.users == t.users
    ensures Registered(s, gateway, user) == Registered(t, gateway, user)
  {
  }

  /** The exact condition, to be checked before anyone connects: every interleaving of these sessions
      keeps each located one's entry if and only if no two of them share a user and a device. */
  lemma FoundExact(plan: Plan)
    requires forall id <- plan :: plan[id].user > 0
    ensures AlwaysFound(plan) <==> OneEach(plan)
  {
    hide Reaches, NextIn;
    if OneEach(plan) {
      forall s: State | Reaches(NextIn(plan), START, s) ensures AllStand(s) {
        PlanInv(plan, s);
        StandIfAlone(plan, s);
      }
    } else {
      var a, b :| a in plan && b in plan && a != b
        && (plan[a].user, plan[a].device) == (plan[b].user, plan[b].device);
      var s := LocatedYetMissing(plan, a, b);
      assert !Stands(s, b);
    }
  }

  // ----- the handlers -----

  /** All gateways and Redis. `sessions` is bookkeeping the handlers do not read, except for a session's
      own user_id_ and device_; `history` is every command so far, in order. */
  class Cluster {
    var sessions: map<nat, Session>
    var users: map<(string, nat), set<nat>>
    var location: map<(nat, string), Entry>
    ghost var history: seq<Event>

    constructor ()
      ensures Now() == START && history == [] && Valid()
    {
      sessions, users, location, history := map[], map[], map[], [];
    }

    ghost function Now(): State
      reads this
    {
      State(sessions, users, location)
    }

    /** The maps are what the commands made of empty ones. */
    ghost predicate Valid()
      reads this
    {
      Exec(Next, START, history) == Some(Now())
    }

    lemma ValidReachable()
      requires Valid()
      ensures Reachable(Now())
    {
    }

    ghost method Record(e: Event, before: State)
      requires Exec(Next, START, history) == Some(before) && Enabled(before, e) && Now() == Apply(before, e)
      modifies this`history
      ensures Valid() && history == old(history) + [e]
    {
      ExecSnoc(Next, START, history, before, e);
      history := history + [e];
    }

    method Connect(id: nat, gateway: string, user: nat, device: string)
      requires Valid() && id !in sessions
      modifies this
      ensures Valid() && history == old(history) + [Event.Connect(id, gateway, user, device)]
      ensures Now() == Apply(old(Now()), Event.Connect(id, gateway, user, device))
    {
      ghost var before := Now();
      sessions := sessions[id := Session(gateway, user, device, New)];
      Record(Event.Connect(id, gateway, user, device), before);
    }

    /** `user_id_ = msg_uid` */
    method Login(id: nat, user: nat)
      requires Valid() && Enabled(Now(), Event.Login(id, user))
      modifies this
      ensures Valid() && history == old(history) + [Event.Login(id, user)]
      ensures Now() == Apply(old(Now()), Event.Login(id, user))
    {
      ghost var before := Now();
      sessions := sessions[id := sessions[id].(user := user)];
      Record(Event.Login(id, user), before);
    }

    /** ConnectionManager::Join on the session's gateway */
    method Join(id: nat)
      requires Valid() && Enabled(Now(), Event.Join(id))
      modifies this
      ensures Valid() && history == old(history) + [Event.Join(id)] && Now() == Apply(old(Now()), Event.Join(id))
    {
      ghost var before := Now();
      var x := sessions[id];
      var key := (x.gateway, x.user);
      users := users[key := (if key in users then users[key] else {}) + {id}];
      sessions := sessions[id := x.(phase := Joined)];
      Record(Event.Join(id), before);
    }

    /** HSET im:location:<user> <device> <gateway> */
    method HSet(id: nat)
      requires Valid() && Enabled(Now(), Event.HSet(id))
      modifies this
      ensures Valid() && history == old(history) + [Event.HSet(id)] && Now() == Apply(old(Now()), Event.HSet(id))
    {
      ghost var before := Now();
      var x := sessions[id];
      location := location[(x.user, x.device) := Entry(x.gateway, id)];
      sessions := sessions[id := x.(phase := Located)];
      Record(Event.HSet(id), before);
    }

    /** HDEL im:location:<user> <device> */
    method HDel(id: nat)
      requires Valid() && Enabled(Now(), Event.HDel(id))
      modifies this
      ensures Valid() && history == old(history) + [Event.HDel(id)] && Now() == Apply(old(Now()), Event.HDel(id))
    {
      ghost var before := Now();
      var x := sessions[id];
      location := location - {(x.user, x.device)};
      sessions := sessions[id := x.(phase := Erased)];
      Record(Event.HDel(id), before);
    }

    /** ConnectionManager::Leave */
    method Leave(id: nat)
      requires Valid() && Enabled(Now(), Event.Leave(id))
      modifies this
      ensures Valid() && history == old(history) + [Event.Leave(id)] && Now() == Apply(old(Now()), Event.Leave(id))
    {
      ghost var before := Now();
      var x := sessions[id];
      var key := (x.gateway, x.user);
      users := users[key := (if key in users then users[key] else {}) - {id}];
      sessions := sessions[id := x.(phase := Left)];
      Record(Event.Leave(id), before);
    }

    /** OnAccept: an authenticated session joins, then writes its location. */
    method OnAccept(id: nat, gateway: string, user: nat, device: string)
      requires Valid() && id !in sessions
      modifies this
      ensures Valid() && history == old(history) + [Event.Connect(id, gateway, user, device)]
        + if user > 0 then [Event.Join(id), Event.HSet(id)] else []
      ensures sessions == old(sessions)[id := Session(gateway, user, device, if user > 0 then Located else New)]
      ensures user == 0 ==> users == old(users)
      ensures user > 0 ==> users == old(users)[(gateway, user) :=
        (if (gateway, user) in old(users) then old(users)[(gateway, user)] else {}) + {id}]
      ensures location == if user > 0 then old(location)[(user, device) := Entry(gateway, id)] else old(location)
    {
      Connect(id, gateway, user, device);
      hide Exec;
      if user > 0 {
        Join(id);
        HSet(id);
      }
    }

    /** CMD_LOGIN_REQ with a positive id: only an anonymous session logs in, joins and writes. */
    method OnLogin(id: nat, user: nat)
      requires Valid() && id in sessions && user > 0
      requires sessions[id].user == 0 ==> sessions[id].phase.New?
      modifies this
      ensures Valid()
      ensures history == old(history)
        + if old(sessions[id].user) > 0 then [] else [Event.Login(id, user), Event.Join(id), Event.HSet(id)]
      ensures old(sessions[id].user) > 0 ==> Now() == old(Now())
      ensures old(sessions[id].user) == 0 ==>
        var x := old(sessions[id]);
        sessions == old(sessions)[id := Session(x.gateway, user, x.device, Located)]
        && users == old(users)[(x.gateway, user) :=
             (if (x.gateway, user) in old(users) then old(users)[(x.gateway, user)] else {}) + {id}]
        && location == old(location)[(user, x.device) := Entry(x.gateway, id)]
    {
      hide Exec;
      if sessions[id].user > 0 {
        return;
      }
      Login(id, user);
      Join(id);
      HSet(id);
    }

    /** OnRead with an error: HDel, then Leave. */
    method OnClosed(id: nat)
      requires Valid() && Enabled(Now(), Event.HDel(id))
      modifies this
      ensures Valid() && history == old(history) + [Event.HDel(id), Event.Leave(id)]
      ensures sessions == old(sessions)[id := old(sessions[id]).(phase := Left)]
      ensures var x := old(sessions[id]);
        location == old(location) - {(x.user, x.device)}
        && users == old(users)[(x.gateway, x.user) :=
             (if (x.gateway, x.user) in old(users) then old(users)[(x.gateway, x.user)] else {}) - {id}]
    {
      hide Exec;
      HDel(id);
      Leave(id);
    }
  }
}
