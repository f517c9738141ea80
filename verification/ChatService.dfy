// SendMessage, SyncMessages and AcceptFriend as the services run them, over
// the shared tables. Each statement is one event of the storage system, so a
// call leaves the tables in a state some interleaving-free run reaches.

module ChatService {
  import opened Prelude
  import opened Runs
  import opened Inbox
  import Store
  import Timeline

  datatype Request = Request(senderId: int, receiverId: int, groupId: int, kind: int)

  datatype Reply = Reply(success: bool, msgId: nat, seqId: nat)

  /** The master database and the Redis counters. `history` records the statements run so far;
      `sends` and `drawn` are the system's bookkeeping of running sends. */
  class Tables {
    var log: seq<Store.Entry>
    var counters: map<int, nat>
    var lastMsgId: nat
    var relations: map<(int, int), int>
    ghost var sends: map<nat, Store.Send>
    ghost var drawn: map<(int, nat), nat>
    ghost var history: seq<Store.Event>

    constructor ()
      ensures Valid() && log == [] && counters == map[] && lastMsgId == 0 && relations == map[]
    {
      log, counters, lastMsgId, relations := [], map[], 0, map[];
      sends, drawn, history := map[], map[], [];
    }

    ghost function State(): Store.State
      reads this
    {
      Store.State(log, counters, lastMsgId, relations, sends, drawn)
    }

    /** The tables are what their history makes of empty ones. */
    ghost predicate Valid()
      reads this
    {
      Exec(Store.Next, Store.EMPTY, history) == Some(State())
    }

    /** Everything proved of every run holds of the tables. */
    lemma ValidReachable()
      requires Valid()
      ensures Store.Reachable(State())
    {
    }

    ghost method Record(e: Store.Event, before: Store.State)
      requires Exec(Store.Next, Store.EMPTY, history) == Some(before) && Store.Enabled(before, e)
      requires State() == Store.Apply(before, e)
      modifies this`history
      ensures history == old(history) + [e] && Valid()
    {
      ExecSnoc(Store.Next, Store.EMPTY, history, before, e);
      history := history + [e];
    }

    /** INSERT INTO im_message_body */
    method InsertBody(req: Request) returns (msgId: nat)
      requires Valid()
      modifies this
      ensures Valid() && msgId == old(lastMsgId) + 1
      ensures State() == Store.AfterStoreBody(old(State()), req.senderId, req.receiverId, req.groupId, req.kind)
      ensures history == old(history) + [Store.StoreBody(req.senderId, req.receiverId, req.groupId, req.kind)]
    {
      ghost var before := State();
      msgId := lastMsgId + 1;
      lastMsgId := msgId;
      log := log + [Store.BodyRow(msgId, Store.Body(req.senderId, req.groupId, req.kind))];
      sends := sends[msgId := Store.Send(req.senderId, req.receiverId, req.groupId, req.kind, Store.Stored)];
      hide Exec;
      Record(Store.StoreBody(req.senderId, req.receiverId, req.groupId, req.kind), before);
    }

    /** INCR im:seq:<user>, for the next recipient of message m. */
    method Incr(user: int, ghost m: nat) returns (n: nat)
      requires Valid() && Store.Enabled(State(), Store.Incr(m))
      requires sends[m].stage.targets[|sends[m].stage.seqs|] == user
      modifies this
      ensures Valid() && State() == Store.AfterIncr(old(State()), m)
      ensures n == old(Store.Counter(State(), user)) + 1
      ensures history == old(history) + [Store.Incr(m)]
    {
      ghost var before := State();
      n := (if user in counters then counters[user] else 0) + 1;
      counters := counters[user := n];
      drawn := drawn[(user, n) := m];
      sends := sends[m := sends[m].(stage := sends[m].stage.(seqs := sends[m].stage.seqs + [n]))];
      hide Exec;
      Record(Store.Incr(m), before);
    }

    /** The (batch) INSERT INTO im_message_index, atomic: all rows or, when it fails, none. */
    method InsertIndex(rows: seq<Row>, fails: bool, ghost m: nat)
      requires Valid() && Store.Enabled(State(), Store.InsertIndex(m)) && rows == Store.RowsFor(m, sends[m])
      modifies this
      ensures Valid() && sends == old(sends) - {m} && drawn == old(drawn)
      ensures counters == old(counters) && relations == old(relations) && lastMsgId == old(lastMsgId)
      ensures log == if fails then old(log) else old(log) + [Store.IndexRows(rows)]
      ensures history == old(history) + [if fails then Store.Abandon(m) else Store.InsertIndex(m)]
    {
      ghost var before := State();
      if !fails {
        log := log + [Store.IndexRows(rows)];
      }
      sends := sends - {m};
      hide Exec, Store.RowsFor;
      Record(if fails then Store.Abandon(m) else Store.InsertIndex(m), before);
    }

    /** The read-only statements decide how a send goes on; only the bookkeeping moves. */
    ghost method Decide(e: Store.Event)
      requires Valid() && Store.Enabled(State(), e) && (e.CheckFriend? || e.ReadMembers? || e.Abandon?)
      modifies this`sends, this`history
      ensures Valid() && State() == Store.Apply(old(State()), e) && history == old(history) + [e]
    {
      ghost var before := State();
      sends := Store.Apply(before, e).sends;
      hide Exec;
      Record(e, before);
    }

    /** INSERT IGNORE INTO im_relation, both directions in one statement. */
    method InsertRelations(a: int, b: int)
      requires Valid()
      modifies this
      ensures Valid() && log == old(log) && counters == old(counters) && lastMsgId == old(lastMsgId)
      ensures sends == old(sends) && drawn == old(drawn)
      ensures relations == Store.InsertIgnore(Store.InsertIgnore(old(relations), a, b), b, a)
      ensures history == old(history) + [Store.Accept(a, b)]
    {
      ghost var before := State();
      relations := Store.InsertIgnore(Store.InsertIgnore(relations, a, b), b, a);
      hide Exec;
      Record(Store.Accept(a, b), before);
    }
  }

  /** What the calls into MySQL do to one SendMessage: None is a failed member query. */
  datatype Weather = Weather(bodyFails: bool, relationReadable: bool, members: Option<seq<int>>, indexFails: bool)

  function Members(w: Weather): seq<int> {
    if w.members.Some? then w.members.value else []
  }

  /** One row per member, under the number after that member's counter. */
  ghost predicate IsBatch(rows: seq<Row>, members: seq<int>, groupId: int, msgId: nat, counters: map<int, nat>) {
    |rows| == |members|
    && forall k | 0 <= k < |members| ::
         rows[k] == Row(members[k], groupId, msgId, (if members[k] in counters then counters[members[k]] else 0) + 1)
  }

  /** Exactly these users' counters have moved, each by one; an absent one from 0. */
  ghost predicate Bumped(before: map<int, nat>, after: map<int, nat>, users: seq<int>) {
    after.Keys == before.Keys + (set u <- users)
    && forall u <- after :: after[u] == (if u in before then before[u] else 0) + if u in users then 1 else 0
  }

  /** What a single-chat request does once its body is stored under msgId: a stranger's message of a type
      other than 3 (SYSTEM) and 4 (FRIEND_REQ) is refused, any other is numbered and indexed. */
  ghost predicate SentSingle(req: Request, w: Weather, msgId: nat, before: Store.State, after: Store.State, reply: Reply) {
    var friends := (req.senderId, req.receiverId);
    if req.kind != 3 && req.kind != 4
       && !(w.relationReadable && friends in before.relations && before.relations[friends] == 1)
    then reply == Reply(false, 0, 0) && after.log == before.log && after.counters == before.counters
    else Numbered(req, w, msgId, before, after, reply)
  }

  ghost predicate Numbered(req: Request, w: Weather, msgId: nat, before: Store.State, after: Store.State, reply: Reply) {
    var to := req.receiverId;
    var n := (if to in before.counters then before.counters[to] else 0) + 1;
    after.counters == before.counters[to := n]
    && if w.indexFails then reply == Reply(false, 0, 0) && after.log == before.log
       else reply == Reply(true, msgId, n) && after.log == before.log + [Store.IndexRows([Row(to, req.senderId, msgId, n)])]
  }

  /** A group request: one row per member under its next number, unless the batch insert failed, which
      the reply does not show; nothing when the member list is empty or unreadable. */
  ghost predicate SentGroup(req: Request, w: Weather, msgId: nat, before: Store.State, after: Store.State, reply: Reply) {
    reply == Reply(true, msgId, 0)
    && if w.members.None? || w.members.value == []
       then after.log == before.log && after.counters == before.counters
       else Bumped(before.counters, after.counters, w.members.value) && Indexed(req, w, msgId, before, after)
  }

  ghost predicate Indexed(req: Request, w: Weather, msgId: nat, before: Store.State, after: Store.State)
    requires w.members.Some?
  {
    if w.indexFails then after.log == before.log
    else exists rows ::
      IsBatch(rows, w.members.value, req.groupId, msgId, before.counters) && after.log == before.log + [Store.IndexRows(rows)]
  }

  lemma BumpOne(start: map<int, nat>, before: map<int, nat>, members: seq<int>, i: nat)
    requires i < |members| && members[i] !in members[..i] && Bumped(start, before, members[..i])
    ensures Bumped(start, before[members[i] := Store.CounterIn(before, members[i]) + 1], members[..i + 1])
    ensures Store.CounterIn(before, members[i]) == Store.CounterIn(start, members[i])
  {
    assert members[..i + 1] == members[..i] + [members[i]];
  }

  lemma NewIdUnused(t: Store.State)
    requires Store.Reachable(t)
    ensures t.lastMsgId + 1 !in t.sends
  {
    Store.ReachableInv(t);
  }

  /** The members' loop before turn i: i numbers drawn, one per member, and nothing else changed. */
  ghost predicate Drawn(start: Store.State, t: Store.State, msgId: nat, groupId: int, members: seq<int>, i: nat,
                        seqs: seq<nat>, batch: seq<Row>) {
    i <= |members| && |batch| == i == |seqs| && msgId in start.sends
    && start.sends[msgId].stage == Store.Numbering(members, [])
    && t.log == start.log && t.relations == start.relations && t.lastMsgId == start.lastMsgId
    && t.sends == start.sends[msgId := start.sends[msgId].(stage := Store.Numbering(members, seqs))]
    && (forall k | 0 <= k < i :: seqs[k] == Store.CounterIn(start.counters, members[k]) + 1)
    && (forall k | 0 <= k < i :: batch[k] == Row(members[k], groupId, msgId, seqs[k]))
    && Bumped(start.counters, t.counters, members[..i])
  }

  lemma NextDraw(start: Store.State, t: Store.State, msgId: nat, groupId: int, members: seq<int>, i: nat,
                 seqs: seq<nat>, batch: seq<Row>)
    requires Drawn(start, t, msgId, groupId, members, i, seqs, batch) && i < |members|
    ensures Store.Enabled(t, Store.Incr(msgId)) && t.sends[msgId].stage.targets[|t.sends[msgId].stage.seqs|] == members[i]
  {
    hide Bumped, Store.CounterIn;
  }

  lemma DrawOne(start: Store.State, t: Store.State, msgId: nat, groupId: int, members: seq<int>, i: nat,
                seqs: seq<nat>, batch: seq<Row>, seqId: nat)
    requires Distinct(members) && i < |members| && Drawn(start, t, msgId, groupId, members, i, seqs, batch)
    requires Store.Enabled(t, Store.Incr(msgId)) && seqId == Store.Counter(t, members[i]) + 1
    ensures Drawn(start, Store.AfterIncr(t, msgId), msgId, groupId, members, i + 1, seqs + [seqId],
                  batch + [Row(members[i], groupId, msgId, seqId)])
  {
    NotYet(members, i);
    BumpOne(start.counters, t.counters, members, i);
    hide Bumped, Store.CounterIn, Distinct;
    NextRow(start.counters, msgId, groupId, members, i, seqs, batch, seqId);
    Incremented(t, msgId, members, seqs);
    hide Store.Enabled, Store.AfterIncr;
  }

  lemma Incremented(t: Store.State, m: nat, members: seq<int>, seqs: seq<nat>)
    requires Store.Enabled(t, Store.Incr(m)) && t.sends[m].stage == Store.Numbering(members, seqs)
    ensures var user := members[|seqs|];
      var n := Store.Counter(t, user) + 1;
      var u := Store.AfterIncr(t, m);
      u.counters == t.counters[user := n] && u.log == t.log && u.relations == t.relations && u.lastMsgId == t.lastMsgId
      && u.sends == t.sends[m := t.sends[m].(stage := Store.Numbering(members, seqs + [n]))]
  {
    hide Store.Counter;
  }

  /** One more number and row in the batch. */
  lemma NextRow(counters: map<int, nat>, msgId: nat, groupId: int, members: seq<int>, i: nat,
                seqs: seq<nat>, batch: seq<Row>, seqId: nat)
    requires |batch| == i == |seqs| && i < |members| && seqId == Store.CounterIn(counters, members[i]) + 1
    requires forall k | 0 <= k < i :: seqs[k] == Store.CounterIn(counters, members[k]) + 1
    requires forall k | 0 <= k < i :: batch[k] == Row(members[k], groupId, msgId, seqs[k])
    ensures var seqs', batch' := seqs + [seqId], batch + [Row(members[i], groupId, msgId, seqId)];
      (forall k | 0 <= k < i + 1 :: seqs'[k] == Store.CounterIn(counters, members[k]) + 1)
      && forall k | 0 <= k < i + 1 :: batch'[k] == Row(members[k], groupId, msgId, seqs'[k])
  {
  }

  lemma AllDrawn(start: Store.State, t: Store.State, msgId: nat, groupId: int, members: seq<int>,
                 seqs: seq<nat>, batch: seq<Row>)
    requires Drawn(start, t, msgId, groupId, members, |members|, seqs, batch)
    requires groupId > 0 && start.sends[msgId].groupId == groupId
    ensures t.log == start.log && t.relations == start.relations && t.lastMsgId == start.lastMsgId
    ensures t.sends - {msgId} == start.sends - {msgId} && Bumped(start.counters, t.counters, members)
    ensures IsBatch(batch, members, groupId, msgId, start.counters)
    ensures Store.Enabled(t, Store.InsertIndex(msgId)) && batch == Store.RowsFor(msgId, t.sends[msgId])
  {
    assert members[..|members|] == members;
    hide Bumped;
    BatchAgrees(batch, members, seqs, groupId, msgId, start.counters, t.sends[msgId]);
  }

  /** The tables with the request's body in them. */
  ghost function Stored(before: Store.State, req: Request): Store.State {
    before.(log := before.log + [Store.BodyRow(before.lastMsgId + 1, Store.Body(req.senderId, req.groupId, req.kind))],
            lastMsgId := before.lastMsgId + 1)
  }

  class ChatServer {
    const tables: Tables

    constructor (tables: Tables)
      ensures this.tables == tables
    {
      this.tables := tables;
    }

    /** The members' loop of a group send: one INCR and one VALUES tuple each. */
    method DrawNumbers(msgId: nat, groupId: int, members: seq<int>) returns (batch: seq<Row>)
      requires tables.Valid() && groupId > 0 && Distinct(members)
      requires msgId in tables.sends && tables.sends[msgId].groupId == groupId
      requires tables.sends[msgId].stage == Store.Numbering(members, [])
      modifies tables
      ensures tables.Valid() && old(tables.history) <= tables.history
      ensures tables.relations == old(tables.relations) && tables.lastMsgId == old(tables.lastMsgId)
      ensures tables.log == old(tables.log)
      ensures IsBatch(batch, members, groupId, msgId, old(tables.counters))
      ensures Bumped(old(tables.counters), tables.counters, members)
      ensures tables.sends - {msgId} == old(tables.sends) - {msgId}
      ensures Store.Enabled(tables.State(), Store.InsertIndex(msgId)) && batch == Store.RowsFor(msgId, tables.sends[msgId])
    {
      ghost var start := tables.State();
      batch := [];
      ghost var seqs: seq<nat> := [];
      assert members[..0] == [];
      for i := 0 to |members|
        invariant tables.Valid() && old(tables.history) <= tables.history
        invariant Drawn(start, tables.State(), msgId, groupId, members, i, seqs, batch)
      {
        ghost var before := tables.State();
        NextDraw(start, before, msgId, groupId, members, i, seqs, batch);
        hide Exec, Drawn, Distinct, Store.AfterIncr, Store.Enabled;
        var seqId := tables.Incr(members[i], msgId);
        DrawOne(start, before, msgId, groupId, members, i, seqs, batch, seqId);
        batch := batch + [Row(members[i], groupId, msgId, seqId)];
        seqs := seqs + [seqId];
      }
      AllDrawn(start, tables.State(), msgId, groupId, members, seqs, batch);
      hide Exec, IsBatch, Bumped, Store.RowsFor, Drawn;
    }

    /** The group branch: the loop, then the batch insert, whose failure the code only logs. */
    method FanOut(msgId: nat, groupId: int, members: seq<int>, indexFails: bool)
      requires tables.Valid() && groupId > 0 && Distinct(members)
      requires msgId in tables.sends && tables.sends[msgId].groupId == groupId
      requires tables.sends[msgId].stage == Store.Numbering(members, [])
      modifies tables
      ensures tables.Valid() && old(tables.history) <= tables.history
      ensures tables.relations == old(tables.relations) && tables.lastMsgId == old(tables.lastMsgId)
      ensures indexFails ==> tables.log == old(tables.log)
      ensures !indexFails ==> exists rows ::
        IsBatch(rows, members, groupId, msgId, old(tables.counters)) && tables.log == old(tables.log) + [Store.IndexRows(rows)]
      ensures Bumped(old(tables.counters), tables.counters, members)
      ensures tables.sends == old(tables.sends) - {msgId}
    {
      hide Exec, IsBatch, Bumped, Store.RowsFor, Store.Enabled;
      var batch := DrawNumbers(msgId, groupId, members);
      tables.InsertIndex(batch, indexFails, msgId);
    }

    /** The whole call. The reply, the log and the counters are spelled out for every path. */
    method SendMessage(req: Request, w: Weather) returns (reply: Reply)
      requires tables.Valid() && Distinct(Members(w))
      modifies tables
      ensures tables.Valid() && old(tables.history) <= tables.history
      ensures tables.relations == old(tables.relations) && tables.sends == old(tables.sends)
      ensures w.bodyFails ==> reply == Reply(false, 0, 0) && tables.State() == old(tables.State())
      ensures !w.bodyFails ==> tables.lastMsgId == old(tables.lastMsgId) + 1
      ensures !w.bodyFails && req.groupId > 0 ==>
        SentGroup(req, w, tables.lastMsgId, Stored(old(tables.State()), req), tables.State(), reply)
      ensures var friends := (req.senderId, req.receiverId);
        !w.bodyFails && req.groupId <= 0 && req.kind !in {3, 4}
        && !(w.relationReadable && friends in tables.relations && tables.relations[friends] == 1)
        ==>
          reply == Reply(false, 0, 0) && tables.counters == old(tables.counters)
          && tables.log == old(tables.log)
             + [Store.BodyRow(tables.lastMsgId, Store.Body(req.senderId, req.groupId, req.kind))]
      ensures var friends := (req.senderId, req.receiverId);
        !w.bodyFails && req.groupId <= 0
        && (req.kind in {3, 4} || (w.relationReadable && friends in tables.relations && tables.relations[friends] == 1))
        ==>
          var to, m, before := req.receiverId, tables.lastMsgId, old(tables.counters);
          var n := (if to in before then before[to] else 0) + 1;
          tables.counters == before[to := n]
          && reply == (if w.indexFails then Reply(false, 0, 0) else Reply(true, m, n))
          && tables.log == old(tables.log) + [Store.BodyRow(m, Store.Body(req.senderId, req.groupId, req.kind))]
             + if w.indexFails then [] else [Store.IndexRows([Row(to, req.senderId, m, n)])]
    {
      if w.bodyFails {
        return Reply(false, 0, 0);
      }
      ghost var start := tables.State();
      NewIdUnused(start);
      var msgId := tables.InsertBody(req);
      assert tables.log == Stored(start, req).log;
      hide Exec, SentGroup;
      if req.groupId > 0 {
        reply := SendGroup(req, w, msgId);
      } else {
        reply := SendSingle(req, w, msgId);
      }
      assert tables.sends == start.sends;
    }

    method SendGroup(req: Request, w: Weather, msgId: nat) returns (reply: Reply)
      requires tables.Valid() && req.groupId > 0 && msgId in tables.sends && Distinct(Members(w))
      requires tables.sends[msgId] == Store.Send(req.senderId, req.receiverId, req.groupId, req.kind, Store.Stored)
      modifies tables
      ensures tables.Valid() && old(tables.history) <= tables.history
      ensures tables.relations == old(tables.relations) && tables.lastMsgId == old(tables.lastMsgId)
      ensures tables.sends == old(tables.sends) - {msgId}
      ensures SentGroup(req, w, msgId, old(tables.State()), tables.State(), reply)
    {
      var members := Members(w);
      tables.Decide(Store.ReadMembers(msgId, members));
      hide Exec, IsBatch, Distinct, Bumped;
      if members != [] {
        FanOut(msgId, req.groupId, members, w.indexFails);
      }
      reply := Reply(true, msgId, 0);
    }

    /** The single-chat branch: friendship on the master, INCR, one index row. */
    method SendSingle(req: Request, w: Weather, msgId: nat) returns (reply: Reply)
      requires tables.Valid() && req.groupId <= 0 && msgId in tables.sends
      requires tables.sends[msgId] == Store.Send(req.senderId, req.receiverId, req.groupId, req.kind, Store.Stored)
      modifies tables
      ensures tables.Valid() && old(tables.history) <= tables.history
      ensures tables.relations == old(tables.relations) && tables.lastMsgId == old(tables.lastMsgId)
      ensures tables.sends == old(tables.sends) - {msgId}
      ensures SentSingle(req, w, msgId, old(tables.State()), tables.State(), reply)
    {
      var isFriend := w.relationReadable && Store.Related(tables.relations, req.senderId, req.receiverId);
      if !isFriend && req.kind != Store.SYSTEM && req.kind != Store.FRIEND_REQ {
        tables.Decide(Store.Abandon(msgId));
        return Reply(false, 0, 0);
      }
      tables.Decide(Store.CheckFriend(msgId));
      hide Exec;
      var seqId := InsertOne(req, msgId, w.indexFails);
      reply := if w.indexFails then Reply(false, 0, 0) else Reply(true, msgId, seqId);
    }

    method InsertOne(req: Request, msgId: nat, indexFails: bool) returns (seqId: nat)
      requires tables.Valid() && req.groupId <= 0 && msgId in tables.sends
      requires tables.sends[msgId]
            == Store.Send(req.senderId, req.receiverId, req.groupId, req.kind, Store.Numbering([req.receiverId], []))
      modifies tables
      ensures tables.Valid() && old(tables.history) <= tables.history
      ensures tables.relations == old(tables.relations) && tables.lastMsgId == old(tables.lastMsgId)
      ensures tables.sends == old(tables.sends) - {msgId}
      ensures seqId == (if req.receiverId in old(tables.counters) then old(tables.counters)[req.receiverId] else 0) + 1
      ensures tables.counters == old(tables.counters)[req.receiverId := seqId]
      ensures tables.log == old(tables.log) + if indexFails then []
              else [Store.IndexRows([Row(req.receiverId, req.senderId, msgId, seqId)])]
    {
      seqId := tables.Incr(req.receiverId, msgId);
      var row := Row(req.receiverId, req.senderId, msgId, seqId);
      assert [row] == Store.RowsFor(msgId, tables.sends[msgId]);
      hide Store.RowsFor, Exec;
      tables.InsertIndex([row], indexFails, msgId);
    }
  }

  lemma BatchAgrees(batch: seq<Row>, members: seq<int>, seqs: seq<nat>, groupId: int, msgId: nat,
                    counters: map<int, nat>, send: Store.Send)
    requires |batch| == |members| == |seqs| && groupId > 0
    requires send.stage == Store.Numbering(members, seqs) && send.groupId == groupId
    requires forall k | 0 <= k < |members| :: seqs[k] == Store.CounterIn(counters, members[k]) + 1
    requires forall k | 0 <= k < |members| :: batch[k] == Row(members[k], groupId, msgId, seqs[k])
    ensures IsBatch(batch, members, groupId, msgId, counters) && batch == Store.RowsFor(msgId, send)
  {
  }

  lemma NotYet(members: seq<int>, i: nat)
    requires Distinct(members) && i < |members|
    ensures members[i] !in members[..i]
  {
  }

  // ----- reading -----

  /** A message of a sync reply: the index row joined with its body. */
  datatype Item = Item(row: Row, body: Store.Body)

  /** How MySQL took the query; without a stored result the reply is successful and empty, max_seq 0. */
  datatype Query = Fails | NoResult | Answers

  /** QueryFailed sets success = false; converting a NULL column of a missing body throws. */
  datatype SyncReply = Synced(msgs: seq<Item>, maxSeq: int) | QueryFailed | NullColumn

  function Selected(log: seq<Store.Entry>, userId: int, localSeq: int, limit: int, reverse: bool): seq<Row> {
    var inbox := InboxOf(Store.Rows(log), userId);
    if reverse then LatestPage(inbox, Limit(limit)) else Page(inbox, localSeq, Limit(limit))
  }

  ghost predicate Joins(log: seq<Store.Entry>, msgs: seq<Item>, rows: seq<Row>) {
    |msgs| == |rows|
    && forall i | 0 <= i < |rows| :: msgs[i].row == rows[i] && Store.BodyOf(log, rows[i].msgId) == Some(msgs[i].body)
  }

  /** Each message is an index row of the user's, with the body stored under its id. */
  ghost predicate OwnMessages(log: seq<Store.Entry>, userId: int, msgs: seq<Item>) {
    forall m <- msgs :: m.row in Store.Rows(log) && m.row.owner == userId && Store.BodyOf(log, m.row.msgId) == Some(m.body)
  }

  ghost predicate Returned(msgs: seq<Item>, r: Row) {
    exists m <- msgs :: m.row == r
  }

  /** The user's lowest-numbered rows above local_seq, in order: at most n, and none left out but above a
      full page. */
  ghost predicate ForwardAnswer(log: seq<Store.Entry>, userId: int, localSeq: int, n: nat, msgs: seq<Item>) {
    |msgs| <= n
    && (forall i, j | 0 <= i < j < |msgs| :: msgs[i].row.seqId < msgs[j].row.seqId)
    && (forall m <- msgs :: m.row.seqId > localSeq)
    && forall r <- Store.Rows(log) | r.owner == userId && r.seqId > localSeq ::
         Returned(msgs, r) || (|msgs| == n && forall m <- msgs :: m.row.seqId < r.seqId)
  }

  /** The user's highest-numbered rows, highest first: at most n, and none left out but below a full page. */
  ghost predicate ReverseAnswer(log: seq<Store.Entry>, userId: int, n: nat, msgs: seq<Item>) {
    |msgs| <= n
    && (forall i, j | 0 <= i < j < |msgs| :: msgs[i].row.seqId > msgs[j].row.seqId)
    && forall r <- Store.Rows(log) | r.owner == userId ::
         Returned(msgs, r) || (|msgs| == n && forall m <- msgs :: m.row.seqId > r.seqId)
  }

  /** max_seq: the largest of local_seq and the numbers returned. */
  ghost predicate IsMax(maxSeq: int, localSeq: int, msgs: seq<Item>) {
    maxSeq >= localSeq && (forall m <- msgs :: m.row.seqId <= maxSeq)
    && (maxSeq == localSeq || exists m <- msgs :: m.row.seqId == maxSeq)
  }

  /** SyncMessages on a replica that holds `log`. */
  method SyncMessages(log: seq<Store.Entry>, userId: int, localSeq: int, limit: int, reverse: bool, query: Query)
    returns (reply: SyncReply)
    ensures query.Fails? <==> reply.QueryFailed?
    ensures query.NoResult? ==> reply == Synced([], 0)
    ensures Store.Joined(log) && query.Answers? ==> reply.Synced?
    ensures reply.Synced? && query.Answers? ==>
      OwnMessages(log, userId, reply.msgs) && IsMax(reply.maxSeq, localSeq, reply.msgs)
    ensures reply.Synced? && query.Answers? && UniqueKey(Store.Rows(log)) && !reverse ==>
      ForwardAnswer(log, userId, localSeq, if limit <= 0 then 10 else limit, reply.msgs)
    ensures reply.Synced? && query.Answers? && UniqueKey(Store.Rows(log)) && reverse ==>
      ReverseAnswer(log, userId, if limit <= 0 then 10 else limit, reply.msgs)
    ensures reply.Synced? && query.Answers? && !reverse ==>
      var y := Timeline.Reply(log, userId, Timeline.Asked(localSeq, Limit(limit)), |log|);
      Joins(log, reply.msgs, y.rows) && reply.maxSeq == y.maxSeq
  {
    if query.Fails? {
      return QueryFailed;
    }
    if query.NoResult? {
      return Synced([], 0);
    }
    SelectedContents(log, userId, localSeq, limit, reverse);
    TimelineReply(log, userId, localSeq, limit);
    hide Selected, Joins, MaxSeq, Store.Rows, Store.BodyOf, Timeline.Reply;
    hide OwnMessages, IsMax, ForwardAnswer, ReverseAnswer, UniqueKey;
    reply := FetchRows(log, Selected(log, userId, localSeq, limit, reverse), localSeq);
    if reply.Synced? {
      AnswerIsOwn(log, userId, localSeq, limit, reverse, reply.msgs);
      if UniqueKey(Store.Rows(log)) {
        if reverse {
          ReverseIs(log, userId, localSeq, limit, reply.msgs);
        } else {
          ForwardIs(log, userId, localSeq, limit, reply.msgs);
        }
      }
    }
  }

  lemma AnswerIsOwn(log: seq<Store.Entry>, userId: int, localSeq: int, limit: int, reverse: bool, msgs: seq<Item>)
    requires Joins(log, msgs, Selected(log, userId, localSeq, limit, reverse))
    ensures OwnMessages(log, userId, msgs)
    ensures IsMax(MaxSeq(Selected(log, userId, localSeq, limit, reverse), localSeq), localSeq, msgs)
  {
    var rows := Selected(log, userId, localSeq, limit, reverse);
    SelectedContents(log, userId, localSeq, limit, reverse);
    MaxSpec(rows, localSeq);
    hide Selected, MaxSeq, Store.Rows, Store.BodyOf;
    forall m | m in msgs ensures m.row in rows && Store.BodyOf(log, m.row.msgId) == Some(m.body) {
      var i :| 0 <= i < |msgs| && msgs[i] == m;
      assert rows[i] == m.row;
    }
    if r :| r in rows && r.seqId == MaxSeq(rows, localSeq) {
      JoinedRow(log, msgs, rows, r);
    }
  }

  lemma JoinedRow(log: seq<Store.Entry>, msgs: seq<Item>, rows: seq<Row>, r: Row)
    requires Joins(log, msgs, rows) && r in rows
    ensures Returned(msgs, r)
  {
    var i :| 0 <= i < |rows| && rows[i] == r;
    assert msgs[i].row == r && msgs[i] in msgs;
  }

  lemma ForwardIs(log: seq<Store.Entry>, userId: int, localSeq: int, limit: int, msgs: seq<Item>)
    requires UniqueKey(Store.Rows(log)) && Joins(log, msgs, Selected(log, userId, localSeq, limit, false))
    ensures ForwardAnswer(log, userId, localSeq, if limit <= 0 then 10 else limit, msgs)
  {
    var all, inbox, n := Store.Rows(log), InboxOf(Store.Rows(log), userId), if limit <= 0 then 10 else limit;
    var rows := Page(inbox, localSeq, n);
    assert Selected(log, userId, localSeq, limit, false) == rows;
    InboxAscending(all, userId);
    PageSpec(inbox, localSeq, n);
    hide Selected, Page, InboxOf, Store.Rows, Store.BodyOf, UniqueKey, Returned;
    RowsOfMsgs(log, msgs, rows);
    forall r | r in all && r.owner == userId && r.seqId > localSeq
      ensures Returned(msgs, r) || (|msgs| == n && forall m <- msgs :: m.row.seqId < r.seqId)
    {
      InboxContents(all, userId, r);
      if r in rows {
        JoinedRow(log, msgs, rows, r);
      }
    }
  }

  lemma RowsOfMsgs(log: seq<Store.Entry>, msgs: seq<Item>, rows: seq<Row>)
    requires Joins(log, msgs, rows)
    ensures |msgs| == |rows| && (forall i | 0 <= i < |rows| :: msgs[i].row == rows[i])
    ensures forall m <- msgs :: m.row in rows
  {
    hide Store.BodyOf;
    forall m | m in msgs ensures m.row in rows {
      var i :| 0 <= i < |msgs| && msgs[i] == m;
      assert rows[i] == m.row;
    }
  }

  lemma ReverseIs(log: seq<Store.Entry>, userId: int, localSeq: int, limit: int, msgs: seq<Item>)
    requires UniqueKey(Store.Rows(log)) && Joins(log, msgs, Selected(log, userId, localSeq, limit, true))
    ensures ReverseAnswer(log, userId, if limit <= 0 then 10 else limit, msgs)
  {
    var all, inbox, n := Store.Rows(log), InboxOf(Store.Rows(log), userId), if limit <= 0 then 10 else limit;
    var rows := LatestPage(inbox, n);
    assert Selected(log, userId, localSeq, limit, true) == rows;
    InboxAscending(all, userId);
    LatestSpec(inbox, n);
    hide Selected, LatestPage, InboxOf, Store.Rows, Store.BodyOf, UniqueKey, Returned;
    RowsOfMsgs(log, msgs, rows);
    forall r | r in all && r.owner == userId
      ensures Returned(msgs, r) || (|msgs| == n && forall m <- msgs :: m.row.seqId > r.seqId)
    {
      InboxContents(all, userId, r);
      if r in rows {
        JoinedRow(log, msgs, rows, r);
      }
    }
  }

  /** The rows and max_seq a forward query selects are the timeline system's reply. */
  lemma TimelineReply(log: seq<Store.Entry>, userId: int, localSeq: int, limit: int)
    ensures var y := Timeline.Reply(log, userId, Timeline.Asked(localSeq, Limit(limit)), |log|);
      var rows := Selected(log, userId, localSeq, limit, false);
      y.rows == rows && y.maxSeq == MaxSeq(rows, localSeq)
  {
    hide Page, InboxOf, MaxSeq, Limit;
    assert log[..|log|] == log;
  }

  /** The row loop: one message per row, and the running maximum. */
  method FetchRows(log: seq<Store.Entry>, rows: seq<Row>, localSeq: int) returns (reply: SyncReply)
    ensures !reply.QueryFailed?
    ensures (forall r <- rows :: Store.BodyOf(log, r.msgId).Some?) ==> reply.Synced?
    ensures reply.Synced? ==> Joins(log, reply.msgs, rows) && reply.maxSeq == MaxSeq(rows, localSeq)
  {
    var msgs: seq<Item>, maxSeqFound := [], localSeq;
    for i := 0 to |rows|
      invariant Joins(log, msgs, rows[..i])
      invariant maxSeqFound == MaxSeq(rows[..i], localSeq)
    {
      hide MaxSeq, Joins, Store.BodyOf;
      var body := Store.BodyOf(log, rows[i].msgId);
      if body.None? {
        return NullColumn;
      }
      JoinsSnoc(log, msgs, rows, i, body.value);
      msgs := msgs + [Item(rows[i], body.value)];
      MaxSnoc(rows, i, localSeq);
      if rows[i].seqId > maxSeqFound {
        maxSeqFound := rows[i].seqId;
      }
    }
    assert rows[..|rows|] == rows;
    hide MaxSeq, Joins;
    reply := Synced(msgs, maxSeqFound);
  }

  lemma JoinsSnoc(log: seq<Store.Entry>, msgs: seq<Item>, rows: seq<Row>, i: nat, body: Store.Body)
    requires i < |rows| && Joins(log, msgs, rows[..i]) && Store.BodyOf(log, rows[i].msgId) == Some(body)
    ensures Joins(log, msgs + [Item(rows[i], body)], rows[..i + 1])
  {
    hide Store.BodyOf;
  }

  lemma MaxSnoc(rows: seq<Row>, i: nat, from: int)
    requires i < |rows|
    ensures var m := MaxSeq(rows[..i], from);
      MaxSeq(rows[..i + 1], from) == if rows[i].seqId > m then rows[i].seqId else m
  {
    assert rows[..i + 1][..i] == rows[..i];
  }

  lemma SelectedContents(log: seq<Store.Entry>, userId: int, localSeq: int, limit: int, reverse: bool)
    ensures forall r <- Selected(log, userId, localSeq, limit, reverse) :: r in Store.Rows(log) && r.owner == userId
    ensures Store.Joined(log) ==>
      forall r <- Selected(log, userId, localSeq, limit, reverse) :: Store.BodyOf(log, r.msgId).Some?
  {
    var inbox := InboxOf(Store.Rows(log), userId);
    forall r | r in Selected(log, userId, localSeq, limit, reverse) ensures r in Store.Rows(log) && r.owner == userId {
      if reverse {
        ReversedContents(inbox, r);
      } else {
        AboveContents(inbox, localSeq, r);
      }
      InboxContents(Store.Rows(log), userId, r);
    }
  }

  lemma {:induction false} ReversedContents(s: seq<Row>, r: Row)
    ensures r in Reversed(s) <==> r in s
  {
    if s != [] {
      ReversedContents(s[1..], r);
      assert r in s <==> r == s[0] || r in s[1..];
    }
  }

  /** On any replica of tables the services produced, an answered sync never meets a missing body and is
      a page of the user's own messages, forward or reverse. */
  method SyncOnReplica(tables: Tables, upTo: nat, userId: int, localSeq: int, limit: int, reverse: bool)
    returns (reply: SyncReply)
    requires tables.Valid() && upTo <= |tables.log|
    ensures reply.Synced? && OwnMessages(tables.log[..upTo], userId, reply.msgs)
    ensures IsMax(reply.maxSeq, localSeq, reply.msgs)
    ensures if reverse then ReverseAnswer(tables.log[..upTo], userId, if limit <= 0 then 10 else limit, reply.msgs)
            else ForwardAnswer(tables.log[..upTo], userId, localSeq, if limit <= 0 then 10 else limit, reply.msgs)
  {
    tables.ValidReachable();
    Store.ReferentialOnReplicas(tables.State(), upTo);
    Store.SeqIntegrity(tables.State());
    Timeline.RowsPrefix(tables.log, upTo);
    PrefixUnique(Store.Rows(tables.log[..upTo]), Store.Rows(tables.log));
    hide Exec, OwnMessages, IsMax, ForwardAnswer, ReverseAnswer, Joins, Timeline.Reply, Store.Rows, UniqueKey;
    reply := SyncMessages(tables.log[..upTo], userId, localSeq, limit, reverse, Answers);
  }

  lemma PrefixUnique(rows: seq<Row>, all: seq<Row>)
    requires rows <= all && UniqueKey(all)
    ensures UniqueKey(rows)
  {
    forall i, j | 0 <= i < j < |rows| && rows[i].owner == rows[j].owner ensures rows[i].seqId != rows[j].seqId {
      assert rows[i] == all[i] && rows[j] == all[j];
    }
  }

  // ----- friendship -----

  class RelationServer {
    const tables: Tables
    const chat: ChatServer

    constructor (tables: Tables)
      ensures this.tables == tables && chat.tables == tables
    {
      this.tables := tables;
      chat := new ChatServer(tables);
    }

    /** The acceptor's and the requester's rows in one statement, then a SYSTEM message to the requester,
        whether or not the insert went through. */
    method AcceptFriend(userId: int, requesterId: int, accept: bool, insertFails: bool, chatReachable: bool, w: Weather)
      requires tables.Valid() && chat.tables == tables && Distinct(Members(w))
      modifies tables
      ensures tables.Valid() && tables.sends == old(tables.sends)
      ensures accept && !insertFails ==> (userId, requesterId) in tables.relations && (requesterId, userId) in tables.relations
      ensures accept && !insertFails ==>
        tables.relations[(userId, requesterId)] == 1 && tables.relations[(requesterId, userId)] == 1
      ensures forall p :: p in old(tables.relations) ==> p in tables.relations && tables.relations[p] == old(tables.relations)[p]
      ensures tables.relations.Keys == old(tables.relations.Keys)
        + if accept && !insertFails then {(userId, requesterId), (requesterId, userId)} else {}
      ensures var related := old(tables.State()).(relations := tables.relations);
        if accept && chatReachable && !w.bodyFails then NoticeSent(requesterId, w, related, tables.State())
        else tables.State() == related
    {
      if accept {
        if !insertFails {
          Befriend(userId, requesterId);
        }
        if chatReachable {
          hide NoticeSent, Exec;
          Notify(requesterId, w);
        }
      }
    }

    method Befriend(userId: int, requesterId: int)
      requires tables.Valid()
      modifies tables
      ensures tables.Valid() && tables.State() == old(tables.State()).(relations := tables.relations)
      ensures (userId, requesterId) in tables.relations && (requesterId, userId) in tables.relations
      ensures tables.relations[(userId, requesterId)] == 1 && tables.relations[(requesterId, userId)] == 1
      ensures forall p :: p in old(tables.relations) ==> p in tables.relations && tables.relations[p] == old(tables.relations)[p]
      ensures tables.relations.Keys == old(tables.relations.Keys) + {(userId, requesterId), (requesterId, userId)}
    {
      tables.InsertRelations(userId, requesterId);
      tables.ValidReachable();
      Store.ReachableInv(tables.State());
      hide Exec;
    }

    method Notify(requesterId: int, w: Weather)
      requires tables.Valid() && chat.tables == tables && Distinct(Members(w))
      modifies tables
      ensures tables.Valid() && tables.sends == old(tables.sends) && tables.relations == old(tables.relations)
      ensures if w.bodyFails then tables.State() == old(tables.State())
              else NoticeSent(requesterId, w, old(tables.State()), tables.State())
    {
      hide Exec;
      var _ := chat.SendMessage(Request(0, requesterId, 0, Store.SYSTEM), w);
    }
  }

  /** One SYSTEM message to the requester, from nobody: its body, the requester's next number and, unless
      that insert fails, its row. */
  ghost predicate NoticeSent(requesterId: int, w: Weather, before: Store.State, after: Store.State) {
    var m := before.lastMsgId + 1;
    var n := (if requesterId in before.counters then before.counters[requesterId] else 0) + 1;
    after.lastMsgId == m && after.relations == before.relations
    && after.counters == before.counters[requesterId := n]
    && after.log == before.log + [Store.BodyRow(m, Store.Body(0, 0, 3))]
       + if w.indexFails then [] else [Store.IndexRows([Row(requesterId, 0, m, n)])]
  }
}
