// One web client reading its inbox while any number of sends run: the step
// system behind "no message is lost", and exactly when that is true.

module Timeline {
  import opened Prelude
  import opened Runs
  import opened Inbox
  import Store

  /** What the client asks for in every sync. */
  const CLIENT_LIMIT := 50

  /** A sync in flight; `upTo` is how much of the commit log the replica that answered held. */
  datatype Sync =
    | Asked(from: int, limit: nat)
    | Answered(from: int, limit: nat, upTo: nat, rows: seq<Row>, maxSeq: int)

  datatype Client = Client(user: int, localSeq: int, delivered: set<Row>, syncs: map<nat, Sync>)

  datatype World = World(store: Store.State, client: Client)

  datatype Event =
    | Server(e: Store.Event)
    | Ask(q: nat, limit: int)
    | Answer(q: nat, upTo: nat)
    | Receive(q: nat)
    | Lose(q: nat)  // a failed query, no stored result or a lost reply: no rows and max_seq 0

  function Fresh(user: int): Client {
    Client(user, 0, {}, map[])
  }

  function ReplicaInbox(log: seq<Store.Entry>, upTo: nat, user: int): seq<Row>
    requires upTo <= |log|
  {
    InboxOf(Store.Rows(log[..upTo]), user)
  }

  ghost predicate Enabled(w: World, e: Event) {
    match e
    case Server(se) => Store.Enabled(w.store, se)
    case Ask(q, _) => q !in w.client.syncs
    case Answer(q, upTo) => q in w.client.syncs && w.client.syncs[q].Asked? && upTo <= |w.store.log|
    case Receive(q) => q in w.client.syncs && w.client.syncs[q].Answered?
    case Lose(q) => q in w.client.syncs
  }

  /** SyncMessages, forward mode, on a replica holding `upTo` log entries. */
  function Reply(log: seq<Store.Entry>, user: int, ask: Sync, upTo: nat): Sync
    requires ask.Asked? && upTo <= |log|
  {
    var rows := Page(ReplicaInbox(log, upTo, user), ask.from, ask.limit);
    Answered(ask.from, ask.limit, upTo, rows, MaxSeq(rows, ask.from))
  }

  /** The MSG_SYNC_RESP handler: show the messages, move the cursor with max. */
  function Received(c: Client, rows: seq<Row>, maxSeq: int): Client {
    c.(localSeq := if maxSeq > c.localSeq then maxSeq else c.localSeq,
       delivered := c.delivered + set r <- rows)
  }

  ghost function Apply(w: World, e: Event): World
    requires Enabled(w, e)
  {
    var c := w.client;
    match e
    case Server(se) => w.(store := Store.Apply(w.store, se))
    case Ask(q, limit) => w.(client := c.(syncs := c.syncs[q := Asked(c.localSeq, Limit(limit))]))
    case Answer(q, upTo) => w.(client := c.(syncs := c.syncs[q := Reply(w.store.log, c.user, c.syncs[q], upTo)]))
    case Receive(q) => w.(client := Received(c, c.syncs[q].rows, c.syncs[q].maxSeq).(syncs := c.syncs - {q}))
    case Lose(q) => w.(client := c.(syncs := c.syncs - {q}))
  }

  ghost function Next(w: World, e: Event): Option<World> {
    if Enabled(w, e) then Some(Apply(w, e)) else None
  }

  ghost predicate Reachable(w: World) {
    exists user :: Reaches(Next, World(Store.EMPTY, Fresh(user)), w)
  }

  // ----- commit order -----

  /** A row whose number the client's cursor has passed without the row ever being delivered. */
  ghost predicate Missed(w: World, r: Row) {
    r in Store.Rows(w.store.log) && r.owner == w.client.user && 1 <= r.seqId <= w.client.localSeq
    && r !in w.client.delivered
  }

  /** Before position j of the index table, a row of the same owner with a larger number. */
  ghost predicate Overtaken(rows: seq<Row>, j: nat)
    requires j < |rows|
  {
    exists i :: 0 <= i < j && rows[i].owner == rows[j].owner && rows[i].seqId > rows[j].seqId
  }

  ghost predicate InOrder(rows: seq<Row>, user: int) {
    forall j | 0 <= j < |rows| && rows[j].owner == user :: !Overtaken(rows, j)
  }

  /** A replica's index table is the first rows of the master's. */
  lemma {:induction false} RowsPrefix(log: seq<Store.Entry>, k: nat)
    requires k <= |log|
    ensures Store.Rows(log[..k]) <= Store.Rows(log)
    decreases |log|
  {
    if k == |log| {
      assert log[..k] == log;
    } else {
      RowsPrefix(log[..|log| - 1], k);
      assert log[..|log| - 1][..k] == log[..k];
    }
  }

  // ----- what every run keeps -----

  ghost predicate SyncOk(w: World, y: Sync) {
    y.from <= w.client.localSeq
    && (y.Answered? ==> IsReply(w, y))
  }

  ghost predicate IsReply(w: World, y: Sync)
    requires y.Answered?
  {
    y.upTo <= |w.store.log| && y == Reply(w.store.log, w.client.user, Asked(y.from, y.limit), y.upTo)
  }

  ghost predicate ClientOk(w: World) {
    var c := w.client;
    0 <= c.localSeq
    && (forall r <- c.delivered :: r in Store.Rows(w.store.log) && r.owner == c.user)
    && (c.localSeq == 0 || exists r <- c.delivered :: r.seqId == c.localSeq)
    && forall q <- c.syncs :: SyncOk(w, c.syncs[q])
  }

  /** Safety: whatever the cursor passed was delivered or had been overtaken in commit order. */
  ghost predicate Safe(w: World) {
    var rows := Store.Rows(w.store.log);
    forall j | 0 <= j < |rows| && Missed(w, rows[j]) :: Overtaken(rows, j)
  }

  ghost predicate Inv(w: World) {
    Store.Inv(w.store) && ClientOk(w) && Safe(w)
  }

  lemma LogGrows(s: Store.State, e: Store.Event)
    requires Store.Enabled(s, e)
    ensures s.log <= Store.Apply(s, e).log
    ensures Store.Rows(s.log) <= Store.Rows(Store.Apply(s, e).log)
  {
    Grows(s, e);
    hide Store.Apply, Store.Rows;
    var log := Store.Apply(s, e).log;
    if log != s.log {
      assert log == s.log + [log[|s.log|]];
      Store.RowsSnoc(s.log, log[|s.log|]);
    }
  }

  lemma Grows(s: Store.State, e: Store.Event)
    requires Store.Enabled(s, e)
    ensures var log := Store.Apply(s, e).log; log == s.log || (|log| == |s.log| + 1 && log[..|s.log|] == s.log)
  {
    hide Store.RowsFor;
  }

  lemma ServerKeeps(w: World, e: Store.Event)
    requires Inv(w) && Enabled(w, Server(e))
    ensures Inv(Apply(w, Server(e)))
  {
    Store.InvKept(w.store, e);
    LogGrows(w.store, e);
    var w' := Apply(w, Server(e));
    hide Store.Apply, Store.Enabled;
    ServerClientOk(w, w');
    ServerSafe(w, w');
  }

  lemma ServerClientOk(w: World, w': World)
    requires ClientOk(w) && w'.client == w.client && w.store.log <= w'.store.log
    requires Store.Rows(w.store.log) <= Store.Rows(w'.store.log)
    ensures ClientOk(w')
  {
    forall q | q in w.client.syncs ensures SyncOk(w', w.client.syncs[q]) {
      var y := w.client.syncs[q];
      assert SyncOk(w, y);
      if y.Answered? {
        assert w'.store.log[..y.upTo] == w.store.log[..y.upTo];
      }
    }
  }

  /** A row that commits below the cursor is overtaken by the delivered row the cursor stands on. */
  lemma ServerSafe(w: World, w': World)
    requires ClientOk(w) && Safe(w) && w'.client == w.client
    requires Store.Rows(w.store.log) <= Store.Rows(w'.store.log) && UniqueKey(Store.Rows(w'.store.log))
    ensures Safe(w')
  {
    var old_, rows := Store.Rows(w.store.log), Store.Rows(w'.store.log);
    forall j | 0 <= j < |rows| && Missed(w', rows[j]) ensures Overtaken(rows, j) {
      if j < |old_| {
        assert Missed(w, old_[j]);
        assert Overtaken(old_, j);
        var i :| 0 <= i < j && old_[i].owner == old_[j].owner && old_[i].seqId > old_[j].seqId;
        assert rows[i] == old_[i];
      } else {
        var r :| r in w.client.delivered && r.seqId == w.client.localSeq;
        var i :| 0 <= i < |old_| && old_[i] == r;
        assert rows[i] == r && rows[i].owner == rows[j].owner;
      }
    }
  }

  /** Steps that leave the cursor and the shown messages alone. */
  lemma CursorKept(w: World, syncs: map<nat, Sync>)
    requires Inv(w) && forall q <- syncs :: SyncOk(w, syncs[q])
    ensures Inv(w.(client := w.client.(syncs := syncs)))
  {
    var w' := w.(client := w.client.(syncs := syncs));
    forall q | q in syncs ensures SyncOk(w', syncs[q]) {
      assert SyncOk(w, syncs[q]);
    }
    hide Store.Inv;
    forall j | 0 <= j < |Store.Rows(w.store.log)| && Missed(w', Store.Rows(w.store.log)[j])
      ensures Missed(w, Store.Rows(w.store.log)[j])
    {
    }
  }

  /** An answer's rows are committed rows of the client's user, above where it asked from. */
  lemma AnswerRows(w: World, y: Sync)
    requires UniqueKey(Store.Rows(w.store.log)) && SyncOk(w, y) && y.Answered?
    ensures forall r <- y.rows :: r in Store.Rows(w.store.log[..y.upTo]) && r.owner == w.client.user && r.seqId > y.from
    ensures Store.Rows(w.store.log[..y.upTo]) <= Store.Rows(w.store.log)
    ensures y.maxSeq == y.from || exists r <- y.rows :: r.seqId == y.maxSeq
  {
    var rows := Store.Rows(w.store.log[..y.upTo]);
    RowsPrefix(w.store.log, y.upTo);
    InboxAscending(rows, w.client.user);
    PageSpec(InboxOf(rows, w.client.user), y.from, y.limit);
    MaxSpec(y.rows, y.from);
    hide InboxOf, Page, MaxSeq, Store.Rows;
    forall r | r in y.rows ensures r in rows && r.owner == w.client.user && r.seqId > y.from {
      InboxContents(rows, w.client.user, r);
    }
  }

  lemma ReceiveOk(w: World, q: nat)
    requires Inv(w) && Enabled(w, Receive(q))
    ensures ClientOk(Apply(w, Receive(q)))
  {
    var c, y := w.client, w.client.syncs[q];
    var c' := Received(c, y.rows, y.maxSeq).(syncs := c.syncs - {q});
    assert Apply(w, Receive(q)) == w.(client := c');
    ReceivedSyncs(w, c');
    AnswerCursor(w, q);
    hide Store.Inv, Safe, SyncOk, Store.Rows;
  }

  lemma AnswerCursor(w: World, q: nat)
    requires Inv(w) && Enabled(w, Receive(q))
    ensures var c' := Received(w.client, w.client.syncs[q].rows, w.client.syncs[q].maxSeq);
      (forall r <- c'.delivered :: r in Store.Rows(w.store.log) && r.owner == c'.user)
      && (c'.localSeq == 0 || exists r <- c'.delivered :: r.seqId == c'.localSeq)
  {
    var y := w.client.syncs[q];
    assert SyncOk(w, y);
    AnswerRows(w, y);
    hide Store.Inv, Safe, SyncOk, Reply, IsReply, Received, Store.Rows;
    ReceivedCursor(w, y.rows, y.maxSeq, y.from);
  }

  lemma ReceivedCursor(w: World, rows: seq<Row>, maxSeq: int, from: int)
    requires ClientOk(w) && from <= w.client.localSeq
    requires forall r <- rows :: r in Store.Rows(w.store.log) && r.owner == w.client.user
    requires maxSeq == from || exists r <- rows :: r.seqId == maxSeq
    ensures var c' := Received(w.client, rows, maxSeq);
      (forall r <- c'.delivered :: r in Store.Rows(w.store.log) && r.owner == c'.user)
      && (c'.localSeq == 0 || exists r <- c'.delivered :: r.seqId == c'.localSeq)
  {
    hide SyncOk;
    var c' := Received(w.client, rows, maxSeq);
    if maxSeq > w.client.localSeq {
      var r :| r in rows && r.seqId == maxSeq;
      assert r in c'.delivered;
    } else if w.client.localSeq != 0 {
      var r :| r in w.client.delivered && r.seqId == w.client.localSeq;
      assert r in c'.delivered;
    }
  }

  lemma ReceivedSyncs(w: World, c': Client)
    requires ClientOk(w) && c'.user == w.client.user && c'.localSeq >= w.client.localSeq
    requires forall q <- c'.syncs :: q in w.client.syncs && c'.syncs[q] == w.client.syncs[q]
    ensures forall q <- c'.syncs :: SyncOk(w.(client := c'), c'.syncs[q])
  {
    forall q | q in c'.syncs ensures SyncOk(w.(client := c'), c'.syncs[q]) {
      assert SyncOk(w, w.client.syncs[q]);
    }
  }

  /** The heart: a row an answer jumps over was not yet on the replica, so the answer's last row
      committed before it. */
  lemma ReceiveSafe(w: World, q: nat)
    requires Inv(w) && Enabled(w, Receive(q))
    ensures Safe(Apply(w, Receive(q)))
  {
    var w', y := Apply(w, Receive(q)), w.client.syncs[q];
    assert SyncOk(w, y);
    var rows := Store.Rows(w.store.log);
    hide Store.Inv, IsReply, Reply, Enabled;
    forall j | 0 <= j < |rows| && Missed(w', rows[j]) ensures Overtaken(rows, j) {
      if rows[j].seqId <= w.client.localSeq {
        assert Missed(w, rows[j]);
      } else {
        JumpedRow(w, y, j);
      }
    }
  }

  lemma JumpedRow(w: World, y: Sync, j: nat)
    requires UniqueKey(Store.Rows(w.store.log)) && SyncOk(w, y) && y.Answered? && j < |Store.Rows(w.store.log)|
    requires var r := Store.Rows(w.store.log)[j];
      r.owner == w.client.user && y.from < r.seqId <= y.maxSeq && r !in y.rows
    ensures Overtaken(Store.Rows(w.store.log), j)
  {
    AnswerRows(w, y);
    var rows, seen := Store.Rows(w.store.log), Store.Rows(w.store.log[..y.upTo]);
    var r :| r in y.rows && r.seqId == y.maxSeq;
    if j < |seen| {
      assert seen[j] == rows[j];
      PageCovers(seen, w.client.user, y.from, y.limit, r, rows[j]);
      assert false;
    }
    hide SyncOk, Store.Rows;
    var i :| 0 <= i < |seen| && seen[i] == r;
    assert rows[i] == r && i < j;
    assert rows[i].seqId != rows[j].seqId;
  }

  /** A page that reaches number n holds every row of the table between its start and n. */
  lemma PageCovers(seen: seq<Row>, user: int, from: int, limit: nat, last: Row, r: Row)
    requires UniqueKey(seen) && r in seen && r.owner == user && from < r.seqId <= last.seqId
    requires last in Page(InboxOf(seen, user), from, limit)
    ensures r in Page(InboxOf(seen, user), from, limit)
  {
    InboxAscending(seen, user);
    InboxContents(seen, user, r);
    PageSpec(InboxOf(seen, user), from, limit);
    hide InboxOf, Page;
  }

  lemma SyncsOk(w: World)
    requires Inv(w)
    ensures forall q <- w.client.syncs :: SyncOk(w, w.client.syncs[q])
  {
  }

  lemma InvKept(w: World, e: Event)
    requires Inv(w) && Enabled(w, e)
    ensures Inv(Apply(w, e))
  {
    hide ClientOk, Safe, Store.Inv, Store.Apply, Store.Enabled;
    match e {
      case Server(se) => ServerKeeps(w, se);
      case Receive(q) => ReceiveOk(w, q); ReceiveSafe(w, q);
      case Ask(q, limit) => SyncsOk(w); CursorKept(w, w.client.syncs[q := Asked(w.client.localSeq, Limit(limit))]);
      case Answer(q, upTo) =>
        SyncsOk(w);
        CursorKept(w, w.client.syncs[q := Reply(w.store.log, w.client.user, w.client.syncs[q], upTo)]);
      case Lose(q) => SyncsOk(w); CursorKept(w, w.client.syncs - {q});
    }
  }

  lemma InvKeeps()
    ensures Keeps(Next, Inv)
  {
    forall w: World, e | Inv(w) && Next(w, e).Some? ensures Inv(Next(w, e).value) {
      InvKept(w, e);
      hide Inv, Enabled, Apply;
    }
  }

  lemma FreshInv(s: Store.State, user: int)
    requires Store.Inv(s)
    ensures Inv(World(s, Fresh(user)))
  {
  }

  lemma ReachableInv(w: World)
    requires Reachable(w)
    ensures Inv(w)
  {
    var user :| Reaches(Next, World(Store.EMPTY, Fresh(user)), w);
    Store.InvEmpty();
    FreshInv(Store.EMPTY, user);
    InvKeeps();
    hide Inv, Next;
    ReachesKeeps(Next, Inv, World(Store.EMPTY, Fresh(user)), w);
  }

  // ----- the theorems -----

  /** Over every interleaving of sends, lagging reads and overlapping syncs: a row the client skipped
      committed after a row of the same owner with a larger number. */
  lemma TimelineSafety(w: World, j: nat)
    requires Reachable(w) && j < |Store.Rows(w.store.log)| && Missed(w, Store.Rows(w.store.log)[j])
    ensures Overtaken(Store.Rows(w.store.log), j)
  {
    ReachableInv(w);
  }

  /** Where an owner's rows commit in number order, everything the cursor passed was delivered. */
  lemma NothingSkippedInOrder(w: World, r: Row)
    requires Reachable(w) && InOrder(Store.Rows(w.store.log), w.client.user)
    requires r in Store.Rows(w.store.log) && r.owner == w.client.user && r.seqId <= w.client.localSeq
    ensures r in w.client.delivered
  {
    ReachableInv(w);
    var rows := Store.Rows(w.store.log);
    var j :| 0 <= j < |rows| && rows[j] == r;
    assert Store.Drew(w.store, r.owner, r.seqId, r.msgId);
    assert !Overtaken(rows, j);
  }
}
