// When a message can be lost for good: exactly when a row of the same owner with
// a larger number has committed before it. The schedule that loses it is built,
// for a client that does nothing but its ordinary syncs against one replica.

module LostMessages {
  import opened Prelude
  import opened Runs
  import opened Inbox
  import opened Timeline
  import Store

  /** A skipped row that no sync in flight asks far enough back for. */
  ghost predicate Lost(w: World, r: Row) {
    Missed(w, r) && forall q <- w.client.syncs :: w.client.syncs[q].from >= r.seqId
  }

  /** The client's own steps, with the page size it uses. */
  ghost predicate Reading(es: seq<Event>) {
    forall e <- es :: e.Answer? || e.Receive? || e.Lose? || (e.Ask? && e.limit == CLIENT_LIMIT)
  }

  /** A new connection can lose this row while the tables stand still. */
  ghost predicate CanLose(s: Store.State, user: int, r: Row) {
    exists es, w :: Reading(es) && Exec(Next, World(s, Fresh(user)), es) == Some(w) && Lost(w, r)
  }

  // ----- lost is for ever -----

  lemma LostKept(w: World, e: Event, r: Row)
    requires Inv(w) && Enabled(w, e) && Lost(w, r)
    ensures Lost(Apply(w, e), r)
  {
    hide Safe, Store.Inv, Store.Enabled, Page, MaxSeq;
    match e {
      case Server(se) => LogGrows(w.store, se); hide Store.Apply;
      case Receive(q) => NotInAnswer(w, q, r);
      case _ =>
    }
  }

  lemma NotInAnswer(w: World, q: nat, r: Row)
    requires Inv(w) && Enabled(w, Receive(q)) && w.client.syncs[q].from >= r.seqId
    ensures r !in w.client.syncs[q].rows
  {
    var y := w.client.syncs[q];
    assert SyncOk(w, y);
    AnswerRows(w, y);
  }

  /** Once a row is lost, no continuation of the run ever delivers it. */
  lemma LostForever(w: World, es: seq<Event>, r: Row)
    requires Inv(w) && Lost(w, r)
    ensures Exec(Next, w, es).Some? ==> Lost(Exec(Next, w, es).value, r)
  {
    var lost := (v: World) => Inv(v) && Lost(v, r);
    forall v: World, e | lost(v) && Next(v, e).Some? ensures lost(Next(v, e).value) {
      InvKept(v, e);
      LostKept(v, e, r);
      hide Inv, Lost, Enabled, Apply;
    }
    hide Inv, Lost, Next;
    Always(Next, lost, w, es);
  }

  // ----- out of order, so lost -----

  /** A replica that holds row i and not yet row j. */
  lemma {:induction false} SplitPoint(log: seq<Store.Entry>, i: nat, j: nat) returns (k: nat)
    requires Store.BatchesOk(log) && i < j < |Store.Rows(log)|
    requires Store.Rows(log)[i].owner == Store.Rows(log)[j].owner
    ensures k <= |log| && i < |Store.Rows(log[..k])| <= j
    decreases |log|
  {
    var n := |log| - 1;
    var before, last := Store.Rows(log[..n]), Store.RowsIn(log[n]);
    if j < |before| {
      assert Store.BatchesOk(log[..n]);
      assert Store.Rows(log)[i] == before[i] && Store.Rows(log)[j] == before[j];
      k := SplitPoint(log[..n], i, j);
      assert log[..n][..k] == log[..k];
    } else {
      assert Store.OneRowEach(last);
      EarlierBatch(before, last, i, j);
      k := n;
    }
  }

  lemma EarlierBatch(before: seq<Row>, last: seq<Row>, i: nat, j: nat)
    requires Store.OneRowEach(last) && |before| <= j < |before + last| && i < j
    requires (before + last)[i].owner == (before + last)[j].owner
    ensures i < |before|
  {
  }

  /** One sync against a replica that holds k log entries. */
  function SyncOnce(k: nat): seq<Event> {
    [Ask(0, CLIENT_LIMIT), Answer(0, k), Receive(0)]
  }

  /** Syncing over and over on one replica: the cursor and what has been delivered. */
  ghost predicate Idle(w: World, s: Store.State, user: int, k: nat) {
    w.store == s && w.client.user == user && w.client.syncs == map[] && w.client.localSeq >= 0
    && k <= |s.log| && forall r <- w.client.delivered :: r in Store.Rows(s.log[..k])
  }

  lemma OneSync(w: World, s: Store.State, user: int, k: nat) returns (w': World)
    requires Idle(w, s, user, k)
    ensures Exec(Next, w, SyncOnce(k)) == Some(w')
    ensures Idle(w', s, user, k)
    ensures var p := Page(ReplicaInbox(s.log, k, user), w.client.localSeq, CLIENT_LIMIT);
      w'.client.localSeq == MaxSeq(p, w.client.localSeq)
  {
    var inbox := ReplicaInbox(s.log, k, user);
    var p := Page(inbox, w.client.localSeq, CLIENT_LIMIT);
    assert Limit(CLIENT_LIMIT) == CLIENT_LIMIT;
    MaxSpec(p, w.client.localSeq);
    hide Page, MaxSeq, InboxOf, Exec;
    var w1 := Apply(w, Ask(0, CLIENT_LIMIT));
    var w2 := Apply(w1, Answer(0, k));
    w' := Apply(w2, Receive(0));
    assert w'.client.syncs == map[];
    forall r | r in p ensures r in Store.Rows(s.log[..k]) {
      PageSubset(inbox, w.client.localSeq, CLIENT_LIMIT, r);
      InboxContents(Store.Rows(s.log[..k]), user, r);
    }
    ThreeSteps(w, w1, w2, w', Ask(0, CLIENT_LIMIT), Answer(0, k), Receive(0));
  }

  lemma PageSubset(inbox: seq<Row>, from: int, limit: nat, r: Row)
    requires r in Page(inbox, from, limit)
    ensures r in inbox
  {
    AboveContents(inbox, from, r);
  }

  lemma ThreeSteps(w: World, w1: World, w2: World, w3: World, a: Event, b: Event, c: Event)
    requires Next(w, a) == Some(w1) && Next(w1, b) == Some(w2) && Next(w2, c) == Some(w3)
    ensures Exec(Next, w, [a, b, c]) == Some(w3)
  {
    hide Next;
    assert [a, b, c][1..] == [b, c] && [b, c][1..] == [c] && [c][1..] == [];
    assert Exec(Next, w2, [c]) == Exec(Next, w3, []) && Exec(Next, w1, [b, c]) == Exec(Next, w2, [c]);
  }

  /** n syncs in a row, all answered by the replica that holds k log entries. */
  function Syncs(k: nat, n: nat): seq<Event> {
    if n == 0 then [] else SyncOnce(k) + Syncs(k, n - 1)
  }

  lemma {:induction false} SyncsRead(k: nat, n: nat)
    ensures Reading(Syncs(k, n))
  {
    if n > 0 {
      SyncsRead(k, n - 1);
    }
  }

  /** Enough syncs against one replica carry the cursor past any row it holds. */
  lemma {:induction false} ReadPast(w: World, s: Store.State, user: int, k: nat, target: Row)
    returns (n: nat, w': World)
    requires Idle(w, s, user, k) && UniqueKey(Store.Rows(s.log[..k]))
    requires target in Store.Rows(s.log[..k]) && target.owner == user
    ensures Exec(Next, w, Syncs(k, n)) == Some(w')
    ensures Idle(w', s, user, k) && w'.client.localSeq >= target.seqId
    decreases |Above(ReplicaInbox(s.log, k, user), w.client.localSeq)|
  {
    if w.client.localSeq >= target.seqId {
      n, w' := 0, w;
    } else {
      OneSyncLess(w, s, user, k, target);
      hide Idle, Exec, Next, InboxOf, Above, Page, MaxSeq;
      var w1 := OneSync(w, s, user, k);
      n, w' := ReadPast(w1, s, user, k, target);
      ExecJoin(Next, w, SyncOnce(k), w1, Syncs(k, n));
      n := n + 1;
    }
  }

  /** A sync that has not reached the target leaves fewer rows above the cursor. */
  lemma OneSyncLess(w: World, s: Store.State, user: int, k: nat, target: Row)
    requires k <= |s.log| && UniqueKey(Store.Rows(s.log[..k]))
    requires target in Store.Rows(s.log[..k]) && target.owner == user && w.client.localSeq < target.seqId
    ensures var inbox := ReplicaInbox(s.log, k, user);
      var p := Page(inbox, w.client.localSeq, CLIENT_LIMIT);
      |Above(inbox, MaxSeq(p, w.client.localSeq))| < |Above(inbox, w.client.localSeq)|
  {
    var inbox := ReplicaInbox(s.log, k, user);
    InboxAscending(Store.Rows(s.log[..k]), user);
    InboxContents(Store.Rows(s.log[..k]), user, target);
    AboveContents(inbox, w.client.localSeq, target);
    hide InboxOf, MaxSeq, Above, Store.Rows;
    NextPage(inbox, w.client.localSeq, CLIENT_LIMIT);
  }

  /** The overtaken row itself is lost, by ordinary syncs against a single replica: one that holds the
      overtaking row and not yet this one. */
  lemma OutOfOrderLoses(s: Store.State, j: nat) returns (k: nat, n: nat, w: World)
    requires Store.Inv(s) && j < |Store.Rows(s.log)| && Overtaken(Store.Rows(s.log), j)
    ensures k <= |s.log| && Exec(Next, World(s, Fresh(Store.Rows(s.log)[j].owner)), Syncs(k, n)) == Some(w)
    ensures Lost(w, Store.Rows(s.log)[j])
  {
    var rows := Store.Rows(s.log);
    var user := rows[j].owner;
    SeqPositive(s, rows[j]);
    assert UniqueKey(rows) && Store.BatchesOk(s.log);
    hide Store.Inv, Exec;
    var i :| 0 <= i < j && rows[i].owner == rows[j].owner && rows[i].seqId > rows[j].seqId;
    k := SplitPoint(s.log, i, j);
    RowsPrefix(s.log, k);
    var seen := Store.Rows(s.log[..k]);
    assert rows[i] == seen[i];
    NotSeen(rows, seen, j);
    n, w := LoseAt(s, user, k, seen[i], rows[j]);
  }

  /** A replica that holds `ahead` and not yet `r`: reading it to the end loses r. */
  lemma LoseAt(s: Store.State, user: int, k: nat, ahead: Row, r: Row) returns (n: nat, w: World)
    requires k <= |s.log| && UniqueKey(Store.Rows(s.log[..k]))
    requires ahead in Store.Rows(s.log[..k]) && ahead.owner == user && ahead.seqId > r.seqId >= 1
    requires r in Store.Rows(s.log) && r.owner == user && r !in Store.Rows(s.log[..k])
    ensures Exec(Next, World(s, Fresh(user)), Syncs(k, n)) == Some(w) && Lost(w, r)
  {
    hide Store.Rows, UniqueKey, Exec;
    n, w := ReadPast(World(s, Fresh(user)), s, user, k, ahead);
  }

  lemma SeqPositive(s: Store.State, r: Row)
    requires Store.Inv(s) && r in Store.Rows(s.log)
    ensures r.seqId >= 1
  {
    assert Store.Drew(s, r.owner, r.seqId, r.msgId);
  }

  lemma NotSeen(rows: seq<Row>, seen: seq<Row>, j: nat)
    requires UniqueKey(rows) && seen <= rows && |seen| <= j < |rows|
    ensures UniqueKey(seen) && rows[j] !in seen
  {
    forall i | 0 <= i < |seen| ensures seen[i] != rows[j] {
      assert seen[i] == rows[i];
    }
  }

  /** The exact condition, row by row, for every reachable state of the tables: a client can lose a row
      if and only if a row of the same owner with a larger number committed before it. */
  lemma LossExact(s: Store.State, j: nat)
    requires Store.Reachable(s) && j < |Store.Rows(s.log)|
    ensures var rows := Store.Rows(s.log); CanLose(s, rows[j].owner, rows[j]) <==> Overtaken(rows, j)
  {
    Store.ReachableInv(s);
    hide Store.Inv, Overtaken;
    var r := Store.Rows(s.log)[j];
    if CanLose(s, r.owner, r) {
      hide Reading;
      var es, w :| Reading(es) && Exec(Next, World(s, Fresh(r.owner)), es) == Some(w) && Lost(w, r);
      LossNeedsDisorder(s, j, es, w);
    }
    if Overtaken(Store.Rows(s.log), j) {
      var k, n, w := OutOfOrderLoses(s, j);
      SyncsRead(k, n);
    }
  }

  lemma LossNeedsDisorder(s: Store.State, j: nat, es: seq<Event>, w: World)
    requires Store.Inv(s) && j < |Store.Rows(s.log)| && Reading(es)
    requires Exec(Next, World(s, Fresh(Store.Rows(s.log)[j].owner)), es) == Some(w) && Lost(w, Store.Rows(s.log)[j])
    ensures Overtaken(Store.Rows(s.log), j)
  {
    var user := Store.Rows(s.log)[j].owner;
    FreshInv(s, user);
    InvKeeps();
    ReadingKeepsTables(World(s, Fresh(user)), es);
    hide Store.Inv, Next, Reading, Exec;
    Always(Next, Inv, World(s, Fresh(user)), es);
  }

  /** Hence, inbox by inbox: a user can lose something if and only if two of the user's rows committed
      out of number order. */
  lemma InboxLossExact(s: Store.State, user: int)
    requires Store.Reachable(s)
    ensures (exists r :: CanLose(s, user, r)) <==> !InOrder(Store.Rows(s.log), user)
  {
    var rows := Store.Rows(s.log);
    hide CanLose, Overtaken, Store.Reachable;
    if r :| CanLose(s, user, r) {
      var j := LostIsCommitted(s, user, r);
      LossExact(s, j);
    }
    if !InOrder(rows, user) {
      var j :| 0 <= j < |rows| && rows[j].owner == user && Overtaken(rows, j);
      LossExact(s, j);
    }
  }

  lemma LostIsCommitted(s: Store.State, user: int, r: Row) returns (j: nat)
    requires CanLose(s, user, r)
    ensures j < |Store.Rows(s.log)| && Store.Rows(s.log)[j] == r && r.owner == user
  {
    hide Reading;
    var es, w :| Reading(es) && Exec(Next, World(s, Fresh(user)), es) == Some(w) && Lost(w, r);
    ReadingKeepsTables(World(s, Fresh(user)), es);
    hide Exec, Next;
    j :| 0 <= j < |Store.Rows(s.log)| && Store.Rows(s.log)[j] == r;
  }

  lemma {:induction false} ReadingKeepsTables(w: World, es: seq<Event>)
    requires Reading(es)
    ensures Exec(Next, w, es).Some? ==>
      Exec(Next, w, es).value.store == w.store && Exec(Next, w, es).value.client.user == w.client.user
    decreases |es|
  {
    hide Reply;
    if es != [] && Enabled(w, es[0]) {
      assert es[0] in es;
      ReadingKeepsTables(Apply(w, es[0]), es[1..]);
    }
  }

  // ----- and it does happen -----

  /** A SYSTEM message to user 7, checked and about to draw its number. */
  function Waiting(seqs: seq<nat>): Store.Send {
    Store.Send(5, 7, 0, Store.SYSTEM, Store.Numbering([7], seqs))
  }

  lemma QueueBody(s: Store.State) returns (t: Store.State)
    requires Store.Reachable(s)
    ensures Store.Reachable(t) && t.lastMsgId == s.lastMsgId + 1
    ensures t.sends == s.sends[s.lastMsgId + 1 := Store.Send(5, 7, 0, Store.SYSTEM, Store.Stored)]
    ensures t.counters == s.counters && Store.Rows(t.log) == Store.Rows(s.log)
  {
    t := Store.Step(s, Store.StoreBody(5, 7, 0, Store.SYSTEM));
    Store.RowsSnoc(s.log, t.log[|s.log|]);
  }

  lemma Queue(s: Store.State) returns (t: Store.State)
    requires Store.Reachable(s)
    ensures Store.Reachable(t) && t.lastMsgId == s.lastMsgId + 1 && t.sends == s.sends[s.lastMsgId + 1 := Waiting([])]
    ensures t.counters == s.counters && Store.Rows(t.log) == Store.Rows(s.log)
  {
    hide Store.Reachable, Store.Rows;
    var m := s.lastMsgId + 1;
    var u := QueueBody(s);
    t := Store.Step(u, Store.CheckFriend(m));
    assert u.sends[m := Waiting([])] == s.sends[m := Waiting([])];
  }

  lemma Draw(s: Store.State, m: nat) returns (t: Store.State)
    requires Store.Reachable(s) && m in s.sends && s.sends[m] == Waiting([])
    ensures Store.Reachable(t) && t.log == s.log && Store.Counter(t, 7) == Store.Counter(s, 7) + 1
    ensures t.sends == s.sends[m := Waiting([Store.Counter(t, 7)])]
  {
    hide Store.Reachable;
    t := Store.Step(s, Store.Incr(m));
    var none: seq<nat> := [];
    assert none + [Store.Counter(t, 7)] == [Store.Counter(t, 7)];
  }

  /** Message 1 and message 2, neither numbered yet. */
  lemma TwoQueued() returns (s: Store.State)
    ensures Store.Reachable(s) && s.sends == map[1 := Waiting([]), 2 := Waiting([])]
    ensures Store.Rows(s.log) == [] && s.counters == map[]
  {
    ReachesItself(Store.Next, Store.EMPTY);
    assert Store.Reachable(Store.EMPTY) && Store.Rows(Store.EMPTY.log) == [];
    hide Store.Reachable, Waiting, Store.Rows, Store.Next;
    s := Queue(Store.EMPTY);
    s := Queue(s);
  }

  /** Both numbered, neither committed. */
  lemma TwoNumbered() returns (s: Store.State)
    ensures Store.Reachable(s) && s.sends == map[1 := Waiting([1]), 2 := Waiting([2])]
    ensures Store.Rows(s.log) == []
  {
    s := TwoQueued();
    assert Store.Counter(s, 7) == 0;
    hide *;
    s := Draw(s, 1);
    s := Draw(s, 2);
  }

  /** The waiting message m commits: its row joins the index table. */
  lemma Commit(s: Store.State, m: nat, n: nat) returns (t: Store.State)
    requires Store.Reachable(s) && m in s.sends && s.sends[m] == Waiting([n])
    ensures Store.Reachable(t) && t.sends == s.sends - {m}
    ensures Store.Rows(t.log) == Store.Rows(s.log) + [Row(7, 5, m, n)]
  {
    hide Store.Reachable, Store.Rows;
    t := Store.Step(s, Store.InsertIndex(m));
    assert Store.RowsFor(m, s.sends[m]) == [Row(7, 5, m, n)];
    Store.RowsSnoc(s.log, Store.IndexRows([Row(7, 5, m, n)]));
  }

  /** Two messages to one user: the second takes its number later but commits first. From there a
      client can lose the first. */
  lemma DisorderIsReachable() returns (s: Store.State)
    ensures Store.Reachable(s) && Store.Rows(s.log) == [Row(7, 5, 2, 2), Row(7, 5, 1, 1)]
    ensures CanLose(s, 7, Row(7, 5, 1, 1))
  {
    hide *;
    s := TwoNumbered();
    s := Commit(s, 2, 2);
    s := Commit(s, 1, 1);
    Disordered(s);
  }

  lemma Disordered(s: Store.State)
    requires Store.Reachable(s) && Store.Rows(s.log) == [Row(7, 5, 2, 2), Row(7, 5, 1, 1)]
    ensures CanLose(s, 7, Row(7, 5, 1, 1))
  {
    var rows := Store.Rows(s.log);
    hide CanLose, Store.Reachable, Store.Rows;
    assert rows[0].owner == rows[1].owner && rows[0].seqId > rows[1].seqId;
    assert Overtaken(rows, 1);
    LossExact(s, 1);
  }
}
