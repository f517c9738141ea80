// A user's inbox as the SQL of SyncMessages sees it: index rows selected by
// owner, ordered by seq_id and cut into pages.

module Inbox {
  import opened Arith

  datatype Row = Row(owner: int, other: int, msgId: nat, seqId: nat)

  const DEFAULT_LIMIT := 10

  /** `limit <= 0` means ten. */
  function Limit(limit: int): (r: nat)
    ensures r > 0
  {
    if limit <= 0 then DEFAULT_LIMIT else limit
  }

  // ----- WHERE owner_id = u ORDER BY seq_id -----

  function Insert(r: Row, s: seq<Row>): seq<Row> {
    if s == [] || r.seqId <= s[0].seqId then [r] + s else [s[0]] + Insert(r, s[1..])
  }

  function InboxOf(rows: seq<Row>, owner: int): seq<Row> {
    if rows == [] then []
    else if rows[0].owner == owner then Insert(rows[0], InboxOf(rows[1..], owner))
    else InboxOf(rows[1..], owner)
  }

  ghost predicate Ascending(s: seq<Row>) {
    forall i, j | 0 <= i < j < |s| :: s[i].seqId < s[j].seqId
  }

  /** The unique key (owner_id, seq_id). */
  ghost predicate UniqueKey(rows: seq<Row>) {
    forall i, j | 0 <= i < j < |rows| :: rows[i].owner == rows[j].owner ==> rows[i].seqId != rows[j].seqId
  }

  lemma {:induction false} InsertContents(r: Row, s: seq<Row>)
    ensures multiset(Insert(r, s)) == multiset{r} + multiset(s)
  {
    if s != [] && r.seqId > s[0].seqId {
      InsertContents(r, s[1..]);
      assert s == [s[0]] + s[1..];
    }
  }

  lemma {:induction false} InsertAscending(r: Row, s: seq<Row>)
    requires Ascending(s) && forall q <- s :: q.seqId != r.seqId
    ensures Ascending(Insert(r, s))
  {
    if s != [] && r.seqId > s[0].seqId {
      InsertAscending(r, s[1..]);
      InsertContents(r, s[1..]);
      var t := Insert(r, s[1..]);
      forall q | q in t ensures s[0].seqId < q.seqId {
        assert q in multiset(t);
        assert q == r || q in s[1..];
      }
      assert Insert(r, s) == [s[0]] + t;
      hide Insert;
      ConsAscending(s[0], t);
    }
  }

  lemma ConsAscending(r: Row, t: seq<Row>)
    requires Ascending(t) && forall q <- t :: r.seqId < q.seqId
    ensures Ascending([r] + t)
  {
  }

  /** The inbox holds exactly the owner's rows. */
  lemma {:induction false} InboxContents(rows: seq<Row>, owner: int, r: Row)
    ensures r in InboxOf(rows, owner) <==> r in rows && r.owner == owner
  {
    if rows != [] {
      InboxContents(rows[1..], owner, r);
      var rest := InboxOf(rows[1..], owner);
      assert r in rows <==> r == rows[0] || r in rows[1..];
      InsertContents(rows[0], rest);
      assert r in Insert(rows[0], rest) <==> r in multiset(Insert(rows[0], rest));
    }
  }

  lemma {:induction false} InboxAscending(rows: seq<Row>, owner: int)
    requires UniqueKey(rows)
    ensures Ascending(InboxOf(rows, owner))
  {
    if rows != [] {
      InboxAscending(rows[1..], owner);
      forall q | q in InboxOf(rows[1..], owner) && rows[0].owner == owner ensures q.seqId != rows[0].seqId {
        InboxContents(rows[1..], owner, q);
      }
      if rows[0].owner == owner {
        InsertAscending(rows[0], InboxOf(rows[1..], owner));
      }
    }
  }

  // ----- AND seq_id > from LIMIT n -----

  function Above(s: seq<Row>, from: int): seq<Row> {
    if s == [] then []
    else (if s[0].seqId > from then [s[0]] else []) + Above(s[1..], from)
  }

  function Take(s: seq<Row>, n: nat): seq<Row> {
    if |s| <= n then s else s[..n]
  }

  /** One forward page of an inbox. */
  function Page(inbox: seq<Row>, from: int, limit: nat): seq<Row> {
    Take(Above(inbox, from), limit)
  }

  /** The reverse query: the latest `limit` rows, newest first. */
  function Reversed(s: seq<Row>): (r: seq<Row>)
    ensures |r| == |s|
  {
    if s == [] then [] else Reversed(s[1..]) + [s[0]]
  }

  function LatestPage(inbox: seq<Row>, limit: nat): seq<Row> {
    Take(Reversed(inbox), limit)
  }

  /** The fold that computes max_seq. */
  function MaxSeq(rows: seq<Row>, from: int): int {
    if rows == [] then from
    else
      var rest := MaxSeq(rows[..|rows| - 1], from);
      var last := rows[|rows| - 1];
      if last.seqId > rest then last.seqId else rest
  }

  /** It is the largest of `from` and the rows' numbers. */
  lemma {:induction false} MaxSpec(rows: seq<Row>, from: int)
    ensures var m := MaxSeq(rows, from);
      m >= from && (forall r <- rows :: r.seqId <= m) && (m == from || exists r <- rows :: r.seqId == m)
  {
    if rows != [] {
      MaxSpec(rows[..|rows| - 1], from);
      assert rows == rows[..|rows| - 1] + [rows[|rows| - 1]];
    }
  }

  lemma {:induction false} AboveContents(s: seq<Row>, from: int, r: Row)
    ensures r in Above(s, from) <==> r in s && r.seqId > from
  {
    if s != [] {
      AboveContents(s[1..], from, r);
      assert r in s <==> r == s[0] || r in s[1..];
    }
  }

  lemma {:induction false} AboveAscending(s: seq<Row>, from: int)
    requires Ascending(s)
    ensures Ascending(Above(s, from))
  {
    if s != [] {
      AboveAscending(s[1..], from);
      forall q | q in Above(s[1..], from) ensures s[0].seqId < q.seqId {
        AboveContents(s[1..], from, q);
      }
    }
  }

  /** What a page is, without saying how it is computed: the lowest-numbered rows above `from`. */
  lemma PageSpec(inbox: seq<Row>, from: int, limit: nat)
    requires Ascending(inbox)
    ensures var p := Page(inbox, from, limit);
      Ascending(p) && |p| <= limit
      && (forall r <- p :: r in inbox && r.seqId > from)
      && (forall r <- inbox :: r.seqId > from ==> r in p || (|p| == limit && forall q <- p :: q.seqId < r.seqId))
  {
    var all, p := Above(inbox, from), Page(inbox, from, limit);
    AboveAscending(inbox, from);
    forall r | r in p ensures r in inbox && r.seqId > from {
      AboveContents(inbox, from, r);
    }
    forall r | r in inbox && r.seqId > from
      ensures r in p || (|p| == limit && forall q <- p :: q.seqId < r.seqId)
    {
      AboveContents(inbox, from, r);
      var i :| 0 <= i < |all| && all[i] == r;
    }
  }

  /** The largest number on a page is its last row's; an empty page leaves it alone. */
  lemma PageMax(p: seq<Row>, from: int)
    requires Ascending(p) && forall r <- p :: r.seqId > from
    ensures MaxSeq(p, from) == if p == [] then from else p[|p| - 1].seqId
  {
    MaxSpec(p, from);
    hide MaxSeq;
    if p != [] {
      assert p[|p| - 1] in p;
    } else {
      EmptyMax(from);
    }
  }

  lemma {:induction false} ReversedAt(s: seq<Row>, k: nat)
    requires k < |s|
    ensures Reversed(s)[k] == s[|s| - 1 - k]
  {
    if k < |s| - 1 {
      ReversedAt(s[1..], k);
    }
  }

  /** What the reverse query returns: the highest-numbered rows, highest first. */
  lemma LatestSpec(inbox: seq<Row>, limit: nat)
    requires Ascending(inbox)
    ensures var p := LatestPage(inbox, limit);
      |p| == (if |inbox| <= limit then |inbox| else limit)
      && (forall i, j | 0 <= i < j < |p| :: p[i].seqId > p[j].seqId)
      && (forall r <- p :: r in inbox)
      && forall r <- inbox :: r in p || (|p| == limit && forall q <- p :: q.seqId > r.seqId)
  {
    var p, n := LatestPage(inbox, limit), |inbox|;
    forall k | 0 <= k < |p| ensures p[k] == inbox[n - 1 - k] {
      ReversedAt(inbox, k);
    }
    hide LatestPage;
    forall r | r in inbox ensures r in p || (|p| == limit && forall q <- p :: q.seqId > r.seqId) {
      var i :| 0 <= i < n && inbox[i] == r;
      if n - 1 - i < |p| {
        assert p[n - 1 - i] == r;
      }
    }
  }

  // ----- repeated forward sync -----

  lemma {:induction false} AboveAbove(s: seq<Row>, from: int, next: int)
    requires from <= next
    ensures Above(s, next) == Above(Above(s, from), next)
  {
    if s != [] {
      AboveAbove(s[1..], from, next);
      var t := Above(s[1..], from);
      if s[0].seqId > from {
        assert ([s[0]] + t)[1..] == t;
      } else {
        assert [] + t == t;
      }
    }
  }

  lemma {:induction false} AboveNone(s: seq<Row>, next: int)
    requires forall r <- s :: r.seqId > next
    ensures Above(s, next) == s
  {
    if s != [] {
      AboveNone(s[1..], next);
    }
  }

  lemma {:induction false} AboveSuffix(s: seq<Row>, n: nat)
    requires Ascending(s) && 0 < n <= |s|
    ensures Above(s, s[n - 1].seqId) == s[n..]
    decreases n
  {
    var next := s[n - 1].seqId;
    assert s[0].seqId <= next;
    assert Above(s, next) == Above(s[1..], next);
    if n == 1 {
      AboveNone(s[1..], next);
    } else {
      AboveSuffix(s[1..], n - 1);
      assert s[1..][n - 1..] == s[n..];
    }
  }

  /** Syncing on from a page's max_seq leaves exactly what the page did not return. */
  lemma NextPage(inbox: seq<Row>, from: int, limit: nat)
    requires Ascending(inbox) && limit > 0
    ensures var p := Page(inbox, from, limit);
      Above(inbox, from) == p + Above(inbox, MaxSeq(p, from))
  {
    var all, p := Above(inbox, from), Page(inbox, from, limit);
    PageIsPrefix(inbox, from, limit);
    AboveAscending(inbox, from);
    AboveFrom(inbox, from);
    AfterPrefix(all, |p|, from);
    MaxSpec(p, from);
    AboveAbove(inbox, from, MaxSeq(p, from));
    hide *;
  }

  /** Of ascending rows above `from`, those above the largest of the first n are the others. */
  lemma AfterPrefix(all: seq<Row>, n: nat, from: int)
    requires Ascending(all) && n <= |all| && (n == 0 ==> all == []) && forall r <- all :: r.seqId > from
    ensures all == all[..n] + Above(all, MaxSeq(all[..n], from))
  {
    if n > 0 {
      PrefixMax(all, n, from);
      AboveSuffix(all, n);
      hide *;
      assert all == all[..n] + all[n..];
    }
  }

  lemma PageIsPrefix(inbox: seq<Row>, from: int, limit: nat)
    ensures var all, p := Above(inbox, from), Page(inbox, from, limit);
      |p| == (if |all| <= limit then |all| else limit) && p == all[..|p|]
  {
    hide Above;
  }

  lemma EmptyMax(from: int)
    ensures MaxSeq([], from) == from
  {
  }

  lemma AboveFrom(s: seq<Row>, from: int)
    ensures forall r <- Above(s, from) :: r.seqId > from
  {
    forall r | r in Above(s, from) ensures r.seqId > from {
      AboveContents(s, from, r);
    }
  }

  lemma PrefixMax(all: seq<Row>, n: nat, from: int)
    requires Ascending(all) && 0 < n <= |all| && forall r <- all :: r.seqId > from
    ensures MaxSeq(all[..n], from) == all[n - 1].seqId
  {
    hide MaxSeq;
    PageMax(all[..n], from);
  }

  /** The non-empty pages of a client that repeats forward sync on a fixed inbox. */
  function Pages(inbox: seq<Row>, from: int, limit: nat): (ps: seq<seq<Row>>)
    requires Ascending(inbox) && limit > 0
    decreases |Above(inbox, from)|
  {
    var p := Page(inbox, from, limit);
    NextPage(inbox, from, limit);
    if p == [] then [] else [p] + Pages(inbox, MaxSeq(p, from), limit)
  }

  function Concat(ps: seq<seq<Row>>): seq<Row> {
    if ps == [] then [] else ps[0] + Concat(ps[1..])
  }

  function LastSeq(inbox: seq<Row>, from: int): int {
    var all := Above(inbox, from);
    if all == [] then from else all[|all| - 1].seqId
  }

  /** The number of pages of `limit` rows that m rows fill. */
  function Ceil(m: nat, limit: nat): nat
    requires limit > 0
  {
    (m + limit - 1) / limit
  }

  lemma CeilStep(m: nat, limit: nat)
    requires limit > 0
    ensures m > 0 ==> Ceil(m, limit) == 1 + Ceil(if m <= limit then 0 else m - limit, limit)
    ensures Ceil(0, limit) == 0
  {
    if 0 < m <= limit {
      DivModUnique(m + limit - 1, limit, 1, m - 1);
    } else if m > limit {
      var q, r := (m - 1) / limit, (m - 1) % limit;
      assert m - 1 == q * limit + r;
      assert (q + 1) * limit == q * limit + limit;
      DivModUnique(m + limit - 1, limit, q + 1, r);
    }
    DivModUnique(limit - 1, limit, 0, limit - 1);
  }

  /** Repeated forward sync returns every row above the start once, in order, in exactly
      ceil(m / limit) non-empty pages; after them max_seq is the last row's number and the next page
      is empty with max_seq unchanged. */
  lemma {:induction false} PagingDrains(inbox: seq<Row>, from: int, limit: nat)
    requires Ascending(inbox) && limit > 0
    ensures var ps := Pages(inbox, from, limit);
      Concat(ps) == Above(inbox, from)
      && |ps| == Ceil(|Above(inbox, from)|, limit)
      && (forall p <- ps :: 0 < |p| <= limit)
    ensures var last := LastSeq(inbox, from);
      Page(inbox, last, limit) == [] && MaxSeq([], last) == last
    decreases |Above(inbox, from)|
  {
    AfterLast(inbox, from);
    PagesStep(inbox, from, limit);
    RowsStep(inbox, from, limit);
    var p := Page(inbox, from, limit);
    if p != [] {
      hide *;
      PagingDrains(inbox, MaxSeq(p, from), limit);
    }
  }

  lemma RowsStep(inbox: seq<Row>, from: int, limit: nat)
    requires Ascending(inbox) && limit > 0
    ensures var all, p := Above(inbox, from), Page(inbox, from, limit);
      if p == [] then all == [] && Ceil(|all|, limit) == 0
      else var rest := Above(inbox, MaxSeq(p, from));
        all == p + rest && |p| <= limit && Ceil(|all|, limit) == 1 + Ceil(|rest|, limit) && |rest| < |all|
  {
    NextPage(inbox, from, limit);
    PageIsPrefix(inbox, from, limit);
    CeilStep(|Above(inbox, from)|, limit);
    hide *;
  }

  lemma PagesStep(inbox: seq<Row>, from: int, limit: nat)
    requires Ascending(inbox) && limit > 0
    ensures var p, ps := Page(inbox, from, limit), Pages(inbox, from, limit);
      if p == [] then ps == [] && Concat(ps) == []
      else var rest := Pages(inbox, MaxSeq(p, from), limit);
        ps == [p] + rest && Concat(ps) == p + Concat(rest)
  {
    hide Ascending, Page, Above, MaxSeq;
    var p := Page(inbox, from, limit);
    if p != [] {
      var rest := Pages(inbox, MaxSeq(p, from), limit);
      assert ([p] + rest)[1..] == rest;
    }
  }

  lemma AfterLast(inbox: seq<Row>, from: int)
    requires Ascending(inbox)
    ensures Above(inbox, LastSeq(inbox, from)) == []
    ensures forall limit :: Page(inbox, LastSeq(inbox, from), limit) == []
    ensures MaxSeq([], LastSeq(inbox, from)) == LastSeq(inbox, from)
  {
    var all := Above(inbox, from);
    AboveAscending(inbox, from);
    if all != [] {
      AboveContents(inbox, from, all[|all| - 1]);
      AboveSuffix(all, |all|);
      AboveAbove(inbox, from, LastSeq(inbox, from));
    }
  }
}
