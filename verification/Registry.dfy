// Service discovery: leases renewed in Redis by the services' heartbeats, a
// polling thread that copies them into a local cache, and round robin over
// the cached list.

module Registry {
  import opened Prelude
  import opened Runs

  /** The TTL of every SETEX, in seconds. */
  const LEASE := 10

  // ----- round robin -----

  /** The position a call picks: the stored int is compared as unsigned, so a negative one resets too. */
  function Slot(idx: int, n: nat): (p: nat)
    requires n > 0
    ensures p < n
  {
    if idx < 0 || idx >= n then 0 else idx
  }

  function NextIndex(idx: int, n: nat): int {
    if n == 0 then idx else (Slot(idx, n) + 1) % n
  }

  /** The index before call i, when call j finds a list of sizes[j] addresses. */
  function IndexAt(idx: int, sizes: seq<nat>, i: nat): int
    requires i <= |sizes|
  {
    if i == 0 then idx else NextIndex(IndexAt(idx, sizes, i - 1), sizes[i - 1])
  }

  function PositionAt(idx: int, sizes: seq<nat>, i: nat): nat
    requires i < |sizes| && sizes[i] > 0
  {
    Slot(IndexAt(idx, sizes, i), sizes[i])
  }

  /** However the list changes from call to call, a call leaves the index inside the list it used. */
  lemma {:induction false} IndexInRange(idx: int, sizes: seq<nat>, i: nat)
    requires i <= |sizes| && idx >= 0
    ensures IndexAt(idx, sizes, i) >= 0
    ensures i > 0 && sizes[i - 1] > 0 ==> IndexAt(idx, sizes, i) < sizes[i - 1]
  {
    if i > 0 {
      IndexInRange(idx, sizes, i - 1);
    }
  }

  /** Calls from..from+count all find n addresses. */
  predicate Steady(sizes: seq<nat>, from: nat, count: nat, n: nat) {
    n > 0 && from + count <= |sizes| && forall i | from <= i < from + count :: sizes[i] == n
  }

  lemma Wrapped(p: nat, k: nat, n: nat)
    requires p < n && k <= n
    ensures (p + k) % n == if p + k < n then p + k else p + k - n
  {
    if p + k >= n {
      assert p + k == n + (p + k - n);
    }
  }

  lemma {:induction false} Rotation(idx: int, sizes: seq<nat>, from: nat, n: nat, k: nat)
    requires Steady(sizes, from, k + 1, n) && k < n
    ensures var p := PositionAt(idx, sizes, from);
      PositionAt(idx, sizes, from + k) == if p + k < n then p + k else p + k - n
  {
    if k > 0 {
      Rotation(idx, sizes, from, n, k - 1);
      Wrapped(PositionAt(idx, sizes, from + k - 1), 1, n);
    }
  }

  /** Round robin: of any n consecutive calls on n addresses, exactly one picks position p. */
  lemma FairRound(idx: int, sizes: seq<nat>, from: nat, n: nat, p: nat) returns (i: nat)
    requires Steady(sizes, from, n, n) && p < n
    ensures from <= i < from + n && PositionAt(idx, sizes, i) == p
    ensures forall j | from <= j < from + n && PositionAt(idx, sizes, j) == p :: j == i
  {
    var start := PositionAt(idx, sizes, from);
    var d := if p >= start then p - start else p - start + n;
    i := from + d;
    hide PositionAt;
    forall j | from <= j < from + n ensures PositionAt(idx, sizes, j) == p <==> j == i {
      Rotation(idx, sizes, from, n, j - from);
    }
  }

  // ----- leases -----

  datatype Lease = Lease(service: string, value: string, renewed: nat)

  predicate Plain(name: string) {
    ':' !in name
  }

  function Prefix(service: string): string {
    "im:service:" + service + ":"
  }

  function Key(service: string, address: string): string {
    Prefix(service) + address
  }

  /** KEYS im:service:S:* finds exactly the leases of S, when service names hold no colon. */
  lemma KeysOfService(s: string, t: string, address: string)
    requires Plain(s) && Plain(t)
    ensures Prefix(s) <= Key(t, address) <==> s == t
  {
    var head := |"im:service:"|;
    if Prefix(s) <= Key(t, address) {
      assert Prefix(s)[head..] == s + ":" && Key(t, address)[head..] == t + ":" + address;
      FirstColon(s, t, address);
    } else {
      assert Prefix(t) <= Key(t, address);
    }
  }

  lemma FirstColon(s: string, t: string, address: string)
    requires Plain(s) && Plain(t) && s + ":" <= t + ":" + address
    ensures s == t
  {
    var x, y := s + ":", t + ":" + address;
    assert x[|s|] == ':' && y[|s|] == x[|s|];
    assert y[|t|] == ':';
    assert forall i | 0 <= i < |s| :: x[i] == s[i];
    assert s == x[..|s|] && t == y[..|t|];
  }

  // ----- renewing, polling and caching, one Redis command a step -----

  /** One service's turn in RefreshCache: the KEYS reply, how far the GETs have come and what they
      found. `started` and `book`, the time of KEYS and the leases then, are history. */
  datatype Round = Round(service: string, started: nat, book: map<string, Lease>,
                         keys: seq<string>, asked: nat, found: seq<string>)

  datatype Cached = Cached(started: nat, addresses: seq<string>)

  /** `leases` holds the last SETEX of every key; an expired one is history. */
  datatype State = State(now: nat, leases: map<string, Lease>, round: Option<Round>, cache: map<string, Cached>)

  const START := State(0, map[], None, map[])

  datatype Event =
    | Tick
    | Renew(service: string, address: string)
    | Keys(service: string, keys: seq<string>)
    | Get
    | Publish

  predicate Live(l: Lease, now: nat) {
    now <= l.renewed + LEASE
  }

  predicate Listed(leases: map<string, Lease>, now: nat, service: string, k: string) {
    k in leases && Prefix(service) <= k && Live(leases[k], now)
  }

  ghost predicate Enabled(s: State, e: Event) {
    match e
    case Tick => true
    case Renew(service, address) => Plain(service) && address != ""
    case Keys(service, keys) =>
      Plain(service) && s.round.None? && Distinct(keys) && forall k :: k in keys <==> Listed(s.leases, s.now, service, k)
    case Get => s.round.Some? && s.round.value.asked < |s.round.value.keys|
    case Publish => s.round.Some? && s.round.value.asked == |s.round.value.keys|
  }

  /** GET of the next key; an expired one answers with the empty string. */
  function AfterGet(s: State, r: Round): Round
    requires r.asked < |r.keys|
  {
    var k := r.keys[r.asked];
    var val := if k in s.leases && Live(s.leases[k], s.now) then s.leases[k].value else "";
    r.(asked := r.asked + 1, found := if val != "" then r.found + [val] else r.found)
  }

  function Apply(s: State, e: Event): State
    requires Enabled(s, e)
  {
    match e
    case Tick => s.(now := s.now + 1)
    case Renew(service, address) => s.(leases := s.leases[Key(service, address) := Lease(service, address, s.now)])
    case Keys(service, keys) => s.(round := Some(Round(service, s.now, s.leases, keys, 0, [])))
    case Get => s.(round := Some(AfterGet(s, s.round.value)))
    case Publish =>
      var r := s.round.value;
      s.(round := None, cache := s.cache[r.service := Cached(r.started, r.found)])
  }

  ghost function Next(s: State, e: Event): Option<State> {
    if Enabled(s, e) then Some(Apply(s, e)) else None
  }

  ghost predicate Reachable(s: State) {
    Reaches(Next, START, s)
  }

  // ----- what every run keeps -----

  ghost predicate LeaseOk(s: State, k: string)
    requires k in s.leases
  {
    var l := s.leases[k];
    Plain(l.service) && k == Key(l.service, l.value) && l.value != "" && l.renewed <= s.now
  }

  ghost predicate LeasesOk(s: State) {
    forall k <- s.leases :: LeaseOk(s, k)
  }

  /** The address was registered for the service and renewed no longer than a lease before `started`. */
  ghost predicate RenewedSince(leases: map<string, Lease>, service: string, started: nat, address: string) {
    var k := Key(service, address);
    k in leases && leases[k].service == service && leases[k].value == address && Live(leases[k], started)
  }

  ghost predicate AddressesOk(leases: map<string, Lease>, service: string, started: nat, addresses: seq<string>) {
    Distinct(addresses) && forall a <- addresses :: RenewedSince(leases, service, started, a)
  }

  ghost predicate CacheOk(s: State) {
    forall service <- s.cache :: AddressesOk(s.leases, service, s.cache[service].started, s.cache[service].addresses)
  }

  /** A later book: the same leases, renewed since or not, and new ones. */
  ghost predicate Grown(old_: map<string, Lease>, leases: map<string, Lease>) {
    forall k <- old_ :: k in leases && Same(old_[k], leases[k])
  }

  predicate Same(l: Lease, m: Lease) {
    l.service == m.service && l.value == m.value && l.renewed <= m.renewed
  }

  ghost predicate KeysOk(r: Round) {
    Distinct(r.keys) && r.asked <= |r.keys| && Plain(r.service)
    && (forall k :: k in r.keys <==> Listed(r.book, r.started, r.service, k))
    && forall k <- r.keys :: r.book[k].service == r.service && k == Key(r.service, r.book[k].value)
  }

  ghost predicate FoundOk(r: Round)
    requires r.asked <= |r.keys|
  {
    forall a <- r.found :: Key(r.service, a) in r.keys[..r.asked]
  }

  /** Asked while its lease of the book still runs, a key has given its address. */
  ghost predicate Complete(r: Round, now: nat)
    requires r.asked <= |r.keys|
  {
    forall k <- r.keys[..r.asked] :: k in r.book && Live(r.book[k], now) ==> r.book[k].value in r.found
  }

  ghost predicate RoundOk(s: State, r: Round) {
    r.started <= s.now && KeysOk(r) && Grown(r.book, s.leases) && FoundOk(r) && Complete(r, s.now)
    && AddressesOk(s.leases, r.service, r.started, r.found)
  }

  ghost predicate Inv(s: State) {
    LeasesOk(s) && CacheOk(s) && (s.round.Some? ==> RoundOk(s, s.round.value))
  }

  lemma KeyInjective(s: string, a: string, t: string, b: string)
    requires Plain(s) && Plain(t) && Key(s, a) == Key(t, b)
    ensures s == t && a == b
  {
    KeysOfService(s, t, b);
    assert Prefix(s) <= Key(s, a);
    assert a == Key(s, a)[|Prefix(s)|..] && b == Key(t, b)[|Prefix(t)|..];
  }

  /** Renewing never changes whose key it is. */
  lemma RenewGrows(s: State, service: string, address: string)
    requires LeasesOk(s) && Enabled(s, Renew(service, address))
    ensures Grown(s.leases, Apply(s, Renew(service, address)).leases)
    ensures LeasesOk(Apply(s, Renew(service, address)))
  {
    var k := Key(service, address);
    if k in s.leases {
      assert LeaseOk(s, k);
      KeyInjective(service, address, s.leases[k].service, s.leases[k].value);
    }
    hide Key, Plain;
    var s' := Apply(s, Renew(service, address));
    forall x | x in s'.leases ensures LeaseOk(s', x) {
      if x != k {
        assert LeaseOk(s, x);
      }
    }
  }

  lemma AddressesKept(leases: map<string, Lease>, leases': map<string, Lease>, service: string, started: nat, xs: seq<string>)
    requires AddressesOk(leases, service, started, xs) && Grown(leases, leases')
    ensures AddressesOk(leases', service, started, xs)
  {
    hide Key, Distinct;
    forall a | a in xs ensures RenewedSince(leases', service, started, a) {
      assert RenewedSince(leases, service, started, a);
    }
  }

  lemma CacheKept(s: State, leases': map<string, Lease>, now': nat)
    requires CacheOk(s) && Grown(s.leases, leases')
    ensures CacheOk(s.(leases := leases', now := now'))
  {
    hide AddressesOk, Grown;
    forall service | service in s.cache
      ensures AddressesOk(leases', service, s.cache[service].started, s.cache[service].addresses)
    {
      AddressesKept(s.leases, leases', service, s.cache[service].started, s.cache[service].addresses);
    }
  }

  lemma GrownTwice(a: map<string, Lease>, b: map<string, Lease>, c: map<string, Lease>)
    requires Grown(a, b) && Grown(b, c)
    ensures Grown(a, c)
  {
  }

  /** Time passing and renewals leave a round in order. */
  lemma RoundKept(s: State, leases': map<string, Lease>, now': nat, r: Round)
    requires RoundOk(s, r) && Grown(s.leases, leases') && s.now <= now'
    ensures RoundOk(s.(leases := leases', now := now'), r)
  {
    AddressesKept(s.leases, leases', r.service, r.started, r.found);
    GrownTwice(r.book, s.leases, leases');
    hide AddressesOk, Grown, KeysOk, FoundOk;
    CompleteLater(r, s.now, now');
  }

  lemma CompleteLater(r: Round, now: nat, now': nat)
    requires r.asked <= |r.keys| && Complete(r, now) && now <= now'
    ensures Complete(r, now')
  {
  }

  lemma KeysStart(s: State, service: string, keys: seq<string>)
    requires LeasesOk(s) && Enabled(s, Keys(service, keys))
    ensures RoundOk(s, Round(service, s.now, s.leases, keys, 0, []))
  {
    hide Prefix, Plain;
    var r := Round(service, s.now, s.leases, keys, 0, []);
    forall k | k in keys ensures r.book[k].service == service && k == Key(service, r.book[k].value) {
      assert LeaseOk(s, k);
      KeysOfService(service, s.leases[k].service, s.leases[k].value);
    }
  }

  /** The key a GET asks for: its lease is the book's, renewed since or not. */
  lemma AskedKey(s: State, r: Round)
    requires LeasesOk(s) && KeysOk(r) && Grown(r.book, s.leases) && r.asked < |r.keys|
    ensures var k := r.keys[r.asked];
      k in r.book && k in s.leases && Same(r.book[k], s.leases[k]) && r.book[k].value != ""
      && k == Key(r.service, r.book[k].value) && RenewedSince(s.leases, r.service, r.started, r.book[k].value)
    ensures r.keys[r.asked] !in r.keys[..r.asked]
  {
    hide Key, Plain;
    var k := r.keys[r.asked];
    assert k in r.keys && Listed(r.book, r.started, r.service, k);
    assert LeaseOk(s, k);
  }

  lemma GetKept(s: State, r: Round)
    requires LeasesOk(s) && RoundOk(s, r) && r.asked < |r.keys|
    ensures RoundOk(s, AfterGet(s, r))
  {
    AskedKey(s, r);
    var r', k := AfterGet(s, r), r.keys[r.asked];
    assert r.keys[..r.asked + 1] == r.keys[..r.asked] + [k];
    assert KeysOk(r');
    hide KeysOk, Key, Grown, LeasesOk;
    GetFound(s, r, k);
    GetComplete(s, r, k);
  }

  lemma GetFound(s: State, r: Round, k: string)
    requires r.asked < |r.keys| && k == r.keys[r.asked] && k !in r.keys[..r.asked] && FoundOk(r)
    requires AddressesOk(s.leases, r.service, r.started, r.found)
    requires k in s.leases && k == Key(r.service, s.leases[k].value)
    requires RenewedSince(s.leases, r.service, r.started, s.leases[k].value)
    ensures FoundOk(AfterGet(s, r)) && AddressesOk(s.leases, r.service, r.started, AfterGet(s, r).found)
  {
    hide Key, Live, RenewedSince;
    assert s.leases[k].value !in r.found;
    assert r.keys[..r.asked + 1] == r.keys[..r.asked] + [k];
  }

  lemma GetComplete(s: State, r: Round, k: string)
    requires r.asked < |r.keys| && k == r.keys[r.asked] && Complete(r, s.now)
    requires k in r.book && k in s.leases && Same(r.book[k], s.leases[k]) && r.book[k].value != ""
    ensures Complete(AfterGet(s, r), s.now)
  {
    var r' := AfterGet(s, r);
    assert r.keys[..r.asked + 1] == r.keys[..r.asked] + [k];
    assert forall v <- r.found :: v in r'.found;
  }

  lemma InvKept(s: State, e: Event)
    requires Inv(s) && Enabled(s, e)
    ensures Inv(Apply(s, e))
  {
    var s' := Apply(s, e);
    assert Grown(s.leases, s.leases);
    assert e == Tick ==> LeasesOk(s');
    if e.Renew? {
      RenewGrows(s, e.service, e.address);
    }
    hide LeasesOk, LeaseOk, AddressesOk, Grown, RoundOk, AfterGet;
    match e {
      case Tick => StillKept(s, s.leases, s.now + 1);
      case Renew(_, _) => StillKept(s, s'.leases, s.now);
      case Keys(service, keys) => KeysStart(s, service, keys);
      case Get => GetKept(s, s.round.value); assert CacheOk(s');
      case Publish => PublishKept(s);
    }
  }

  lemma StillKept(s: State, leases': map<string, Lease>, now': nat)
    requires CacheOk(s) && (s.round.Some? ==> RoundOk(s, s.round.value)) && Grown(s.leases, leases') && s.now <= now'
    ensures var s' := s.(leases := leases', now := now');
      CacheOk(s') && (s'.round.Some? ==> RoundOk(s', s'.round.value))
  {
    CacheKept(s, leases', now');
    if s.round.Some? {
      RoundKept(s, leases', now', s.round.value);
    }
  }

  lemma PublishKept(s: State)
    requires Inv(s) && Enabled(s, Publish)
    ensures Inv(Apply(s, Publish))
  {
    hide AddressesOk, KeysOk, FoundOk, Complete, Grown;
    assert RoundOk(s, s.round.value);
  }

  lemma InvKeeps()
    ensures Keeps(Next, Inv)
  {
    forall s: State, e | Inv(s) && Next(s, e).Some? ensures Inv(Next(s, e).value) {
      InvKept(s, e);
      hide Inv, Enabled, Apply;
    }
  }

  lemma ReachableInv(s: State)
    requires Reachable(s)
    ensures Inv(s)
  {
    InvKeeps();
    hide Next;
    ReachesKeeps(Next, Inv, START, s);
  }

  // ----- the theorems -----

  /** In every run: a cached address was registered for that service and, when the next publication
      always comes within `gap` of a round's start, renewed no longer than a lease and a gap ago. */
  lemma Staleness(s: State, service: string, address: string, gap: nat)
    requires Reachable(s) && service in s.cache && address in s.cache[service].addresses
    requires s.now <= s.cache[service].started + gap
    ensures var k := Key(service, address);
      k in s.leases && s.leases[k].service == service && s.leases[k].value == address
      && s.now - s.leases[k].renewed <= LEASE + gap
  {
    ReachableInv(s);
    assert AddressesOk(s.leases, service, s.cache[service].started, s.cache[service].addresses);
    assert RenewedSince(s.leases, service, s.cache[service].started, address);
  }

  /** A cached list never repeats an address, so a round of calls serves every one of them once. */
  lemma CachedOnce(s: State, service: string)
    requires Reachable(s) && service in s.cache
    ensures Distinct(s.cache[service].addresses)
  {
    ReachableInv(s);
    assert AddressesOk(s.leases, service, s.cache[service].started, s.cache[service].addresses);
  }

  /** Nothing alive is missed: an address whose lease, as it stood at KEYS, still runs at publication
      is in the list published. */
  lemma LiveIsPublished(s: State, address: string)
    requires Reachable(s) && Enabled(s, Publish)
    requires var r := s.round.value;
      var k := Key(r.service, address);
      k in r.book && r.book[k].value == address && Live(r.book[k], s.now)
    ensures address in Apply(s, Publish).cache[s.round.value.service].addresses
  {
    ReachableInv(s);
    var r := s.round.value;
    var k := Key(r.service, address);
    assert Listed(r.book, r.started, r.service, k);
    assert r.keys[..r.asked] == r.keys;
    hide Key, Grown, AddressesOk;
    assert k in r.keys;
  }

  lemma Step(s: State, e: Event) returns (t: State)
    requires Reachable(s) && Enabled(s, e)
    ensures t == Apply(s, e) && Reachable(t)
  {
    t := Apply(s, e);
    hide Enabled, Apply;
    ReachesStep(Next, START, s, e);
  }

  lemma {:induction false} Wait(s: State, n: nat) returns (t: State)
    requires Reachable(s)
    ensures Reachable(t) && t == s.(now := s.now + n)
    decreases n
  {
    hide Reachable;
    t := s;
    if n > 0 {
      t := Wait(s, n - 1);
      t := Step(t, Tick);
    }
  }

  /** The bound of Staleness is met exactly: for every gap, a run serves an address that was last
      renewed a whole lease and a whole gap ago. */
  lemma StalenessTight(gap: nat) returns (s: State)
    ensures Reachable(s) && "chat" in s.cache && s.cache["chat"].addresses == ["a:1"]
    ensures s.now == s.cache["chat"].started + gap
    ensures var k := Key("chat", "a:1"); k in s.leases && s.now - s.leases[k].renewed == LEASE + gap
  {
    ReachesItself(Next, START);
    assert Reachable(START);
    hide Reachable, Key;
    s := Step(START, Renew("chat", "a:1"));
    s := Wait(s, LEASE);
    var k := Key("chat", "a:1");
    assert Prefix("chat") <= k by { KeysOfService("chat", "chat", "a:1"); }
    hide Prefix;
    s := Step(s, Keys("chat", [k]));
    s := Step(s, Get);
    s := Step(s, Publish);
    s := Wait(s, gap);
  }

  /** While n distinct addresses stay listed, any n consecutive calls return each of them exactly once. */
  lemma EachServedOnce(idx: int, sizes: seq<nat>, from: nat, addresses: seq<string>, a: string) returns (i: nat)
    requires Distinct(addresses) && a in addresses && Steady(sizes, from, |addresses|, |addresses|)
    ensures from <= i < from + |addresses| && addresses[PositionAt(idx, sizes, i)] == a
    ensures forall j | from <= j < from + |addresses| && addresses[PositionAt(idx, sizes, j)] == a :: j == i
  {
    var p :| 0 <= p < |addresses| && addresses[p] == a;
    i := FairRound(idx, sizes, from, |addresses|, p);
    hide IndexAt;
    forall j | from <= j < from + |addresses| && addresses[PositionAt(idx, sizes, j)] == a ensures j == i {
      assert PositionAt(idx, sizes, j) == p;
    }
  }

  // ----- what a refresh achieves -----

  /** Time has not run back, and leases are those there were, renewed or not, and new ones. */
  ghost predicate Onward(s: State, t: State) {
    s.now <= t.now && Grown(s.leases, t.leases)
  }

  /** The service's list was read since `since`: every address on it was registered for the service and
      alive when KEYS ran, none is there twice, and no address is missing whose lease, as it stood in
      `book`, still runs. */
  ghost predicate Refreshed(s: State, service: string, since: nat, book: map<string, Lease>) {
    service in s.cache && since <= s.cache[service].started <= s.now
    && AddressesOk(s.leases, service, s.cache[service].started, s.cache[service].addresses)
    && forall k <- book | book[k].service == service && Live(book[k], s.now) :: book[k].value in s.cache[service].addresses
  }

  ghost predicate SameRound(r: Round, q: Round) {
    r.service == q.service && r.started == q.started && r.book == q.book && r.keys == q.keys
  }

  lemma RoundStarted(s: State, t: State, service: string)
    requires t.round.Some? && Enabled(s, Keys(service, t.round.value.keys)) && t == Apply(s, Keys(service, t.round.value.keys))
    ensures Onward(s, t) && t.cache == s.cache && t.round.value.asked == 0
    ensures t.round.value.service == service && t.round.value.started == s.now && t.round.value.book == s.leases
  {
  }

  lemma GetStep(s: State, t: State)
    requires Enabled(s, Get) && t == Apply(s, Get)
    ensures Onward(s, t) && t.cache == s.cache && t.round.Some?
    ensures SameRound(s.round.value, t.round.value) && t.round.value.asked == s.round.value.asked + 1
  {
  }

  lemma OnwardTwice(s: State, t: State, u: State)
    requires Onward(s, t) && Onward(t, u)
    ensures Onward(s, u)
  {
    GrownTwice(s.leases, t.leases, u.leases);
  }

  lemma Published(start: State, r0: Round, last: State, s: State)
    requires Reachable(last) && Inv(last) && Inv(start) && Enabled(last, Publish) && s == Apply(last, Publish)
    requires SameRound(r0, last.round.value) && r0.started == start.now && r0.book == start.leases
    requires Onward(start, last)
    ensures Refreshed(s, r0.service, start.now, start.leases) && Onward(start, s) && s.round.None?
    ensures s.cache == last.cache[r0.service := s.cache[r0.service]]
  {
    var service := r0.service;
    assert RoundOk(last, last.round.value);
    hide Reachable, AddressesOk, Grown, KeysOk, FoundOk, Complete, Live;
    forall k | k in start.leases && start.leases[k].service == service && Live(start.leases[k], last.now)
      ensures start.leases[k].value in s.cache[service].addresses
    {
      assert LeaseOk(start, k);
      LiveIsPublished(last, start.leases[k].value);
    }
  }

  /** Refreshing one more service keeps what the refreshes before it achieved. */
  lemma StillRefreshed(start: State, before: State, s: State, service: string, done: seq<string>)
    requires Onward(start, before) && Onward(before, s)
    requires forall t <- done :: Refreshed(before, t, start.now, start.leases)
    requires service in s.cache && s.cache == before.cache[service := s.cache[service]]
    requires Refreshed(s, service, before.now, before.leases)
    ensures Onward(start, s)
    ensures forall t <- done + [service] :: Refreshed(s, t, start.now, start.leases)
  {
    OnwardTwice(start, before, s);
    forall t | t in done + [service] ensures Refreshed(s, t, start.now, start.leases) {
      if t == service {
        RefreshedSince(start, before, s, t);
      } else {
        RefreshedLater(before, s, t, start.now, start.leases);
      }
    }
  }

  lemma RefreshedSince(start: State, before: State, s: State, service: string)
    requires Onward(start, before) && Refreshed(s, service, before.now, before.leases)
    ensures Refreshed(s, service, start.now, start.leases)
  {
    hide AddressesOk;
    forall k | k in start.leases && start.leases[k].service == service && Live(start.leases[k], s.now)
      ensures start.leases[k].value in s.cache[service].addresses
    {
      assert Same(start.leases[k], before.leases[k]);
    }
  }

  lemma RefreshedLater(before: State, s: State, service: string, since: nat, book: map<string, Lease>)
    requires Onward(before, s) && Refreshed(before, service, since, book)
    requires service in s.cache && s.cache[service] == before.cache[service]
    ensures Refreshed(s, service, since, book)
  {
    AddressesKept(before.leases, s.leases, service, s.cache[service].started, s.cache[service].addresses);
    hide AddressesOk, Grown;
  }

  /** The lease under the service's key for this address still runs. */
  ghost predicate Alive(leases: map<string, Lease>, now: nat, service: string, address: string) {
    var k := "im:service:" + service + ":" + address;
    k in leases && leases[k].service == service && leases[k].value == address && now <= leases[k].renewed + 10
  }

  /** The values under a service's live keys are the addresses alive, each once. */
  lemma AnswersAlive(s: State, service: string, keys: seq<string>, addresses: seq<string>)
    requires LeasesOk(s) && Plain(service) && Distinct(keys) && |addresses| == |keys|
    requires forall k :: k in keys <==> Listed(s.leases, s.now, service, k)
    requires forall j | 0 <= j < |keys| :: keys[j] in s.leases && addresses[j] == s.leases[keys[j]].value
    ensures Distinct(addresses) && forall a :: a in addresses <==> Alive(s.leases, s.now, service, a)
  {
    forall j | 0 <= j < |keys| ensures s.leases[keys[j]].service == service && keys[j] == Key(service, addresses[j])
                               ensures Alive(s.leases, s.now, service, addresses[j]) {
      assert keys[j] in keys && LeaseOk(s, keys[j]);
      KeysOfService(service, s.leases[keys[j]].service, s.leases[keys[j]].value);
    }
    forall a | Alive(s.leases, s.now, service, a) ensures a in addresses {
      KeysOfService(service, service, a);
      assert Listed(s.leases, s.now, service, Key(service, a));
      var j :| 0 <= j < |keys| && keys[j] == Key(service, a);
    }
  }

  /** What Discover does with an index is the rotation's step. */
  lemma RotationStep(idx: int, n: nat)
    requires n > 0
    ensures var p := if 0 <= idx < n then idx else 0;
      Slot(idx, n) == p && NextIndex(idx, n) == if p + 1 == n then 0 else p + 1
  {
    Wrapped(Slot(idx, n), 1, n);
  }

  // ----- the registry object -----

  /** One process's registry, and Redis as it sees it: `now` and `leases`. `round` is the poller's turn. */
  class ServiceRegistry {
    var now: nat
    var leases: map<string, Lease>
    var observed: seq<string>
    var cache: map<string, Cached>
    var rrIndex: map<string, int>
    var round: Option<Round>
    ghost var history: seq<Event>

    constructor ()
      ensures Valid() && Now() == START && observed == [] && rrIndex == map[]
    {
      now, leases, round := 0, map[], None;
      observed, cache, rrIndex, history := [], map[], map[], [];
    }

    ghost function Now(): State
      reads this
    {
      State(now, leases, round, cache)
    }

    /** Redis and the cache are what the commands so far made of empty ones. */
    ghost predicate Valid()
      reads this
    {
      Exec(Next, START, history) == Some(Now())
    }

    lemma ValidInv()
      requires Valid()
      ensures Reachable(Now()) && Inv(Now())
    {
      assert Reachable(Now());
      ReachableInv(Now());
    }

    ghost method Record(e: Event, before: State)
      requires Exec(Next, START, history) == Some(before) && Enabled(before, e) && Now() == Apply(before, e)
      modifies this`history
      ensures Valid() && history == old(history) + [e]
    {
      hide Enabled, Apply;
      ExecSnoc(Next, START, history, before, e);
      history := history + [e];
    }

    /** The SETEX of Register and of every heartbeat. */
    method SetEx(service: string, address: string)
      requires Valid() && Plain(service) && address != ""
      modifies this`leases, this`history
      ensures leases == old(leases)["im:service:" + service + ":" + address := Lease(service, address, now)]
      ensures Valid() && history == old(history) + [Renew(service, address)]
      ensures Now() == Apply(old(Now()), Renew(service, address))
    {
      ghost var before := Now();
      leases := leases[Key(service, address) := Lease(service, address, now)];
      Record(Renew(service, address), before);
    }

    method Second()
      requires Valid()
      modifies this`now, this`history
      ensures Valid() && history == old(history) + [Tick] && Now() == Apply(old(Now()), Tick)
    {
      ghost var before := Now();
      now := now + 1;
      Record(Tick, before);
    }

    /** Between two commands any time may pass, and any services may renew. */
    method Meanwhile()
      requires Valid()
      modifies this`now, this`leases, this`history
      ensures Valid() && old(history) <= history && old(now) <= now && Grown(old(leases), leases)
    {
      var steps :| 0 <= steps;
      assert Grown(leases, leases);
      hide Exec, Same, Key, Plain;
      for i := 0 to steps
        invariant Valid() && old(history) <= history && old(now) <= now && Grown(old(leases), leases)
      {
        Moment();
      }
    }

    method Moment()
      requires Valid()
      modifies this`now, this`leases, this`history
      ensures Valid() && old(history) <= history && old(now) <= now && Grown(old(leases), leases)
      ensures forall before: map<string, Lease> | Grown(before, old(leases)) :: Grown(before, leases)
    {
      ValidInv();
      hide Exec;
      ghost var was := leases;
      var service: string := *;
      var address: string := *;
      if Plain(service) && address != "" {
        RenewGrows(Now(), service, address);
        SetEx(service, address);
      } else {
        Second();
      }
      forall before: map<string, Lease> | Grown(before, was) ensures Grown(before, leases) {
        GrownTwice(before, was, leases);
      }
    }

    /** KEYS im:service:<service>:*, in whatever order Redis answers. */
    method LiveKeys(service: string) returns (keys: seq<string>)
      ensures Distinct(keys) && forall k :: k in keys <==> Listed(leases, now, service, k)
    {
      keys := [];
      var todo := leases.Keys;
      while todo != {}
        invariant todo <= leases.Keys && Distinct(keys)
        invariant forall k :: k in keys <==> k !in todo && Listed(leases, now, service, k)
        decreases |todo|
      {
        var k :| k in todo;
        todo := todo - {k};
        if Prefix(service) <= k && Live(leases[k], now) {
          keys := keys + [k];
        }
      }
    }

    method StartRound(service: string)
      requires Valid() && round.None? && Plain(service)
      modifies this`round, this`history
      ensures Valid() && round.Some? && Enabled(old(Now()), Keys(service, round.value.keys))
      ensures Distinct(round.value.keys) && forall k :: k in round.value.keys <==>
        k in leases && "im:service:" + service + ":" <= k && now <= leases[k].renewed + 10
      ensures Now() == Apply(old(Now()), Keys(service, round.value.keys))
      ensures history == old(history) + [Keys(service, round.value.keys)]
    {
      ghost var before := Now();
      var keys := LiveKeys(service);
      round := Some(Round(service, now, leases, keys, 0, []));
      hide Exec, Plain, Listed;
      Record(Keys(service, keys), before);
    }

    /** GET of the round's next key; an empty answer is not kept. */
    method GetNext()
      requires Valid() && Enabled(Now(), Get)
      modifies this`round, this`history
      ensures Valid() && Now() == Apply(old(Now()), Get) && history == old(history) + [Get]
      ensures var r := old(round.value);
        var k := r.keys[r.asked];
        round == Some(r.(asked := r.asked + 1, found := r.found
          + if k in leases && now <= leases[k].renewed + 10 && leases[k].value != "" then [leases[k].value] else []))
    {
      ghost var before := Now();
      var r := round.value;
      var k := r.keys[r.asked];
      var val := if k in leases && Live(leases[k], now) then leases[k].value else "";
      var found := r.found;
      if val != "" {
        found := found + [val];
      }
      round := Some(r.(asked := r.asked + 1, found := found));
      assert r.found + [] == r.found;
      hide Exec;
      Record(Get, before);
    }

    method PublishRound()
      requires Valid() && Enabled(Now(), Publish)
      modifies this`round, this`cache, this`history
      ensures Valid() && Now() == Apply(old(Now()), Publish) && history == old(history) + [Publish]
      ensures round.None? && cache == old(cache)[old(round.value).service := Cached(old(round.value).started, old(round.value).found)]
    {
      ghost var before := Now();
      var r := round.value;
      cache := cache[r.service := Cached(r.started, r.found)];
      round := None;
      hide Exec;
      Record(Publish, before);
    }

    /** One service's turn of RefreshCache, with anything that may happen between its commands. */
    method RefreshService(service: string)
      requires Valid() && round.None? && Plain(service)
      modifies this`now, this`leases, this`cache, this`round, this`history
      ensures Valid() && round.None? && Onward(old(Now()), Now()) && old(history) <= history
      ensures service in cache && cache == old(cache)[service := cache[service]]
      ensures Refreshed(Now(), service, old(now), old(leases))
    {
      ghost var start := Now();
      ValidInv();
      assert Onward(start, start);
      hide Enabled, Apply, Exec, Inv, Reachable;
      StartRound(service);
      RoundStarted(start, Now(), service);
      ghost var r0 := round.value;
      while round.value.asked < |round.value.keys|
        invariant Valid() && Onward(start, Now()) && start.cache == cache && old(history) <= history
        invariant round.Some? && SameRound(r0, round.value) && round.value.asked <= |r0.keys|
        decreases |r0.keys| - round.value.asked
      {
        ghost var before := Now();
        GetNext();
        GetStep(before, Now());
        Meanwhile();
        OnwardTwice(start, before, Now());
      }
      ghost var last := Now();
      ValidInv();
      PublishRound();
      Published(start, r0, last, Now());
    }

    /** Every observed service is refreshed, no other service's list is touched. */
    method RefreshCache()
      requires Valid() && round.None? && forall t <- observed :: Plain(t)
      modifies this`now, this`leases, this`cache, this`round, this`history
      ensures Valid() && round.None? && Onward(old(Now()), Now()) && old(history) <= history
      ensures cache.Keys == old(cache.Keys) + set t <- observed
      ensures forall t <- old(cache) | t !in observed :: cache[t] == old(cache)[t]
      ensures forall t <- observed :: Refreshed(Now(), t, old(now), old(leases))
    {
      ghost var start := Now();
      assert Onward(start, start);
      hide Exec, Onward, Refreshed;
      var targets := observed;
      for i := 0 to |targets|
        invariant Valid() && round.None? && Onward(start, Now()) && old(history) <= history
        invariant cache.Keys == start.cache.Keys + set t <- targets[..i]
        invariant forall t <- start.cache | t !in targets[..i] :: cache[t] == start.cache[t]
        invariant forall t <- targets[..i] :: Refreshed(Now(), t, start.now, start.leases)
      {
        ghost var before := Now();
        RefreshService(targets[i]);
        assert targets[..i + 1] == targets[..i] + [targets[i]];
        StillRefreshed(start, before, Now(), targets[i], targets[..i]);
      }
      assert targets[..|targets|] == targets;
    }

    /** The direct query for a service with no cached address: exactly the addresses alive now. */
    method Query(service: string) returns (addresses: seq<string>)
      requires Valid() && Plain(service)
      ensures Distinct(addresses) && forall a :: a in addresses <==> Alive(leases, now, service, a)
    {
      ValidInv();
      hide Exec, Key, Prefix, Plain;
      var keys := LiveKeys(service);
      addresses := [];
      for i := 0 to |keys|
        invariant |addresses| == i
        invariant forall j | 0 <= j < i :: keys[j] in leases && addresses[j] == leases[keys[j]].value
      {
        assert keys[i] in keys;
        var val := leases[keys[i]].value;
        if val != "" {
          addresses := addresses + [val];
        }
      }
      AnswersAlive(Now(), service, keys, addresses);
    }

    /** The list is the cached one or, where that is empty, what is alive now; one step of the rotation
        on it. No address, no answer and no step. */
    method Discover(service: string) returns (selected: string, ghost list: seq<string>)
      requires Valid() && Plain(service)
      modifies this`rrIndex
      ensures service in cache && cache[service].addresses != [] ==> list == cache[service].addresses
      ensures service !in cache || cache[service].addresses == [] ==>
        Distinct(list) && forall a :: a in list <==> Alive(leases, now, service, a)
      ensures list == [] ==> selected == "" && rrIndex == old(rrIndex)
      ensures var idx := if service in old(rrIndex) then old(rrIndex)[service] else 0;
        list != [] ==>
        var p := if 0 <= idx < |list| then idx else 0;
        selected == list[p] && rrIndex == old(rrIndex)[service := if p + 1 == |list| then 0 else p + 1]
    {
      hide Exec, Alive;
      var addresses := [];
      if service in cache {
        addresses := cache[service].addresses;
      }
      if addresses == [] {
        addresses := Query(service);
      }
      list := addresses;
      hide *;
      if addresses == [] {
        return "", list;
      }
      selected := Rotate(service, addresses);
    }

    /** Round robin under the lock. */
    method Rotate(service: string, addresses: seq<string>) returns (selected: string)
      requires addresses != []
      modifies this`rrIndex
      ensures var idx := if service in old(rrIndex) then old(rrIndex)[service] else 0;
        var p := if 0 <= idx < |addresses| then idx else 0;
        selected == addresses[p] && rrIndex == old(rrIndex)[service := if p + 1 == |addresses| then 0 else p + 1]
    {
      var idx := if service in rrIndex then rrIndex[service] else 0;
      if idx < 0 || idx >= |addresses| {
        idx := 0;
      }
      selected := addresses[idx];
      Wrapped(idx, 1, |addresses|);
      rrIndex := rrIndex[service := (idx + 1) % |addresses|];
    }

    method Observe(service: string)
      requires Distinct(observed)
      modifies this`observed
      ensures Distinct(observed)
      ensures observed == if service in old(observed) then old(observed) else old(observed) + [service]
    {
      for i := 0 to |observed|
        invariant service !in observed[..i]
      {
        if observed[i] == service {
          return;
        }
      }
      observed := observed + [service];
    }
  }
}
