/** The bounded store of per-IP token buckets behind the rate-limit middleware. */
module RateLimit {

  // ---- Token buckets -------------------------------------------------------

  datatype Limits = Limits(rps: real, burst: nat, maxEntries: int)

  /** tokens were left at time last, in seconds. */
  datatype Bucket = Bucket(tokens: real, last: real)

  function Min(a: real, b: real): real {
    if a < b then a else b
  }

  function Refilled(b: Bucket, limits: Limits, now: real): real {
    if now < b.last then Min(limits.burst as real, b.tokens)
    else Min(limits.burst as real, b.tokens + limits.rps * (now - b.last))
  }

  /** One Allow: refill, then spend one token if there is one. A refusal changes nothing. */
  function Spend(b: Bucket, limits: Limits, now: real): (bool, Bucket) {
    var tokens := Refilled(b, limits, now) - 1.0;
    if limits.burst >= 1 && tokens >= 0.0 then (true, Bucket(tokens, now)) else (false, b)
  }

  // ---- The store as a value ------------------------------------------------

  datatype Slot = Slot(bucket: Bucket, lastSeen: real)
  type Store = map<string, Slot>

  ghost predicate Enumerates(order: seq<string>, keys: set<string>) {
    && (forall ip :: ip in order <==> ip in keys)
    && (forall i, j | 0 <= i < j < |order| :: order[i] != order[j])
  }

  /** The scan for the oldest entry in map order; "" doubles as its mark for "none yet". */
  function Scan(s: Store, order: seq<string>): (oldest: string)
    requires forall ip | ip in order :: ip in s
    ensures oldest == "" || oldest in order
  {
    if order == [] then ""
    else
      var front, ip := order[..|order| - 1], order[|order| - 1];
      assert forall q | q in front :: q in order;
      var oldest := Scan(s, front);
      if oldest == "" || s[ip].lastSeen < s[oldest].lastSeen then ip else oldest
  }

  function Evict(s: Store, order: seq<string>): Store
    requires forall ip | ip in order :: ip in s
  {
    if Scan(s, order) != "" then s - {Scan(s, order)} else s
  }

  /** Looking up the bucket of an address, making room and a full bucket for a new one. */
  function Touch(s: Store, ip: string, now: real, order: seq<string>, limits: Limits): (t: Store)
    requires forall q | q in order :: q in s
    ensures ip in t
  {
    if ip in s then s[ip := s[ip].(lastSeen := now)]
    else
      var room := if |s| >= limits.maxEntries then Evict(s, order) else s;
      room[ip := Slot(Bucket(limits.burst as real, now), now)]
  }

  /** One request: touch, then try to spend a token. order is the map order an eviction would scan in. */
  function Serve(s: Store, ip: string, now: real, order: seq<string>, limits: Limits): (bool, Store)
    requires forall q | q in order :: q in s
  {
    var t := Touch(s, ip, now, order, limits);
    var (allowed, bucket) := Spend(t[ip].bucket, limits, now);
    (allowed, t[ip := t[ip].(bucket := bucket)])
  }

  predicate IsOldest(s: Store, ip: string) {
    ip in s && forall q | q in s :: s[ip].lastSeen <= s[q].lastSeen
  }

  /** The entry under the empty address is older than all others. */
  predicate EmptyIsOldest(s: Store) {
    "" in s && forall q | q in s && q != "" :: s[""].lastSeen < s[q].lastSeen
  }

  predicate OldestOf(s: Store, order: seq<string>, ip: string)
    requires forall q | q in order :: q in s
  {
    ip in s && forall q | q in order :: s[ip].lastSeen <= s[q].lastSeen
  }

  lemma ScanNext(s: Store, order: seq<string>, ip: string)
    requires ip in s && forall q | q in order :: q in s
    ensures forall q | q in order + [ip] :: q in s
    ensures Scan(s, order + [ip]) == if Scan(s, order) == "" || s[ip].lastSeen < s[Scan(s, order)].lastSeen then ip else Scan(s, order)
  {
    assert (order + [ip])[..|order|] == order;
  }

  lemma {:induction false} ScanOfNamed(s: Store, order: seq<string>)
    requires (forall q | q in order :: q in s) && "" !in order && order != []
    ensures Scan(s, order) != "" && OldestOf(s, order, Scan(s, order))
  {
    var front, ip := order[..|order| - 1], order[|order| - 1];
    assert order == front + [ip] && Scan(s, []) == "";
    hide Scan;
    ScanNext(s, front, ip);
    if front != [] {
      ScanOfNamed(s, front);
    }
  }

  /** Some visited entry with a real address is at least as old as the one under the empty address. */
  ghost predicate Reached(s: Store, order: seq<string>)
    requires "" in s && forall q | q in order :: q in s
  {
    exists q :: q in order && q != "" && s[q].lastSeen <= s[""].lastSeen
  }

  /** From the first such entry on the scan holds an oldest one so far; before it, something younger than the empty address, or that. */
  lemma {:induction false} ScanWithEmpty(s: Store, order: seq<string>)
    requires "" in s && forall q | q in order :: q in s
    ensures Reached(s, order) ==> Scan(s, order) != "" && OldestOf(s, order, Scan(s, order))
    ensures !Reached(s, order) && Scan(s, order) != "" ==> s[""].lastSeen < s[Scan(s, order)].lastSeen
  {
    if order != [] {
      var front, ip := order[..|order| - 1], order[|order| - 1];
      assert order == front + [ip];
      ScanWithEmpty(s, front);
      ScanNext(s, front, ip);
      assert Reached(s, order) <==> Reached(s, front) || (ip != "" && s[ip].lastSeen <= s[""].lastSeen) by {
        if Reached(s, front) {
          var q :| q in front && q != "" && s[q].lastSeen <= s[""].lastSeen;
          assert q in order;
        }
      }
      if Reached(s, front) {
        OldestBelowEmpty(s, front);
      }
    }
  }

  lemma OldestBelowEmpty(s: Store, order: seq<string>)
    requires "" in s && (forall q | q in order :: q in s) && Reached(s, order) && OldestOf(s, order, Scan(s, order))
    ensures s[Scan(s, order)].lastSeen <= s[""].lastSeen
  {
  }

  /** Whatever the map order, the scan finds an oldest entry unless that is the empty address alone. */
  lemma ScanFindsOldest(s: Store, order: seq<string>)
    requires Enumerates(order, s.Keys) && s != map[] && !EmptyIsOldest(s)
    ensures Scan(s, order) != "" && IsOldest(s, Scan(s, order))
  {
    var some :| some in s;
    assert some in order;
    if "" in s {
      var named :| named in s && named != "" && s[named].lastSeen <= s[""].lastSeen;
      assert named in order;
      ScanWithEmpty(s, order);
    } else {
      ScanOfNamed(s, order);
    }
    assert forall q | q in s :: q in order;
  }

  /** If the empty address is the oldest, the map order that visits it last evicts nothing at all. */
  lemma EmptyAddressSurvives(s: Store, others: seq<string>)
    requires Enumerates(others, s.Keys - {""}) && EmptyIsOldest(s)
    ensures Enumerates(others + [""], s.Keys) && Scan(s, others + [""]) == "" && Evict(s, others + [""]) == s
  {
    var order := others + [""];
    assert order[..|order| - 1] == others;
    forall ip
      ensures ip in order <==> ip in s.Keys
    {
    }
  }

  function Capacity(limits: Limits): nat {
    if limits.maxEntries < 1 then 1 else limits.maxEntries
  }

  /** Every finite set can be visited in some order. */
  lemma {:induction false} SomeOrder(keys: set<string>) returns (order: seq<string>)
    ensures Enumerates(order, keys)
    decreases |keys|
  {
    order := [];
    if keys != {} {
      var key :| key in keys;
      var rest := SomeOrder(keys - {key});
      order := rest + [key];
    }
  }

  lemma SizeWith(s: Store, ip: string, slot: Slot)
    ensures |s[ip := slot]| == if ip in s then |s| else |s| + 1
  {
    assert s[ip := slot].Keys == s.Keys + {ip};
  }

  lemma SizeWithout(s: Store, ip: string)
    requires ip in s
    ensures |s - {ip}| == |s| - 1
  {
    assert (s - {ip}).Keys == s.Keys - {ip};
  }

  /** A request makes the store larger by the address, if it is new, and smaller by the one that is evicted, if any. */
  lemma ServeSize(s: Store, ip: string, now: real, order: seq<string>, limits: Limits)
    requires forall q | q in order :: q in s
    ensures |Serve(s, ip, now, order, limits).1|
      == if ip in s then |s| else if |s| >= limits.maxEntries && Scan(s, order) != "" then |s| else |s| + 1
  {
    var t := Touch(s, ip, now, order, limits);
    SizeWith(t, ip, Serve(s, ip, now, order, limits).1[ip]);
    if ip in s {
      SizeWith(s, ip, t[ip]);
    } else if |s| >= limits.maxEntries && Scan(s, order) != "" {
      SizeWithout(s, Scan(s, order));
      SizeWith(s - {Scan(s, order)}, ip, t[ip]);
    } else {
      SizeWith(s, ip, t[ip]);
    }
  }

  /** This request keeps the bound in every map order. */
  ghost predicate BoundKept(s: Store, ip: string, now: real, limits: Limits) {
    forall order | Enumerates(order, s.Keys) :: Fits(s, ip, now, order, limits)
  }

  predicate Fits(s: Store, ip: string, now: real, order: seq<string>, limits: Limits)
    requires forall q | q in order :: q in s
  {
    |Serve(s, ip, now, order, limits).1| <= Capacity(limits)
  }

  lemma BoundHolds(s: Store, ip: string, now: real, order: seq<string>, limits: Limits)
    requires |s| <= Capacity(limits) && Enumerates(order, s.Keys)
    requires ip in s || |s| < Capacity(limits) || !EmptyIsOldest(s)
    ensures |Serve(s, ip, now, order, limits).1| <= Capacity(limits)
  {
    ServeSize(s, ip, now, order, limits);
    if ip !in s && |s| == Capacity(limits) {
      assert s != map[];
      ScanFindsOldest(s, order);
    }
  }

  lemma BoundBroken(s: Store, ip: string, now: real, limits: Limits) returns (order: seq<string>)
    requires |s| == Capacity(limits) && ip !in s && EmptyIsOldest(s)
    ensures Enumerates(order, s.Keys) && |Serve(s, ip, now, order, limits).1| == Capacity(limits) + 1
  {
    var others := SomeOrder(s.Keys - {""});
    EmptyAddressSurvives(s, others);
    order := others + [""];
    ServeSize(s, ip, now, order, limits);
  }

  /** A request keeps the bound max(1, maxEntries) in every map order unless it is new, the store full, and the empty address the oldest; then some map order breaks it. */
  lemma BoundKeptExactly(s: Store, ip: string, now: real, limits: Limits)
    requires |s| <= Capacity(limits)
    ensures BoundKept(s, ip, now, limits) <==> ip in s || |s| < Capacity(limits) || !EmptyIsOldest(s)
  {
    if ip in s || |s| < Capacity(limits) || !EmptyIsOldest(s) {
      forall order | Enumerates(order, s.Keys)
        ensures Fits(s, ip, now, order, limits)
      {
        BoundHolds(s, ip, now, order, limits);
      }
    } else {
      var order := BoundBroken(s, ip, now, limits);
      assert !Fits(s, ip, now, order, limits);
    }
  }

  // ---- The store as the middleware runs it ---------------------------------

  class Limiter {
    const limits: Limits
    var tokens: real
    var last: real

    function View(): Bucket
      reads this
    {
      Bucket(tokens, last)
    }

    /** A new limiter is full, so it does not matter since when. */
    constructor (limits: Limits, now: real)
      ensures this.limits == limits && View() == Bucket(limits.burst as real, now)
    {
      this.limits, tokens, last := limits, limits.burst as real, now;
    }

    method Allow(now: real) returns (ok: bool)
      modifies this
      ensures (ok, View()) == Spend(old(View()), limits, now)
    {
      var elapsed := if now < last then 0.0 else now - last;
      ghost var before := View();
      assert now < last ==> limits.rps * elapsed == 0.0;
      var refilled := tokens + limits.rps * elapsed;
      if refilled > limits.burst as real {
        refilled := limits.burst as real;
      }
      assert refilled == Refilled(before, limits, now);
      refilled := refilled - 1.0;
      ok := limits.burst >= 1 && refilled >= 0.0;
      if ok {
        tokens, last := refilled, now;
      }
    }
  }

  datatype IpEntry = IpEntry(limiter: Limiter, lastSeen: real)

  ghost function LimitersOf(entries: map<string, IpEntry>): set<Limiter> {
    set ip | ip in entries :: entries[ip].limiter
  }

  ghost function ViewOf(entries: map<string, IpEntry>): Store
    reads LimitersOf(entries)
  {
    map ip | ip in entries :: Slot(entries[ip].limiter.View(), entries[ip].lastSeen)
  }

  /** Every address has a limiter of its own. */
  ghost predicate Separate(entries: map<string, IpEntry>, limits: Limits) {
    && (forall ip | ip in entries :: entries[ip].limiter.limits == limits)
    && (forall a, b | a in entries && b in entries && a != b :: entries[a].limiter != entries[b].limiter)
  }

  /** The entries of rest are still to be visited. */
  ghost predicate Visited(order: seq<string>, keys: set<string>, rest: set<string>) {
    && (forall ip :: ip in order <==> ip in keys && ip !in rest)
    && (forall i, j | 0 <= i < j < |order| :: order[i] != order[j])
  }

  lemma VisitNext(order: seq<string>, keys: set<string>, rest: set<string>, ip: string)
    requires Visited(order, keys, rest) && ip in rest && ip in keys
    ensures Visited(order + [ip], keys, rest - {ip})
  {
  }

  /** A Go map is ranged over in any order. */
  method FindOldest(entries: map<string, IpEntry>, ghost s: Store) returns (oldestIP: string, ghost order: seq<string>)
    requires s.Keys == entries.Keys && forall ip | ip in entries :: s[ip].lastSeen == entries[ip].lastSeen
    ensures Enumerates(order, entries.Keys) && oldestIP == Scan(s, order)
    ensures entries != map[] && !EmptyIsOldest(s) ==> oldestIP != "" && IsOldest(s, oldestIP)
  {
    oldestIP := "";
    var rest := entries.Keys;
    order := [];
    while rest != {}
      invariant rest <= entries.Keys
      invariant Visited(order, entries.Keys, rest)
      invariant oldestIP == Scan(s, order)
      decreases |rest|
    {
      var ip :| ip in rest;
      ScanNext(s, order, ip);
      VisitNext(order, entries.Keys, rest, ip);
      if oldestIP == "" || entries[ip].lastSeen < entries[oldestIP].lastSeen {
        oldestIP := ip;
      }
      rest := rest - {ip};
      order := order + [ip];
    }
    if entries != map[] && !EmptyIsOldest(s) {
      NotEmpty(s, entries);
      ScanFindsOldest(s, order);
    }
  }

  lemma NotEmpty(s: Store, entries: map<string, IpEntry>)
    requires s.Keys == entries.Keys && entries != map[]
    ensures s != map[]
  {
    var some :| some in entries;
    assert some in s;
  }

  class IpLimiterStore {
    const limits: Limits
    var limiters: map<string, IpEntry>

    ghost predicate Valid()
      reads this
    {
      Separate(limiters, limits)
    }

    ghost function View(): Store
      reads this, LimitersOf(limiters)
    {
      ViewOf(limiters)
    }

    constructor (limits: Limits)
      ensures this.limits == limits && Valid() && View() == map[]
    {
      this.limits, limiters := limits, map[];
    }

    method EvictOldest() returns (ghost order: seq<string>)
      requires Valid()
      modifies this`limiters
      ensures Valid() && LimitersOf(limiters) <= old(LimitersOf(limiters)) && limiters.Keys <= old(limiters.Keys)
      ensures Enumerates(order, old(limiters).Keys)
      ensures View() == Evict(old(View()), order)
    {
      var oldestIP;
      oldestIP, order := FindOldest(limiters, View());
      if oldestIP != "" {
        limiters := limiters - {oldestIP};
        assert View() == old(View()) - {oldestIP};
      }
    }

    method Get(ip: string, now: real) returns (limiter: Limiter, ghost order: seq<string>)
      requires Valid()
      modifies this`limiters
      ensures Valid() && ip in limiters && limiters[ip].limiter == limiter
      ensures LimitersOf(limiters) <= old(LimitersOf(limiters)) + {limiter}
      ensures limiter in old(LimitersOf(limiters)) || fresh(limiter)
      ensures Enumerates(order, old(limiters).Keys) || ip in old(limiters) || |old(limiters)| < limits.maxEntries
      ensures forall q | q in order :: q in old(View())
      ensures View() == Touch(old(View()), ip, now, order, limits)
    {
      order := [];
      if ip in limiters {
        limiter := Refresh(ip, now);
        return;
      }
      assert |View()| == |limiters| by { assert View().Keys == limiters.Keys; }
      if |limiters| >= limits.maxEntries {
        order := EvictOldest();
      }
      limiter := Add(ip, now);
    }

    /** The limiter of a known address, which counts as seen now. */
    method Refresh(ip: string, now: real) returns (limiter: Limiter)
      requires Valid() && ip in limiters
      modifies this`limiters
      ensures Valid() && limiter == old(limiters)[ip].limiter && limiters == old(limiters)[ip := IpEntry(limiter, now)]
      ensures View() == old(View())[ip := old(View())[ip].(lastSeen := now)]
    {
      limiters := limiters[ip := limiters[ip].(lastSeen := now)];
      limiter := limiters[ip].limiter;
      assert View() == old(View())[ip := old(View())[ip].(lastSeen := now)];
    }

    /** A full bucket for an address that has none. */
    method Add(ip: string, now: real) returns (limiter: Limiter)
      requires Valid() && ip !in limiters
      modifies this`limiters
      ensures Valid() && fresh(limiter) && limiters == old(limiters)[ip := IpEntry(limiter, now)]
      ensures View() == old(View())[ip := Slot(Bucket(limits.burst as real, now), now)]
    {
      ghost var room := View();
      limiter := new Limiter(limits, now);
      assert View() == room;
      limiters := limiters[ip := IpEntry(limiter, now)];
      assert View() == room[ip := Slot(limiter.View(), now)];
    }

    /** The middleware's decision for one request. */
    method RateLimit(ip: string, now: real) returns (allowed: bool, ghost order: seq<string>)
      requires Valid()
      modifies this, LimitersOf(limiters)
      ensures Valid()
      ensures Enumerates(order, old(limiters).Keys) || ip in old(limiters) || |old(limiters)| < limits.maxEntries
      ensures forall q | q in order :: q in old(View())
      ensures (allowed, View()) == Serve(old(View()), ip, now, order, limits)
    {
      var limiter: Limiter;
      limiter, order := Get(ip, now);
      ghost var touched := View();
      allowed := limiter.Allow(now);
      OneChanged(limiters, limits, ip, touched);
    }
  }

  /** Spending from one address's limiter leaves every other slot as it was. */
  lemma OneChanged(entries: map<string, IpEntry>, limits: Limits, ip: string, touched: Store)
    requires Separate(entries, limits) && ip in entries && touched.Keys == entries.Keys
    requires forall q | q in entries && q != ip :: touched[q] == Slot(entries[q].limiter.View(), entries[q].lastSeen)
    requires touched[ip].lastSeen == entries[ip].lastSeen
    ensures ViewOf(entries) == touched[ip := touched[ip].(bucket := entries[ip].limiter.View())]
  {
  }
}
