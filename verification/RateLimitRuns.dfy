/** Whole runs of the rate limiter: which addresses keep their bucket, and how many requests get through. */
module RateLimitRuns {
  import opened RateLimit

  /** order is the map order an eviction at this request would scan in. */
  datatype Request = Request(ip: string, now: real, order: seq<string>)

  /** Every eviction scans all entries, and time does not run backwards. */
  ghost predicate Legal(run: seq<Request>, limits: Limits)
    decreases |run|, 0
  {
    run == [] ||
    var front, last := run[..|run| - 1], run[|run| - 1];
    && Legal(front, limits)
    && Enumerates(last.order, Final(front, limits).Keys)
    && (front != [] ==> front[|front| - 1].now <= last.now)
  }

  ghost function Final(run: seq<Request>, limits: Limits): Store
    requires Legal(run, limits)
    decreases |run|, 1
  {
    if run == [] then map[]
    else
      var front, last := run[..|run| - 1], run[|run| - 1];
      Serve(Final(front, limits), last.ip, last.now, last.order, limits).1
  }

  /** No two requests at one reading of the clock. */
  predicate Increasing(run: seq<Request>) {
    run == [] ||
    var front, last := run[..|run| - 1], run[|run| - 1];
    Increasing(front) && (front != [] ==> front[|front| - 1].now < last.now)
  }

  predicate Requested(run: seq<Request>, ip: string) {
    exists i :: 0 <= i < |run| && run[i].ip == ip
  }

  /** When the address made its last request. */
  function LastSeen(run: seq<Request>, ip: string): real
    requires Requested(run, ip)
  {
    var last := run[|run| - 1];
    if last.ip == ip then last.now else LastSeen(run[..|run| - 1], ip)
  }

  /** The other addresses that arrived since the last request of this one. */
  function Since(run: seq<Request>, ip: string): set<string> {
    if run == [] || run[|run| - 1].ip == ip then {} else Since(run[..|run| - 1], ip) + {run[|run| - 1].ip}
  }

  lemma {:induction false} SinceMeansLater(run: seq<Request>, ip: string)
    requires Increasing(run) && Requested(run, ip)
    ensures LastSeen(run, ip) <= run[|run| - 1].now
    ensures LastSeen(run, ip) == run[|run| - 1].now ==> run[|run| - 1].ip == ip
    ensures forall q :: q in Since(run, ip) <==> q != ip && Requested(run, q) && LastSeen(run, ip) < LastSeen(run, q)
  {
    var front, last := run[..|run| - 1], run[|run| - 1];
    assert run == front + [last];
    if last.ip != ip {
      assert Requested(front, ip);
      SinceMeansLater(front, ip);
    }
    forall q
      ensures q in Since(run, ip) <==> q != ip && Requested(run, q) && LastSeen(run, ip) < LastSeen(run, q)
    {
      if q != ip && Requested(run, q) {
        if q != last.ip {
          assert Requested(front, q);
          SinceMeansLater(front, q);
        }
      }
      if q in Since(run, ip) && q != last.ip && last.ip != ip {
        assert Requested(front, q);
        var i :| 0 <= i < |front| && front[i].ip == q;
        assert run[i].ip == q;
      }
      if q == last.ip {
        assert run[|run| - 1].ip == q;
      }
    }
  }

  /** The store is exactly the set of addresses with fewer than Capacity distinct others since their last request. */
  ghost predicate MostRecent(s: Store, run: seq<Request>, limits: Limits) {
    && (forall ip :: ip in s <==> Requested(run, ip) && |Since(run, ip)| < Capacity(limits))
    && (forall ip | ip in s :: Requested(run, ip) && s[ip].lastSeen == LastSeen(run, ip))
    && |s| <= Capacity(limits)
  }

  lemma SubsetSize(a: set<string>, b: set<string>)
    requires a <= b
    ensures |a| <= |b|
    ensures |a| == |b| ==> a == b
  {
    assert b == a + (b - a);
  }

  /** The later addresses of a stored one are all stored too. */
  lemma LaterOnesAreStored(s: Store, run: seq<Request>, limits: Limits, ip: string)
    requires Legal(run, limits) && Increasing(run) && MostRecent(s, run, limits) && ip in s
    ensures Since(run, ip) <= s.Keys - {ip}
    ensures forall q | q in Since(run, ip) :: s[ip].lastSeen < s[q].lastSeen
    ensures forall q | q in s && q != ip && s[ip].lastSeen <= s[q].lastSeen :: q in Since(run, ip)
  {
    SinceMeansLater(run, ip);
    forall q | q in Since(run, ip)
      ensures q in s
    {
      LaterHasFewer(run, ip, q);
    }
    forall q | q in s && q != ip && s[ip].lastSeen <= s[q].lastSeen
      ensures q in Since(run, ip)
    {
      if s[ip].lastSeen == s[q].lastSeen {
        SameTimeSameAddress(run, ip, q);
      }
    }
  }

  lemma LaterHasFewer(run: seq<Request>, ip: string, q: string)
    requires Increasing(run) && Requested(run, ip) && q in Since(run, ip)
    ensures Requested(run, q) && |Since(run, q)| <= |Since(run, ip)|
  {
    SinceMeansLater(run, ip);
    SinceMeansLater(run, q);
    SubsetSize(Since(run, q), Since(run, ip));
  }

  lemma {:induction false} SameTimeSameAddress(run: seq<Request>, a: string, b: string)
    requires Increasing(run) && Requested(run, a) && Requested(run, b)
    requires LastSeen(run, a) == LastSeen(run, b)
    ensures a == b
  {
    var front, last := run[..|run| - 1], run[|run| - 1];
    SinceMeansLater(run, a);
    SinceMeansLater(run, b);
    if a != last.ip && b != last.ip {
      assert Requested(front, a) && Requested(front, b);
      SameTimeSameAddress(front, a, b);
    }
  }

  predicate Addresses(run: seq<Request>) {
    forall i | 0 <= i < |run| :: run[i].ip != ""
  }

  lemma SinceAppend(front: seq<Request>, last: Request, ip: string)
    ensures Since(front + [last], ip) == if last.ip == ip then {} else Since(front, ip) + {last.ip}
    ensures Requested(front + [last], ip) <==> last.ip == ip || Requested(front, ip)
    ensures Requested(front, ip) ==>
      LastSeen(front + [last], ip) == if last.ip == ip then last.now else LastSeen(front, ip)
    ensures last.ip == ip ==> LastSeen(front + [last], ip) == last.now
  {
    var run := front + [last];
    assert run[..|run| - 1] == front;
    if last.ip == ip {
      assert run[|run| - 1].ip == ip;
    }
    if Requested(front, ip) {
      var i :| 0 <= i < |front| && front[i].ip == ip;
      assert run[i].ip == ip;
    }
  }

  /** What an address other than the requester must have for it to stay. */
  lemma OtherStays(s: Store, front: seq<Request>, last: Request, limits: Limits, victim: string, ip: string)
    requires Legal(front, limits) && Increasing(front) && MostRecent(s, front, limits) && ip != last.ip
    requires last.ip in s ==> victim == last.ip
    requires last.ip !in s ==> if |s| == Capacity(limits) then IsOldest(s, victim) else victim !in s
    ensures Requested(front + [last], ip) && |Since(front + [last], ip)| < Capacity(limits)
      <==> ip in s && (last.ip in s || ip != victim)
  {
    var run := front + [last];
    SinceAppend(front, last, ip);
    if ip in s {
      LaterOnesAreStored(s, front, limits, ip);
      var others := s.Keys - {ip};
      SubsetSize(Since(front, ip), others);
      if last.ip in s {
        SubsetSize(Since(run, ip), others);
      } else if ip == victim {
        assert Since(front, ip) == others by {
          forall q | q in others
            ensures q in Since(front, ip)
          {
            assert s[ip].lastSeen <= s[q].lastSeen;
          }
        }
        assert |Since(run, ip)| == |others| + 1;
      } else if |s| == Capacity(limits) {
        assert victim !in Since(front, ip);
        SubsetSize(Since(front, ip), others - {victim});
      }
    } else if Requested(front, ip) {
      SubsetSize(Since(front, ip), Since(run, ip));
    }
  }

  /** Which entry making room drops: the oldest one if the store is full. */
  lemma RoomMade(s: Store, order: seq<string>, limits: Limits) returns (victim: string, room: Store)
    requires Enumerates(order, s.Keys) && "" !in s && |s| <= Capacity(limits)
    ensures room == if |s| >= limits.maxEntries then Evict(s, order) else s
    ensures if |s| == Capacity(limits) then IsOldest(s, victim) else victim == ""
    ensures forall q :: q in room <==> q in s && q != victim
    ensures forall q | q in room :: room[q] == s[q]
    ensures |room| < Capacity(limits)
  {
    victim, room := "", s;
    if |s| == Capacity(limits) {
      ScanFindsOldest(s, order);
      victim := Scan(s, order);
      room := s - {victim};
      assert room.Keys == s.Keys - {victim};
    } else if |s| >= limits.maxEntries {
      assert s == map[];
    }
  }

  /** Spending a token changes no more than the requester's bucket. */
  ghost predicate OnlySpent(t: Store, s': Store, ip: string, now: real) {
    && ip in t && s'.Keys == t.Keys && s'[ip].lastSeen == t[ip].lastSeen == now
    && forall q | q in s' && q != ip :: s'[q] == t[q]
  }

  lemma ServeSlots(s: Store, last: Request, limits: Limits) returns (t: Store, s': Store)
    requires forall q | q in last.order :: q in s
    ensures t == Touch(s, last.ip, last.now, last.order, limits)
    ensures s' == Serve(s, last.ip, last.now, last.order, limits).1
    ensures OnlySpent(t, s', last.ip, last.now)
  {
    t := Touch(s, last.ip, last.now, last.order, limits);
    s' := Serve(s, last.ip, last.now, last.order, limits).1;
  }

  /** A known address drops nothing; for a new one victim is what making room dropped, if anything. */
  lemma TouchKeys(s: Store, last: Request, limits: Limits, t: Store) returns (victim: string)
    requires Enumerates(last.order, s.Keys) && "" !in s && |s| <= Capacity(limits) && last.ip != ""
    requires t == Touch(s, last.ip, last.now, last.order, limits)
    ensures forall q | q != last.ip :: q in t <==> q in s && q != victim
    ensures forall q | q in t && q != last.ip :: t[q] == s[q]
    ensures |t| <= Capacity(limits)
    ensures last.ip in s ==> victim == last.ip
    ensures last.ip !in s ==> if |s| == Capacity(limits) then IsOldest(s, victim) else victim == ""
  {
    if last.ip in s {
      victim := last.ip;
    } else {
      var room;
      victim, room := RoomMade(s, last.order, limits);
      Grown(room, last.ip, t[last.ip]);
    }
  }

  lemma Grown(s: Store, ip: string, slot: Slot)
    ensures |s[ip := slot]| <= |s| + 1
  {
    assert s[ip := slot].Keys == s.Keys + {ip};
  }

  lemma RecentAfter(s: Store, front: seq<Request>, last: Request, limits: Limits, t: Store, s': Store)
    requires Legal(front, limits) && Increasing(front) && Addresses(front) && last.ip != "" && MostRecent(s, front, limits)
    requires Enumerates(last.order, s.Keys)
    requires t == Touch(s, last.ip, last.now, last.order, limits) && OnlySpent(t, s', last.ip, last.now)
    ensures MostRecent(s', front + [last], limits)
  {
    var run := front + [last];
    assert "" !in s;
    var victim := TouchKeys(s, last, limits, t);
    assert |s'.Keys| == |t.Keys|;
    forall ip
      ensures ip in s' <==> Requested(run, ip) && |Since(run, ip)| < Capacity(limits)
      ensures ip in s' ==> s'[ip].lastSeen == LastSeen(run, ip)
    {
      SinceAppend(front, last, ip);
      if ip != last.ip {
        OtherStays(s, front, last, limits, victim, ip);
      }
    }
  }

  lemma ServeKeepsMostRecent(s: Store, front: seq<Request>, last: Request, limits: Limits)
    requires Legal(front, limits) && Increasing(front) && Addresses(front) && last.ip != "" && MostRecent(s, front, limits)
    requires Enumerates(last.order, s.Keys)
    ensures MostRecent(Serve(s, last.ip, last.now, last.order, limits).1, front + [last], limits)
  {
    var t, s' := ServeSlots(s, last, limits);
    RecentAfter(s, front, last, limits, t, s');
  }

  /**
   Over every run the store holds exactly the most recently seen addresses, at most max(1, maxEntries) of
   them: an address keeps its limiter iff fewer distinct others have arrived since its last request.
   */
  lemma {:induction false} StoreIsMostRecent(run: seq<Request>, limits: Limits)
    requires Legal(run, limits) && Increasing(run) && Addresses(run)
    ensures MostRecent(Final(run, limits), run, limits)
  {
    if run != [] {
      var front, last := run[..|run| - 1], run[|run| - 1];
      assert run == front + [last];
      StoreIsMostRecent(front, limits);
      ServeKeepsMostRecent(Final(front, limits), front, last, limits);
    }
  }

  /** A request of one address leaves the bucket of every other address that stays as it was. */
  lemma OthersKeepTheirBucket(s: Store, ip: string, now: real, order: seq<string>, limits: Limits, q: string)
    requires Enumerates(order, s.Keys) && q != ip && q in Serve(s, ip, now, order, limits).1
    ensures q in s && Serve(s, ip, now, order, limits).1[q] == s[q]
  {
  }

  /** The bucket a request of the address finds: the one its last request left, or a full one if it is not among the most recent. */
  function FoundBucket(run: seq<Request>, limits: Limits, ip: string, now: real): Bucket
    decreases |run|, 1
  {
    if Requested(run, ip) && |Since(run, ip)| < Capacity(limits) then OwnBucket(run, limits, ip) else Bucket(limits.burst as real, now)
  }

  /** What the last request of the address left in its bucket, from the run alone. */
  function OwnBucket(run: seq<Request>, limits: Limits, ip: string): Bucket
    requires Requested(run, ip)
    decreases |run|, 0
  {
    var front, last := run[..|run| - 1], run[|run| - 1];
    assert run == front + [last];
    if last.ip == ip then Spend(FoundBucket(front, limits, ip, last.now), limits, last.now).1 else OwnBucket(front, limits, ip)
  }

  lemma ServeOwn(s: Store, front: seq<Request>, last: Request, limits: Limits)
    requires Legal(front, limits) && MostRecent(s, front, limits) && Enumerates(last.order, s.Keys)
    requires forall ip | ip in s :: s[ip].bucket == OwnBucket(front, limits, ip)
    ensures var (allowed, s') := Serve(s, last.ip, last.now, last.order, limits);
      && last.ip in s'
      && (allowed, s'[last.ip].bucket) == Spend(FoundBucket(front, limits, last.ip, last.now), limits, last.now)
  {
  }

  /**
   Over every run each address is limited as if it had a token bucket of its own that no other address touches, replaced by a
   full one exactly when max(1, maxEntries) others came in between: every stored bucket and every decision is that one's.
   */
  lemma {:induction false} LimitersAreOwn(run: seq<Request>, limits: Limits)
    requires Legal(run, limits) && Increasing(run) && Addresses(run)
    ensures forall ip | ip in Final(run, limits) :: Requested(run, ip) && Final(run, limits)[ip].bucket == OwnBucket(run, limits, ip)
    ensures run != [] ==>
      var front, last := run[..|run| - 1], run[|run| - 1];
      Serve(Final(front, limits), last.ip, last.now, last.order, limits).0
        == Spend(FoundBucket(front, limits, last.ip, last.now), limits, last.now).0
  {
    StoreIsMostRecent(run, limits);
    if run != [] {
      hide Serve, Spend, FoundBucket;
      var front, last := run[..|run| - 1], run[|run| - 1];
      LimitersAreOwn(front, limits);
      StoreIsMostRecent(front, limits);
      var s := Final(front, limits);
      ServeOwn(s, front, last, limits);
      forall ip | ip in Final(run, limits) && ip != last.ip
        ensures Final(run, limits)[ip].bucket == OwnBucket(run, limits, ip)
      {
        OthersKeepTheirBucket(s, last.ip, last.now, last.order, limits, ip);
      }
    }
  }
}

/** How many requests of one address a run admits. */
module RateLimitBound {
  import opened RateLimit
  import opened RateLimitRuns

  /** 1 if the request is admitted and comes from the address. */
  function AdmittedBy(s: Store, r: Request, limits: Limits, ip: string): nat
    requires forall q | q in r.order :: q in s
  {
    if r.ip == ip && Serve(s, r.ip, r.now, r.order, limits).0 then 1 else 0
  }

  /** 1 if the request evicts the address. */
  function EvictedBy(s: Store, r: Request, limits: Limits, ip: string): nat
    requires forall q | q in r.order :: q in s
  {
    if ip in s && ip !in Serve(s, r.ip, r.now, r.order, limits).1 then 1 else 0
  }

  ghost function Admitted(run: seq<Request>, limits: Limits, ip: string): nat
    requires Legal(run, limits)
  {
    if run == [] then 0
    else Admitted(run[..|run| - 1], limits, ip) + AdmittedBy(Final(run[..|run| - 1], limits), run[|run| - 1], limits, ip)
  }

  ghost function Evicted(run: seq<Request>, limits: Limits, ip: string): nat
    requires Legal(run, limits)
  {
    if run == [] then 0
    else Evicted(run[..|run| - 1], limits, ip) + EvictedBy(Final(run[..|run| - 1], limits), run[|run| - 1], limits, ip)
  }

  /** k full buckets. */
  function Credit(k: nat, limits: Limits): real {
    if k == 0 then 0.0 else Credit(k - 1, limits) + limits.burst as real
  }

  lemma {:induction false} CreditIsProduct(k: nat, limits: Limits)
    ensures Credit(k, limits) == (k * limits.burst) as real
  {
    if k > 0 {
      CreditIsProduct(k - 1, limits);
      assert k * limits.burst == (k - 1) * limits.burst + limits.burst;
    }
  }

  function Product(x: real, y: real): real {
    x * y
  }

  /** What the refill has given by each point of time. It never takes anything back. */
  ghost predicate Monotone(refill: real -> real) {
    forall a: real, b: real | a <= b :: refill(a) <= refill(b)
  }

  ghost predicate AtRate(refill: real -> real, rps: real) {
    forall a: real, b: real | a <= b :: refill(b) - refill(a) == Product(rps, b - a)
  }

  /** What was admitted and what the bucket still holds, against one burst per bucket and the refill so far. */
  predicate Accounted(s: Store, ip: string, limits: Limits, admitted: nat, evicted: nat, refill: real -> real, now: real) {
    if ip in s then
      var b := s[ip].bucket;
      && 0.0 <= b.tokens && b.last <= now
      && admitted as real + b.tokens <= Credit(evicted + 1, limits) + refill(b.last)
    else admitted as real <= Credit(evicted, limits) + refill(now)
  }

  /** Spending never lets tokens appear beyond the refill. */
  lemma SpendAccount(b: Bucket, limits: Limits, now: real, admitted: real, credit: real, before: real, after: real)
    requires 0.0 <= b.tokens && b.last <= now
    requires before <= after && after - before == Product(limits.rps, now - b.last)
    requires admitted + b.tokens <= credit + before
    ensures var (allowed, b') := Spend(b, limits, now);
      && 0.0 <= b'.tokens
      && if allowed then b'.last == now && admitted + 1.0 + b'.tokens <= credit + after else b' == b
  {
    var refilled := b.tokens + limits.rps * (now - b.last);
    assert refilled == b.tokens + (after - before);
    assert Refilled(b, limits, now) <= refilled;
  }

  /** The bucket of a request in the account, fresh or as it was left. */
  lemma OwnRequest(s: Store, s': Store, ip: string, limits: Limits, admitted: nat, evicted: nat, refill: real -> real, now: real, later: real, t: Bucket)
    requires Monotone(refill) && AtRate(refill, limits.rps) && now <= later
    requires Accounted(s, ip, limits, admitted, evicted, refill, now)
    requires t == if ip in s then s[ip].bucket else Bucket(limits.burst as real, later)
    requires ip in s' && s'[ip].bucket == Spend(t, limits, later).1
    ensures Accounted(s', ip, limits, admitted + if Spend(t, limits, later).0 then 1 else 0, evicted, refill, later)
  {
    var before, after := refill(t.last), refill(later);
    assert before <= after && after - before == Product(limits.rps, later - t.last);
    assert admitted as real + t.tokens <= Credit(evicted + 1, limits) + before by {
      if ip !in s {
        assert refill(now) <= refill(later);
      }
    }
    SpendAccount(t, limits, later, admitted as real, Credit(evicted + 1, limits), before, after);
  }

  /** The tokens of an evicted bucket are forgone, its burst is not given back. */
  lemma OthersRequest(s: Store, s': Store, ip: string, limits: Limits, admitted: nat, evicted: nat, refill: real -> real, now: real, later: real)
    requires Monotone(refill) && now <= later && Accounted(s, ip, limits, admitted, evicted, refill, now)
    requires ip in s' ==> ip in s && s'[ip] == s[ip]
    ensures Accounted(s', ip, limits, admitted, evicted + if ip in s && ip !in s' then 1 else 0, refill, later)
  {
    if ip in s {
      assert refill(s[ip].bucket.last) <= refill(later);
    } else {
      assert refill(now) <= refill(later);
    }
  }

  /** One request of any address keeps the account of this one. */
  lemma StepAccounted(s: Store, r: Request, limits: Limits, ip: string, admitted: nat, evicted: nat, refill: real -> real, now: real)
    requires Monotone(refill) && AtRate(refill, limits.rps) && now <= r.now && Accounted(s, ip, limits, admitted, evicted, refill, now)
    requires Enumerates(r.order, s.Keys)
    ensures Accounted(Serve(s, r.ip, r.now, r.order, limits).1, ip, limits,
                      admitted + AdmittedBy(s, r, limits, ip), evicted + EvictedBy(s, r, limits, ip), refill, r.now)
  {
    var s' := Serve(s, r.ip, r.now, r.order, limits).1;
    if r.ip == ip {
      var t := OwnBucket(s, r, limits);
      OwnRequest(s, s', ip, limits, admitted, evicted, refill, now, r.now, t);
    } else {
      if ip in s' {
        OthersKeepTheirBucket(s, r.ip, r.now, r.order, limits, ip);
      }
      OthersRequest(s, s', ip, limits, admitted, evicted, refill, now, r.now);
    }
  }

  /** What a request does to its own bucket. */
  lemma OwnBucket(s: Store, r: Request, limits: Limits) returns (t: Bucket)
    requires forall q | q in r.order :: q in s
    ensures t == if r.ip in s then s[r.ip].bucket else Bucket(limits.burst as real, r.now)
    ensures var (allowed, s') := Serve(s, r.ip, r.now, r.order, limits);
      allowed == Spend(t, limits, r.now).0 && r.ip in s' && s'[r.ip].bucket == Spend(t, limits, r.now).1
  {
    t := Touch(s, r.ip, r.now, r.order, limits)[r.ip].bucket;
  }

  /** The account after the whole run, handed on as plain values. */
  lemma {:induction false} RunIsAccounted(run: seq<Request>, limits: Limits, ip: string, refill: real -> real)
    returns (s: Store, admitted: nat, evicted: nat)
    requires run != [] && Legal(run, limits) && Monotone(refill) && AtRate(refill, limits.rps) && refill(run[0].now) == 0.0
    ensures s == Final(run, limits) && admitted == Admitted(run, limits, ip) && evicted == Evicted(run, limits, ip)
    ensures Accounted(s, ip, limits, admitted, evicted, refill, run[|run| - 1].now)
  {
    var front, last := run[..|run| - 1], run[|run| - 1];
    var now := run[0].now;
    s, admitted, evicted := map[], 0, 0;
    if front != [] {
      s, admitted, evicted := RunIsAccounted(front, limits, ip, refill);
      now := front[|front| - 1].now;
    }
    s, admitted, evicted := StepResult(s, last, limits, ip, admitted, evicted, refill, now);
  }

  lemma StepResult(s: Store, r: Request, limits: Limits, ip: string, admitted: nat, evicted: nat, refill: real -> real, now: real)
    returns (s': Store, admitted': nat, evicted': nat)
    requires Monotone(refill) && AtRate(refill, limits.rps) && now <= r.now && Enumerates(r.order, s.Keys)
    requires Accounted(s, ip, limits, admitted, evicted, refill, now)
    ensures s' == Serve(s, r.ip, r.now, r.order, limits).1
    ensures admitted' == admitted + AdmittedBy(s, r, limits, ip) && evicted' == evicted + EvictedBy(s, r, limits, ip)
    ensures Accounted(s', ip, limits, admitted', evicted', refill, r.now)
  {
    StepAccounted(s, r, limits, ip, admitted, evicted, refill, now);
    s' := Serve(s, r.ip, r.now, r.order, limits).1;
    admitted', evicted' := admitted + AdmittedBy(s, r, limits, ip), evicted + EvictedBy(s, r, limits, ip);
  }

  /** k bursts, and the refill of the elapsed time. */
  function Allowance(limits: Limits, k: nat, elapsed: real): real {
    (k * limits.burst) as real + limits.rps * elapsed
  }

  lemma ProductLaws(x: real, y: real, z: real)
    requires x >= 0.0 && z >= 0.0
    ensures Product(x, y + z) == Product(x, y) + Product(x, z)
    ensures Product(x, z) >= 0.0 && Product(x, 0.0) == 0.0
  {
  }

  /** The refill since start, at the limiter's rate. */
  lemma SteadyRefill(rps: real, start: real) returns (refill: real -> real)
    requires rps >= 0.0
    ensures Monotone(refill) && AtRate(refill, rps) && refill(start) == 0.0
  {
    hide Product;
    refill := (t: real) => Product(rps, t - start);
    ProductLaws(rps, 0.0, 0.0);
    forall a: real, b: real | a <= b
      ensures refill(b) - refill(a) == Product(rps, b - a)
      ensures refill(a) <= refill(b)
    {
      ProductLaws(rps, a - start, b - a);
      assert b - start == (a - start) + (b - a);
    }
  }

  lemma RunBound(run: seq<Request>, limits: Limits, ip: string) returns (admitted: nat, evicted: nat, gain: real)
    requires run != [] && Legal(run, limits) && limits.rps >= 0.0
    ensures admitted == Admitted(run, limits, ip) && evicted == Evicted(run, limits, ip)
    ensures gain == Product(limits.rps, run[|run| - 1].now - run[0].now)
    ensures admitted as real <= Credit(evicted + 1, limits) + gain
  {
    hide *;
    var start, now := run[0].now, run[|run| - 1].now;
    TimePasses(run, limits);
    var refill := SteadyRefill(limits.rps, start);
    var s, got, lost := RunIsAccounted(run, limits, ip, refill);
    admitted, evicted := got, lost;
    gain := GainOf(refill, limits.rps, start, now);
    AccountBound(s, ip, limits, admitted, evicted, refill, now);
  }

  lemma GainOf(refill: real -> real, rps: real, start: real, now: real) returns (gain: real)
    requires AtRate(refill, rps) && refill(start) == 0.0 && start <= now
    ensures gain == refill(now) && gain == Product(rps, now - start)
  {
    hide Product;
    gain := refill(now);
    assert refill(now) - refill(start) == Product(rps, now - start);
  }

  lemma {:induction false} TimePasses(run: seq<Request>, limits: Limits)
    requires run != [] && Legal(run, limits)
    ensures run[0].now <= run[|run| - 1].now
  {
    if |run| > 1 {
      TimePasses(run[..|run| - 1], limits);
    }
  }

  /** An address evicted k times is admitted at most (k + 1) * burst + rps * elapsed times. */
  lemma AdmissionBound(run: seq<Request>, limits: Limits, ip: string)
    requires run != [] && Legal(run, limits) && limits.rps >= 0.0
    ensures Admitted(run, limits, ip) as real
      <= Allowance(limits, Evicted(run, limits, ip) + 1, run[|run| - 1].now - run[0].now)
  {
    hide *;
    var admitted, evicted, gain := RunBound(run, limits, ip);
    CreditIsProduct(evicted + 1, limits);
    Total(admitted as real, Credit(evicted + 1, limits), gain, limits, evicted + 1, run[|run| - 1].now - run[0].now);
  }

  lemma Total(admitted: real, credit: real, gain: real, limits: Limits, k: nat, elapsed: real)
    requires admitted <= credit + gain && credit == (k * limits.burst) as real && gain == Product(limits.rps, elapsed)
    ensures admitted <= Allowance(limits, k, elapsed)
  {
  }

  lemma AccountBound(s: Store, ip: string, limits: Limits, admitted: nat, evicted: nat, refill: real -> real, now: real)
    requires Monotone(refill) && Accounted(s, ip, limits, admitted, evicted, refill, now)
    ensures admitted as real <= Credit(evicted + 1, limits) + refill(now)
  {
    if ip in s {
      assert refill(s[ip].bucket.last) <= refill(now);
    }
  }
}
