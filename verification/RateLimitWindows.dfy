/**
 Exactly when the rate limiter admits a request, from the decisions before it alone: iff since none of the address's own
 requests too many were admitted for the time that has passed.
 */
module RateLimitWindows {
  import opened RateLimit
  import opened RateLimitRuns
  import opened RateLimitBound

  /** Request j is the address's own, and the address has been in the store ever since. */
  ghost predicate Kept(run: seq<Request>, limits: Limits, ip: string, j: nat)
    requires Legal(run, limits)
  {
    j < |run| &&
    if j == |run| - 1 then run[j].ip == ip
    else Kept(run[..|run| - 1], limits, ip, j) && ip in Final(run, limits)
  }

  /** How many of its requests were admitted from request j on. */
  ghost function AdmittedFrom(run: seq<Request>, limits: Limits, ip: string, j: nat): nat
    requires Legal(run, limits)
  {
    if |run| <= j then 0
    else AdmittedFrom(run[..|run| - 1], limits, ip, j) + AdmittedBy(Final(run[..|run| - 1], limits), run[|run| - 1], limits, ip)
  }

  /** What is left at a time of a burst and the refill since request j, after what was admitted from it on. */
  ghost function Left(run: seq<Request>, limits: Limits, ip: string, j: nat, now: real): real
    requires Legal(run, limits) && j < |run|
  {
    limits.burst as real + Product(limits.rps, now - run[j].now) - AdmittedFrom(run, limits, ip, j) as real
  }

  /** The least of the burst and what is left since any kept request. */
  ghost predicate Least(run: seq<Request>, limits: Limits, ip: string, now: real, level: real)
    requires Legal(run, limits)
  {
    && level <= limits.burst as real
    && (forall j | Kept(run, limits, ip, j) :: level <= Left(run, limits, ip, j, now))
    && (level == limits.burst as real || exists j | Kept(run, limits, ip, j) :: level == Left(run, limits, ip, j, now))
  }

  // ---- One more request ------------------------------------------------------

  lemma {:induction false} KeptIsStored(run: seq<Request>, limits: Limits, ip: string, j: nat)
    requires Legal(run, limits) && Kept(run, limits, ip, j)
    ensures ip in Final(run, limits)
  {
  }

  /** What the last request, of the address or another, does to a window that is open already. */
  lemma OpenWindow(run: seq<Request>, limits: Limits, ip: string, j: nat, t: real, now: real, admitted: nat)
    requires run != [] && Legal(run, limits) && j < |run| - 1 && ip in Final(run, limits)
    requires admitted == AdmittedBy(Final(run[..|run| - 1], limits), run[|run| - 1], limits, ip)
    requires limits.rps >= 0.0 && run[j].now <= t <= now
    ensures Kept(run, limits, ip, j) <==> Kept(run[..|run| - 1], limits, ip, j)
    ensures Left(run, limits, ip, j, now) == Left(run[..|run| - 1], limits, ip, j, t) + Product(limits.rps, now - t) - admitted as real
  {
    hide Final, AdmittedBy, Product;
    assert run[..|run| - 1][j] == run[j];
    Passing(limits.rps, t - run[j].now, now - t);
    assert now - run[j].now == (t - run[j].now) + (now - t);
  }

  lemma Passing(rps: real, before: real, after: real)
    ensures Product(rps, before + after) == Product(rps, before) + Product(rps, after)
  {
  }

  lemma Gains(rps: real, elapsed: real)
    requires rps >= 0.0 && elapsed >= 0.0
    ensures Product(rps, elapsed) >= 0.0 && Product(rps, 0.0) == 0.0
  {
  }

  lemma RefilledIs(b: Bucket, limits: Limits, now: real)
    requires b.last <= now
    ensures Refilled(b, limits, now) == Min(limits.burst as real, b.tokens + Product(limits.rps, now - b.last))
  {
  }

  /** The window that the address's own request opens. */
  lemma NewWindow(run: seq<Request>, limits: Limits, ip: string, now: real, admitted: nat)
    requires run != [] && Legal(run, limits) && run[|run| - 1].ip == ip
    requires admitted == AdmittedBy(Final(run[..|run| - 1], limits), run[|run| - 1], limits, ip)
    ensures Kept(run, limits, ip, |run| - 1)
    ensures Left(run, limits, ip, |run| - 1, now) == limits.burst as real + Product(limits.rps, now - run[|run| - 1].now) - admitted as real
  {
    var j := |run| - 1;
    assert AdmittedFrom(run[..j], limits, ip, j) == 0;
  }

  lemma {:induction false} EarlierIsBefore(run: seq<Request>, limits: Limits, j: nat)
    requires Legal(run, limits) && j < |run|
    ensures run[j].now <= run[|run| - 1].now
  {
    if j < |run| - 1 {
      EarlierIsBefore(run[..|run| - 1], limits, j);
    }
  }

  /** Nothing was admitted to the address, and no window opened. */
  lemma OthersLeave(run: seq<Request>, limits: Limits, ip: string, now: real, level: real)
    requires run != [] && Legal(run, limits) && run[|run| - 1].ip != ip && ip in Final(run, limits) && limits.rps >= 0.0
    requires run[|run| - 1].now <= now && Least(run[..|run| - 1], limits, ip, now, level)
    ensures Least(run, limits, ip, now, level)
  {
    hide Kept, Left, Final, AdmittedFrom, Product;
    var front := run[..|run| - 1];
    forall j: nat | j < |front|
      ensures Kept(run, limits, ip, j) <==> Kept(front, limits, ip, j)
      ensures Left(run, limits, ip, j, now) == Left(front, limits, ip, j, now)
    {
      EarlierIsBefore(run, limits, j);
      Gains(limits.rps, 0.0);
      OpenWindow(run, limits, ip, j, now, now, 0);
    }
    NotKept(run, limits, ip);
    KeptIsEarlier(run, limits, ip);
    KeptIsEarlier(front, limits, ip);
  }

  lemma NotKept(run: seq<Request>, limits: Limits, ip: string)
    requires run != [] && Legal(run, limits) && run[|run| - 1].ip != ip
    ensures !Kept(run, limits, ip, |run| - 1)
  {
  }

  lemma KeptIsEarlier(run: seq<Request>, limits: Limits, ip: string)
    requires Legal(run, limits)
    ensures forall j: nat | Kept(run, limits, ip, j) :: j < |run|
  {
  }

  /** An admitted request costs one of what was left at its time, and opens a window with the burst less one. */
  lemma AdmittedLeaves(run: seq<Request>, limits: Limits, ip: string, now: real, level: real) returns (after: real)
    requires run != [] && Legal(run, limits) && run[|run| - 1].ip == ip && ip in Final(run, limits) && limits.rps >= 0.0
    requires AdmittedBy(Final(run[..|run| - 1], limits), run[|run| - 1], limits, ip) == 1
    requires var t := run[|run| - 1].now; t <= now && Least(run[..|run| - 1], limits, ip, t, level)
    ensures after == Min(limits.burst as real, level - 1.0 + Product(limits.rps, now - run[|run| - 1].now))
    ensures Least(run, limits, ip, now, after)
  {
    hide Kept, Left, Final, AdmittedFrom, Product, AdmittedBy;
    var front, t, n := run[..|run| - 1], run[|run| - 1].now, |run| - 1;
    var refill := Product(limits.rps, now - t);
    after := Min(limits.burst as real, level - 1.0 + refill);
    NewWindow(run, limits, ip, now, 1);
    forall j: nat | j < n
      ensures Kept(run, limits, ip, j) <==> Kept(front, limits, ip, j)
      ensures Left(run, limits, ip, j, now) == Left(front, limits, ip, j, t) + refill - 1.0
    {
      EarlierIsBefore(run, limits, j);
      OpenWindow(run, limits, ip, j, t, now, 1);
    }
    KeptIsEarlier(run, limits, ip);
    KeptIsEarlier(front, limits, ip);
    if after != limits.burst as real {
      if level == limits.burst as real {
        assert after == Left(run, limits, ip, n, now);
      } else {
        var j :| Kept(front, limits, ip, j) && level == Left(front, limits, ip, j, t);
        assert after == Left(run, limits, ip, j, now);
      }
    }
  }

  /** A refused request costs nothing, and the window that it opens has the whole burst. */
  lemma RefusedLeaves(run: seq<Request>, limits: Limits, ip: string, now: real, level: real)
    requires run != [] && Legal(run, limits) && run[|run| - 1].ip == ip && ip in Final(run, limits) && limits.rps >= 0.0
    requires AdmittedBy(Final(run[..|run| - 1], limits), run[|run| - 1], limits, ip) == 0
    requires run[|run| - 1].now <= now && Least(run[..|run| - 1], limits, ip, now, level)
    ensures Least(run, limits, ip, now, level)
  {
    hide Kept, Left, Final, AdmittedFrom, Product, AdmittedBy;
    var front, n := run[..|run| - 1], |run| - 1;
    NewWindow(run, limits, ip, now, 0);
    Gains(limits.rps, now - run[n].now);
    forall j: nat | j < n
      ensures Kept(run, limits, ip, j) <==> Kept(front, limits, ip, j)
      ensures Left(run, limits, ip, j, now) == Left(front, limits, ip, j, now)
    {
      EarlierIsBefore(run, limits, j);
      Gains(limits.rps, 0.0);
      OpenWindow(run, limits, ip, j, now, now, 0);
    }
    KeptIsEarlier(run, limits, ip);
    KeptIsEarlier(front, limits, ip);
    if level != limits.burst as real {
      var j :| Kept(front, limits, ip, j) && level == Left(front, limits, ip, j, now);
      assert Kept(run, limits, ip, j) && level == Left(run, limits, ip, j, now);
    }
  }

  // ---- Whole runs ------------------------------------------------------------

  /** A bucket holds nothing negative, and is no newer than some request of its own. */
  ghost predicate BucketFits(run: seq<Request>, ip: string, b: Bucket) {
    b.tokens >= 0.0 && exists j: nat :: j < |run| && run[j].ip == ip && b.last <= run[j].now
  }

  /** The stored bucket, refilled up to any later time, is the least of the burst and what is left since any kept request. */
  lemma {:induction false} BucketIsLeast(run: seq<Request>, limits: Limits, ip: string, now: real) returns (b: Bucket)
    requires Legal(run, limits) && limits.rps >= 0.0 && ip in Final(run, limits) && run != [] && run[|run| - 1].now <= now
    ensures b == Final(run, limits)[ip].bucket && b.last <= run[|run| - 1].now && BucketFits(run, ip, b)
    ensures Least(run, limits, ip, now, Refilled(b, limits, now))
    decreases |run|
  {
    hide Least, Kept, Serve, BucketFits, Spend, Refilled;
    var front, last := run[..|run| - 1], run[|run| - 1];
    var s := Final(front, limits);
    b := Final(run, limits)[ip].bucket;
    if last.ip != ip {
      OthersKeepTheirBucket(s, last.ip, last.now, last.order, limits, ip);
      NotEmpty(front, limits, ip);
      var same := BucketIsLeast(front, limits, ip, now);
      OthersLeave(run, limits, ip, now, Refilled(b, limits, now));
      FitsLonger(run, ip, b);
    } else {
      var t := RateLimitBound.OwnBucket(s, last, limits);
      if ip in s {
        NotEmpty(front, limits, ip);
        var found := BucketIsLeast(front, limits, ip, last.now);
        found := BucketIsLeast(front, limits, ip, now);
        FitsLonger(run, ip, t);
      } else {
        NewIsFull(front, limits, ip, last.now);
        NewIsFull(front, limits, ip, now);
        FullIsFull(limits, last.now, last.now);
        FullIsFull(limits, last.now, now);
        FitsOwn(run, ip, t);
      }
      OwnStep(run, limits, ip, now, t, b);
    }
  }

  lemma NotEmpty(run: seq<Request>, limits: Limits, ip: string)
    requires Legal(run, limits) && ip in Final(run, limits)
    ensures run != []
  {
  }

  lemma FitsLonger(run: seq<Request>, ip: string, b: Bucket)
    requires run != [] && BucketFits(run[..|run| - 1], ip, b)
    ensures BucketFits(run, ip, b)
  {
    var front := run[..|run| - 1];
    var j: nat :| j < |front| && front[j].ip == ip && b.last <= front[j].now;
    assert run[j].ip == ip && b.last <= run[j].now;
  }

  lemma FitsOwn(run: seq<Request>, ip: string, b: Bucket)
    requires run != [] && run[|run| - 1].ip == ip && b.tokens >= 0.0 && b.last <= run[|run| - 1].now
    ensures BucketFits(run, ip, b)
  {
    var n := |run| - 1;
    assert run[n].ip == ip && b.last <= run[n].now;
  }

  lemma FullIsFull(limits: Limits, since: real, now: real)
    requires limits.rps >= 0.0 && since <= now
    ensures Refilled(Bucket(limits.burst as real, since), limits, now) == limits.burst as real
  {
    hide Refilled, Product;
    RefilledIs(Bucket(limits.burst as real, since), limits, now);
    Gains(limits.rps, now - since);
  }

  lemma NewIsFull(run: seq<Request>, limits: Limits, ip: string, now: real)
    requires Legal(run, limits) && ip !in Final(run, limits)
    ensures Least(run, limits, ip, now, limits.burst as real)
  {
    forall j: nat
      ensures !Kept(run, limits, ip, j)
    {
      if Kept(run, limits, ip, j) {
        KeptIsStored(run, limits, ip, j);
      }
    }
  }

  /** The address's own request, on the bucket t that it finds. */
  lemma OwnStep(run: seq<Request>, limits: Limits, ip: string, now: real, t: Bucket, b: Bucket)
    requires run != [] && Legal(run, limits) && run[|run| - 1].ip == ip && ip in Final(run, limits) && limits.rps >= 0.0
    requires var front, last := run[..|run| - 1], run[|run| - 1];
      && last.now <= now && t.last <= last.now && t.tokens >= 0.0
      && (Spend(t, limits, last.now).0 <==> AdmittedBy(Final(front, limits), last, limits, ip) == 1)
      && b == Spend(t, limits, last.now).1
      && Least(front, limits, ip, last.now, Refilled(t, limits, last.now))
      && Least(front, limits, ip, now, Refilled(t, limits, now))
      && BucketFits(run, ip, t)
    ensures b.last <= run[|run| - 1].now && BucketFits(run, ip, b) && Least(run, limits, ip, now, Refilled(b, limits, now))
  {
    hide Least, Final, AdmittedBy, Product, Refilled;
    var last := run[|run| - 1];
    if Spend(t, limits, last.now).0 {
      var after := AdmittedLeaves(run, limits, ip, now, Refilled(t, limits, last.now));
      assert b == Bucket(Refilled(t, limits, last.now) - 1.0, last.now);
      RefilledIs(b, limits, now);
      FitsOwn(run, ip, b);
    } else {
      assert AdmittedBy(Final(run[..|run| - 1], limits), last, limits, ip) == 0 by { OneAtMost(Final(run[..|run| - 1], limits), last, limits, ip); }
      RefusedLeaves(run, limits, ip, now, Refilled(t, limits, now));
    }
  }

  lemma OneAtMost(s: Store, r: Request, limits: Limits, ip: string)
    requires forall q | q in r.order :: q in s
    ensures AdmittedBy(s, r, limits, ip) <= 1
  {
  }

  // ---- When a request is admitted --------------------------------------------

  /** The run may go on with this request. */
  ghost predicate Follows(run: seq<Request>, limits: Limits, r: Request) {
    Legal(run, limits) && Enumerates(r.order, Final(run, limits).Keys) && (run != [] ==> run[|run| - 1].now <= r.now)
  }

  lemma FollowsIsLegal(run: seq<Request>, limits: Limits, r: Request)
    ensures Follows(run, limits, r) <==> Legal(run + [r], limits)
  {
    assert (run + [r])[..|run|] == run;
  }

  /** The store's decision on the next request. */
  ghost function Decides(run: seq<Request>, limits: Limits, r: Request): bool
    requires Follows(run, limits, r)
  {
    Serve(Final(run, limits), r.ip, r.now, r.order, limits).0
  }

  /** The bucket the next request finds: its level at that time decides. */
  lemma Finds(run: seq<Request>, limits: Limits, r: Request) returns (level: real)
    requires Follows(run, limits, r) && limits.rps >= 0.0
    ensures Decides(run, limits, r) <==> limits.burst >= 1 && level >= 1.0
    ensures Least(run, limits, r.ip, r.now, level)
    ensures r.ip !in Final(run, limits) ==> level == limits.burst as real
    ensures r.ip in Final(run, limits) ==>
      exists b: Bucket :: BucketFits(run, r.ip, b) && b.last <= r.now && level == Refilled(b, limits, r.now)
  {
    hide Legal, Final, Least, BucketFits, Serve, Touch, Refilled;
    var s := Final(run, limits);
    var t := RateLimitBound.OwnBucket(s, r, limits);
    level := Refilled(t, limits, r.now);
    if r.ip in s {
      NotEmpty(run, limits, r.ip);
      var b := BucketIsLeast(run, limits, r.ip, r.now);
    } else {
      NewIsFull(run, limits, r.ip, r.now);
      FullIsFull(limits, r.now, r.now);
    }
  }

  /**
   Over every run a request is admitted exactly when the burst allows any at all and, counted from each request of its address
   since it has been in the store, what was admitted so far and one more are within the burst and the refill since then.
   */
  lemma AdmittedExactly(run: seq<Request>, limits: Limits, r: Request)
    requires Follows(run, limits, r) && limits.rps >= 0.0
    ensures Decides(run, limits, r) <==>
      (limits.burst >= 1 &&
       forall j: nat | j < |run| && Kept(run, limits, r.ip, j) ::
         AdmittedFrom(run, limits, r.ip, j) as real + 1.0 <= limits.burst as real + Product(limits.rps, r.now - run[j].now))
  {
    hide Legal, Final, Kept, AdmittedFrom, Decides, Refilled, BucketFits, Product;
    var level := Finds(run, limits, r);
    KeptIsEarlier(run, limits, r.ip);
    if limits.burst >= 1 && level < 1.0 {
      var j: nat :| Kept(run, limits, r.ip, j) && level == Left(run, limits, r.ip, j, r.now);
      assert AdmittedFrom(run, limits, r.ip, j) as real + 1.0 > limits.burst as real + Product(limits.rps, r.now - run[j].now);
    } else if limits.burst >= 1 {
      forall j: nat | j < |run| && Kept(run, limits, r.ip, j)
        ensures AdmittedFrom(run, limits, r.ip, j) as real + 1.0 <= limits.burst as real + Product(limits.rps, r.now - run[j].now)
      {
        assert level <= Left(run, limits, r.ip, j, r.now);
      }
    }
  }

  lemma NoneKept(run: seq<Request>, limits: Limits, ip: string)
    requires Legal(run, limits) && ip !in Final(run, limits)
    ensures forall j: nat :: !Kept(run, limits, ip, j)
  {
    forall j: nat
      ensures !Kept(run, limits, ip, j)
    {
      if Kept(run, limits, ip, j) {
        KeptIsStored(run, limits, ip, j);
      }
    }
  }

  /** A first request, and one of an address that was evicted, is admitted whenever the burst allows any. */
  lemma NewIsAdmitted(run: seq<Request>, limits: Limits, r: Request)
    requires Follows(run, limits, r) && limits.rps >= 0.0 && r.ip !in Final(run, limits)
    ensures Decides(run, limits, r) <==> limits.burst >= 1
  {
    AdmittedExactly(run, limits, r);
    NoneKept(run, limits, r.ip);
  }

  /** An address that has waited for one token since its last request is admitted, whatever was decided before. */
  lemma WaitedIsAdmitted(run: seq<Request>, limits: Limits, r: Request)
    requires Follows(run, limits, r) && limits.rps >= 0.0 && limits.burst >= 1
    requires forall j: nat | j < |run| && run[j].ip == r.ip :: Product(limits.rps, r.now - run[j].now) >= 1.0
    ensures Decides(run, limits, r)
  {
    hide Legal, Final, Least, Serve, Decides, Refilled, Product;
    var level := Finds(run, limits, r);
    if r.ip in Final(run, limits) {
      var b: Bucket :| BucketFits(run, r.ip, b) && b.last <= r.now && level == Refilled(b, limits, r.now);
      var j: nat :| j < |run| && run[j].ip == r.ip && b.last <= run[j].now;
      EarlierIsBefore(run, limits, j);
      OneRefilled(b, limits, run[j].now, r.now);
    }
  }

  lemma OneRefilled(b: Bucket, limits: Limits, since: real, now: real)
    requires b.tokens >= 0.0 && b.last <= since <= now && limits.rps >= 0.0 && limits.burst >= 1
    requires Product(limits.rps, now - since) >= 1.0
    ensures Refilled(b, limits, now) >= 1.0
  {
    hide Product, Refilled;
    RefilledIs(b, limits, now);
    Gains(limits.rps, since - b.last);
    Passing(limits.rps, now - since, since - b.last);
    assert now - b.last == (now - since) + (since - b.last);
  }

  // ---- Counting from the first request ---------------------------------------

  /** One more admission would exceed the burst and the refill since request j. */
  ghost predicate Exhausted(run: seq<Request>, limits: Limits, ip: string, j: nat, now: real)
    requires Legal(run, limits) && j < |run|
  {
    AdmittedFrom(run, limits, ip, j) as real + 1.0 > limits.burst as real + Product(limits.rps, now - run[j].now)
  }

  /** Whenever the next request of the address is refused, the refill since request k and the burst are used up. */
  ghost predicate CountsFrom(run: seq<Request>, limits: Limits, ip: string, k: nat)
    requires Legal(run, limits) && k < |run|
  {
    forall r | Follows(run, limits, r) && r.ip == ip && !Decides(run, limits, r) :: Exhausted(run, limits, ip, k, r.now)
  }

  /** From request k to request j the address used up its refill. */
  ghost predicate UsedUp(run: seq<Request>, limits: Limits, ip: string, k: nat, j: nat)
    requires Legal(run, limits) && k < |run| && j < |run|
  {
    AdmittedFrom(run, limits, ip, k) as real - AdmittedFrom(run, limits, ip, j) as real >= Product(limits.rps, run[j].now - run[k].now)
  }

  /** Of the requests since which the allowance is exhausted, each has used up the refill since request k. */
  ghost predicate AllUsedUp(run: seq<Request>, limits: Limits, ip: string, k: nat)
    requires run != [] && Legal(run, limits) && k < |run|
  {
    forall j: nat | j < |run| && Kept(run, limits, ip, j) && Exhausted(run, limits, ip, j, run[|run| - 1].now) :: UsedUp(run, limits, ip, k, j)
  }

  lemma UsedUpCarriesOver(run: seq<Request>, limits: Limits, ip: string, k: nat, j: nat, now: real)
    requires Legal(run, limits) && k < |run| && j < |run|
    ensures UsedUp(run, limits, ip, k, j) && Exhausted(run, limits, ip, j, now) ==> Exhausted(run, limits, ip, k, now)
  {
    hide Legal, AdmittedFrom, Product;
    Passing(limits.rps, now - run[j].now, run[j].now - run[k].now);
    assert now - run[k].now == (now - run[j].now) + (run[j].now - run[k].now);
  }

  lemma ExhaustedBefore(run: seq<Request>, limits: Limits, ip: string, j: nat, now: real, later: real)
    requires Legal(run, limits) && j < |run| && limits.rps >= 0.0 && now <= later && Exhausted(run, limits, ip, j, later)
    ensures Exhausted(run, limits, ip, j, now)
  {
    hide Legal, AdmittedFrom, Product;
    Passing(limits.rps, now - run[j].now, later - now);
    assert later - run[j].now == (now - run[j].now) + (later - now);
    Gains(limits.rps, later - now);
  }

  lemma DecidesByExhaustion(run: seq<Request>, limits: Limits, r: Request)
    requires Follows(run, limits, r) && limits.rps >= 0.0 && limits.burst >= 1
    ensures Decides(run, limits, r) <==> forall j: nat | j < |run| && Kept(run, limits, r.ip, j) :: !Exhausted(run, limits, r.ip, j, r.now)
  {
    hide Legal, Final, Kept, AdmittedFrom, Decides, Product;
    AdmittedExactly(run, limits, r);
  }

  /** The time at which a window that is not exhausted any more has just one token left, if another has used up less. */
  lemma GapTime(run: seq<Request>, limits: Limits, ip: string, k: nat, j: nat) returns (now: real)
    requires run != [] && Legal(run, limits) && k < |run| && j < |run| && limits.rps >= 0.0
    requires Exhausted(run, limits, ip, j, run[|run| - 1].now) && !UsedUp(run, limits, ip, k, j)
    requires limits.rps > 0.0 || !Exhausted(run, limits, ip, k, run[|run| - 1].now)
    ensures run[|run| - 1].now <= now && Exhausted(run, limits, ip, j, now) && !Exhausted(run, limits, ip, k, now)
  {
    hide Legal, AdmittedFrom, Product;
    now := run[|run| - 1].now;
    if Exhausted(run, limits, ip, k, now) {
      var missing := AdmittedFrom(run, limits, ip, k) as real + 1.0 - limits.burst as real - Product(limits.rps, now - run[k].now);
      var wait := missing / limits.rps;
      Quotient(limits.rps, missing, wait);
      Passing(limits.rps, now - run[k].now, wait);
      assert (now + wait) - run[k].now == (now - run[k].now) + wait;
      now := now + wait;
      Passing(limits.rps, now - run[j].now, run[j].now - run[k].now);
      assert now - run[k].now == (now - run[j].now) + (run[j].now - run[k].now);
    }
  }

  lemma Quotient(rps: real, missing: real, wait: real)
    requires rps > 0.0 && missing > 0.0 && wait == missing / rps
    ensures Product(rps, wait) == missing && wait > 0.0
  {
  }

  /**
   Counting admissions from a request k since which the address was stored, a refusal means that the burst and all the refill
   since k are used up, exactly when the address never let refill go to waste: AllUsedUp. Otherwise a full bucket lost some.
   */
  lemma CountedFromExactly(run: seq<Request>, limits: Limits, ip: string, k: nat)
    requires run != [] && Legal(run, limits) && limits.rps >= 0.0 && limits.burst >= 1 && k < |run|
    requires Kept(run, limits, ip, k)
    ensures CountsFrom(run, limits, ip, k) <==> AllUsedUp(run, limits, ip, k)
  {
    hide Legal, Final, Kept, AdmittedFrom, Decides, Exhausted, UsedUp, Product;
    var last := run[|run| - 1].now;
    if AllUsedUp(run, limits, ip, k) {
      forall r | Follows(run, limits, r) && r.ip == ip && !Decides(run, limits, r)
        ensures Exhausted(run, limits, ip, k, r.now)
      {
        DecidesByExhaustion(run, limits, r);
        var j: nat :| j < |run| && Kept(run, limits, ip, j) && Exhausted(run, limits, ip, j, r.now);
        ExhaustedBefore(run, limits, ip, j, last, r.now);
        UsedUpCarriesOver(run, limits, ip, k, j, r.now);
      }
    } else {
      var j: nat :| j < |run| && Kept(run, limits, ip, j) && Exhausted(run, limits, ip, j, last) && !UsedUp(run, limits, ip, k, j);
      WasteNeedsRefill(run, limits, ip, k, j);
      var now := GapTime(run, limits, ip, k, j);
      var order := SomeOrder(Final(run, limits).Keys);
      var r := Request(ip, now, order);
      DecidesByExhaustion(run, limits, r);
      assert Follows(run, limits, r) && !Decides(run, limits, r);
    }
  }

  /** What was admitted since a kept request is always within the burst and the refill since then. */
  lemma WithinAllowance(run: seq<Request>, limits: Limits, ip: string, j: nat)
    requires run != [] && Legal(run, limits) && limits.rps >= 0.0 && j < |run| && Kept(run, limits, ip, j)
    ensures AdmittedFrom(run, limits, ip, j) as real <= limits.burst as real + Product(limits.rps, run[|run| - 1].now - run[j].now)
  {
    hide Legal, Final, Kept, AdmittedFrom, Product, Refilled;
    KeptIsStored(run, limits, ip, j);
    var now := run[|run| - 1].now;
    var b := BucketIsLeast(run, limits, ip, now);
    RefilledIs(b, limits, now);
    Gains(limits.rps, now - b.last);
    assert 0.0 <= Refilled(b, limits, now) <= Left(run, limits, ip, j, now);
  }

  /** Without any refill no request can have used up less than a later one. */
  lemma WasteNeedsRefill(run: seq<Request>, limits: Limits, ip: string, k: nat, j: nat)
    requires run != [] && Legal(run, limits) && limits.rps >= 0.0 && k < |run| && j < |run| && Kept(run, limits, ip, j)
    requires Exhausted(run, limits, ip, j, run[|run| - 1].now) && !UsedUp(run, limits, ip, k, j)
    ensures limits.rps > 0.0 || !Exhausted(run, limits, ip, k, run[|run| - 1].now)
  {
    hide Legal, Final, Kept, AdmittedFrom, Product;
    if limits.rps == 0.0 {
      WithinAllowance(run, limits, ip, j);
      Nothing(limits.rps, run[|run| - 1].now - run[j].now);
      Nothing(limits.rps, run[|run| - 1].now - run[k].now);
      Nothing(limits.rps, run[j].now - run[k].now);
      OneLess(AdmittedFrom(run, limits, ip, k), AdmittedFrom(run, limits, ip, j));
    }
  }

  lemma OneLess(a: nat, b: nat)
    ensures a as real - b as real < 0.0 ==> a as real + 1.0 <= b as real
  {
    assert a < b ==> a + 1 <= b;
  }

  lemma Nothing(rps: real, x: real)
    requires rps == 0.0
    ensures Product(rps, x) == 0.0
  {
  }

  // ---- A bucket that overflows -------------------------------------------------

  /**
   A burst of one and one token a second: requests at 0, 100 and 100.5 seconds. The third is refused after two admissions,
   although the burst and the refill since the first would allow a hundred more.
   */
  lemma IdleTimeIsLost(limits: Limits, ip: string) returns (run: seq<Request>, third: Request)
    requires limits == Limits(1.0, 1, 10)
    ensures run == [Request(ip, 0.0, []), Request(ip, 100.0, [ip])] && third == Request(ip, 100.5, [ip])
    ensures Follows(run, limits, third) && !Decides(run, limits, third)
    ensures Admitted(run, limits, ip) == 2
    ensures Admitted(run, limits, ip) as real < limits.burst as real + limits.rps * (third.now - run[0].now) - 1.0
  {
    var first, second := Request(ip, 0.0, []), Request(ip, 100.0, [ip]);
    run, third := [first, second], Request(ip, 100.5, [ip]);
    hide Legal, Final, Serve, Admitted;
    Beginning(limits, ip);
    assert [] + [first] == [first] && [first] + [second] == run;
    NewAlone(limits, ip);
    var s1 := OneMore([], limits, first, map[], ip);
    KnownAlone(limits, ip, Slot(Bucket(0.0, 0.0), 0.0), 100.0);
    var s2 := OneMore([first], limits, second, s1, ip);
    KnownAlone(limits, ip, Slot(Bucket(0.0, 100.0), 100.0), 100.5);
  }

  lemma Beginning(limits: Limits, ip: string)
    ensures Legal([], limits) && Final([], limits) == map[] && Admitted([], limits, ip) == 0
  {
  }

  lemma NewAlone(limits: Limits, ip: string)
    requires limits == Limits(1.0, 1, 10)
    ensures Serve(map[], ip, 0.0, [], limits) == (true, map[ip := Slot(Bucket(0.0, 0.0), 0.0)])
  {
    assert Serve(map[], ip, 0.0, [], limits).1 == map[ip := Slot(Bucket(0.0, 0.0), 0.0)];
  }

  lemma KnownAlone(limits: Limits, ip: string, slot: Slot, now: real)
    ensures var (allowed, b) := Spend(slot.bucket, limits, now);
      Serve(map[ip := slot], ip, now, [ip], limits) == (allowed, map[ip := Slot(b, now)])
  {
    var b := Spend(slot.bucket, limits, now).1;
    assert Serve(map[ip := slot], ip, now, [ip], limits).1 == map[ip := Slot(b, now)];
  }

  lemma OneMore(run: seq<Request>, limits: Limits, r: Request, s: Store, ip: string) returns (s': Store)
    requires Legal(run, limits) && Final(run, limits) == s && Enumerates(r.order, s.Keys)
    requires run != [] ==> run[|run| - 1].now <= r.now
    ensures Legal(run + [r], limits) && s' == Final(run + [r], limits) == Serve(s, r.ip, r.now, r.order, limits).1
    ensures Admitted(run + [r], limits, ip) == Admitted(run, limits, ip) + AdmittedBy(s, r, limits, ip)
  {
    assert (run + [r])[..|run|] == run;
    s' := Final(run + [r], limits);
  }
}
