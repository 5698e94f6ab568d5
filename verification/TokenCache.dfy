/**
 The TokenReview cache of the openshift mode. Any number of requests run against one cache while the
 cleanup goroutine deletes expired entries and callers write into the groups they were given; each load,
 store, delete, copy and write is atomic and they interleave freely.
 */
module TokenCache {
  import opened Prelude

  /** SHA-256 is taken to be collision free. */
  datatype Hash = Sha256(token: string)

  datatype Identity = Identity(username: string, groups: seq<string>)
  datatype Review = Review(token: string, verdict: Option<Identity>)

  /** A cached identity. The cache holds pointers to these; slice is shared with the caller whose miss made it. */
  datatype Entry = Entry(token: string, username: string, slice: seq<string>, expiresAt: int, review: nat, at: int)

  /** A caller puts a value into the slice its miss returned. */
  datatype Write = Write(entry: nat, index: nat, value: string)

  /** groups are as they were when the answer was given, which is after the first seen writes. */
  datatype Answer = Answer(token: string, username: string, groups: seq<string>, at: int, entry: nat, seen: nat)

  datatype Request =
    | Idle
    | Loaded(token: string, entry: nat)
    | Evicting(token: string)
    | Missed(token: string)
    | Reviewed(token: string, identity: Identity, review: nat)

  datatype Cleanup = Waiting | Ranging(since: int, doomed: set<Hash>)

  /** reviews, entries, answers and writes record what happened so far, oldest first; entries are never reused. */
  datatype State = State(
    now: int, cache: map<Hash, nat>, requests: map<nat, Request>, cleanup: Cleanup,
    reviews: seq<Review>, entries: seq<Entry>, answers: seq<Answer>, writes: seq<Write>)

  datatype Step =
    | Tick(nanoseconds: nat)
    | Load(r: nat, token: string)
    | Check(r: nat)
    | Evict(r: nat)
    | ReviewToken(r: nat, verdict: Option<Identity>)
    | Store(r: nat)
    | WriteGroups(entry: nat, index: nat, value: string)
    | CleanupStart
    | CleanupRead(key: Hash)
    | CleanupDelete(key: Hash)
    | CleanupEnd

  function RequestOf(s: State, r: nat): Request {
    if r in s.requests then s.requests[r] else Idle
  }

  function Continue(s: State, r: nat, request: Request): State {
    s.(requests := s.requests[r := request])
  }

  /** verdict is None when the review fails or does not authenticate the token. A step nobody is ready for does nothing. */
  function Next(s: State, step: Step, ttl: nat): State {
    match step
    case Tick(d) => s.(now := s.now + d)
    case Load(r, token) =>
      if !RequestOf(s, r).Idle? then s
      else
        var key := Sha256(token);
        Continue(s, r, if key in s.cache then Loaded(token, s.cache[key]) else Missed(token))
    case Check(r) =>
      (match RequestOf(s, r)
       case Loaded(token, entry) =>
         if entry < |s.entries| && s.now < s.entries[entry].expiresAt then
           var cached := s.entries[entry];
           Continue(s, r, Idle).(answers := s.answers + [Answer(token, cached.username, cached.slice, s.now, entry, |s.writes|)])
         else Continue(s, r, Evicting(token))
       case _ => s)
    case Evict(r) =>
      (match RequestOf(s, r)
       case Evicting(token) => Continue(s, r, Missed(token)).(cache := s.cache - {Sha256(token)})
       case _ => s)
    case ReviewToken(r, verdict) =>
      (match RequestOf(s, r)
       case Missed(token) =>
         var s1 := s.(reviews := s.reviews + [Review(token, verdict)]);
         if verdict.Some? then Continue(s1, r, Reviewed(token, verdict.value, |s.reviews|)) else Continue(s1, r, Idle)
       case _ => s)
    case Store(r) =>
      (match RequestOf(s, r)
       case Reviewed(token, identity, review) =>
         Continue(s, r, Idle).(cache := s.cache[Sha256(token) := |s.entries|],
           entries := s.entries + [Entry(token, identity.username, identity.groups, s.now + ttl, review, s.now)],
           answers := s.answers + [Answer(token, identity.username, identity.groups, s.now, |s.entries|, |s.writes|)])
       case _ => s)
    // The slice of a hit is the caller's own: writing into it changes nothing here.
    case WriteGroups(entry, index, value) =>
      if entry < |s.entries| && index < |s.entries[entry].slice| then
        var e := s.entries[entry];
        s.(entries := s.entries[entry := e.(slice := e.slice[index := value])], writes := s.writes + [Write(entry, index, value)])
      else s
    case CleanupStart => if s.cleanup.Waiting? then s.(cleanup := Ranging(s.now, {})) else s
    case CleanupRead(key) =>
      if s.cleanup.Ranging? && key in s.cache && s.cache[key] < |s.entries| && s.cleanup.since > s.entries[s.cache[key]].expiresAt
      then s.(cleanup := s.cleanup.(doomed := s.cleanup.doomed + {key})) else s
    // The key is deleted although another request may have stored it again since it was read.
    case CleanupDelete(key) =>
      if s.cleanup.Ranging? && key in s.cleanup.doomed
      then s.(cleanup := s.cleanup.(doomed := s.cleanup.doomed - {key}), cache := s.cache - {key}) else s
    case CleanupEnd => s.(cleanup := Waiting)
  }

  function Run(s: State, steps: seq<Step>, ttl: nat): State {
    if steps == [] then s else Next(Run(s, steps[..|steps| - 1], ttl), steps[|steps| - 1], ttl)
  }

  predicate Initial(s: State) {
    s.cache == map[] && s.requests == map[] && s.cleanup == Waiting && s.reviews == [] && s.entries == [] && s.answers == [] && s.writes == []
  }

  // ---- What callers wrote --------------------------------------------------

  /** The groups after the writes into one slice. */
  function Overwritten(groups: seq<string>, writes: seq<Write>, entry: nat): (result: seq<string>)
    ensures |result| == |groups|
  {
    if writes == [] then groups
    else
      var before, last := Overwritten(groups, writes[..|writes| - 1], entry), writes[|writes| - 1];
      if last.entry == entry && last.index < |groups| then before[last.index := last.value] else before
  }

  /** What was last written to one place of a slice. */
  function LastWritten(writes: seq<Write>, entry: nat, index: nat): Option<string> {
    if writes == [] then None
    else
      var last := writes[|writes| - 1];
      if last.entry == entry && last.index == index then Some(last.value) else LastWritten(writes[..|writes| - 1], entry, index)
  }

  lemma {:induction false} OverwrittenAt(groups: seq<string>, writes: seq<Write>, entry: nat, index: nat)
    requires index < |groups|
    ensures Overwritten(groups, writes, entry)[index]
      == if LastWritten(writes, entry, index).Some? then LastWritten(writes, entry, index).value else groups[index]
  {
    if writes != [] {
      OverwrittenAt(groups, writes[..|writes| - 1], entry, index);
    }
  }

  lemma {:induction false} NotYetWritten(groups: seq<string>, writes: seq<Write>, entry: nat)
    requires forall i | 0 <= i < |writes| :: writes[i].entry != entry
    ensures Overwritten(groups, writes, entry) == groups
  {
    if writes != [] {
      NotYetWritten(groups, writes[..|writes| - 1], entry);
    }
  }

  lemma WriteOver(groups: seq<string>, writes: seq<Write>, w: Write, entry: nat)
    ensures Overwritten(groups, writes + [w], entry)
      == var before := Overwritten(groups, writes, entry);
         if w.entry == entry && w.index < |groups| then before[w.index := w.value] else before
  {
    assert (writes + [w])[..|writes|] == writes;
  }

  /** Wherever callers wrote into this slice, they last wrote what was there at first. */
  predicate Restored(groups: seq<string>, writes: seq<Write>, entry: nat) {
    forall j | 0 <= j < |groups| :: LastWritten(writes, entry, j) in {None, Some(groups[j])}
  }

  lemma RestoredExactly(groups: seq<string>, writes: seq<Write>, entry: nat)
    ensures Overwritten(groups, writes, entry) == groups <==> Restored(groups, writes, entry)
  {
    forall j | 0 <= j < |groups|
      ensures Overwritten(groups, writes, entry)[j] == groups[j] <==> LastWritten(writes, entry, j) in {None, Some(groups[j])}
    {
      OverwrittenAt(groups, writes, entry, j);
    }
  }

  // ---- The invariant -------------------------------------------------------

  /** The review an entry was made from authenticated its token. */
  predicate FromReview(s: State, e: Entry) {
    e.review < |s.reviews| && s.reviews[e.review].token == e.token
    && s.reviews[e.review].verdict.Some? && s.reviews[e.review].verdict.value.username == e.username
  }

  function ReviewedGroups(s: State, e: Entry): seq<string>
    requires FromReview(s, e)
  {
    s.reviews[e.review].verdict.value.groups
  }

  predicate EntryOk(s: State, i: nat, ttl: nat)
    requires i < |s.entries|
  {
    var e := s.entries[i];
    FromReview(s, e) && e.expiresAt == e.at + ttl && e.at <= s.now
    && e.slice == Overwritten(ReviewedGroups(s, e), s.writes, i)
  }

  predicate Points(s: State, token: string, entry: nat) {
    entry < |s.entries| && s.entries[entry].token == token
  }

  predicate RequestOk(s: State, request: Request) {
    match request
    case Reviewed(token, identity, review) => review < |s.reviews| && s.reviews[review] == Review(token, Some(identity))
    case Loaded(token, entry) => Points(s, token, entry)
    case _ => true
  }

  /** The answer is the authenticated review behind its entry, made less than ttl ago, with what callers had written by then. */
  predicate AnswerOk(s: State, a: Answer, ttl: nat) {
    && Points(s, a.token, a.entry) && a.seen <= |s.writes|
    && var e := s.entries[a.entry];
       FromReview(s, e) && a.username == e.username && e.at <= a.at < e.at + ttl
       && a.groups == Overwritten(ReviewedGroups(s, e), s.writes[..a.seen], a.entry)
  }

  ghost predicate EntriesOk(s: State, ttl: nat) {
    && (forall i | 0 <= i < |s.entries| :: EntryOk(s, i, ttl))
    && (forall i | 0 <= i < |s.writes| :: s.writes[i].entry < |s.entries|)
  }

  ghost predicate CacheOk(s: State) {
    forall key | key in s.cache :: Points(s, key.token, s.cache[key])
  }

  ghost predicate RequestsOk(s: State) {
    forall r | r in s.requests :: RequestOk(s, s.requests[r])
  }

  ghost predicate AnswersOk(s: State, ttl: nat) {
    forall i | 0 <= i < |s.answers| :: AnswerOk(s, s.answers[i], ttl)
  }

  ghost predicate Invariant(s: State, ttl: nat) {
    EntriesOk(s, ttl) && CacheOk(s) && RequestsOk(s) && AnswersOk(s, ttl)
  }

  predicate SameButSlice(a: Entry, b: Entry) {
    a == b.(slice := a.slice)
  }

  /** Records are never forgotten, and of an entry only the slice can change. */
  ghost predicate Grows(s: State, s': State) {
    && s.reviews <= s'.reviews && s.writes <= s'.writes && s.now <= s'.now
    && |s.entries| <= |s'.entries| && forall i | 0 <= i < |s.entries| :: SameButSlice(s.entries[i], s'.entries[i])
  }

  lemma AnswerStays(s: State, s': State, a: Answer, ttl: nat)
    requires Grows(s, s') && AnswerOk(s, a, ttl)
    ensures AnswerOk(s', a, ttl)
  {
    assert SameButSlice(s.entries[a.entry], s'.entries[a.entry]);
    assert s'.writes[..a.seen] == s.writes[..a.seen];
  }

  lemma RequestStays(s: State, s': State, request: Request)
    requires Grows(s, s') && RequestOk(s, request)
    ensures RequestOk(s', request)
  {
    if request.Loaded? {
      assert SameButSlice(s.entries[request.entry], s'.entries[request.entry]);
    }
  }

  lemma OthersStay(s: State, s': State, ttl: nat)
    requires Grows(s, s') && CacheOk(s) && RequestsOk(s) && AnswersOk(s, ttl) && s.answers <= s'.answers
    requires forall key | key in s'.cache :: (key in s.cache && s'.cache[key] == s.cache[key]) || Points(s', key.token, s'.cache[key])
    requires forall r | r in s'.requests :: (r in s.requests && s'.requests[r] == s.requests[r]) || RequestOk(s', s'.requests[r])
    requires forall i | |s.answers| <= i < |s'.answers| :: AnswerOk(s', s'.answers[i], ttl)
    ensures CacheOk(s') && RequestsOk(s') && AnswersOk(s', ttl)
  {
    forall key | key in s'.cache
      ensures Points(s', key.token, s'.cache[key])
    {
      if key in s.cache && s'.cache[key] == s.cache[key] {
        assert SameButSlice(s.entries[s.cache[key]], s'.entries[s.cache[key]]);
      }
    }
    forall r | r in s'.requests
      ensures RequestOk(s', s'.requests[r])
    {
      if r in s.requests && s'.requests[r] == s.requests[r] {
        RequestStays(s, s', s.requests[r]);
      }
    }
    forall i | 0 <= i < |s'.answers|
      ensures AnswerOk(s', s'.answers[i], ttl)
    {
      if i < |s.answers| {
        AnswerStays(s, s', s.answers[i], ttl);
      }
    }
  }

  lemma EntriesStay(s: State, s': State, ttl: nat)
    requires Grows(s, s') && EntriesOk(s, ttl) && s'.entries == s.entries && s'.writes == s.writes
    ensures EntriesOk(s', ttl)
  {
    forall i | 0 <= i < |s'.entries|
      ensures EntryOk(s', i, ttl)
    {
      assert EntryOk(s, i, ttl);
    }
  }

  lemma StoreEntries(s: State, step: Step, ttl: nat)
    requires Invariant(s, ttl) && ttl > 0 && step.Store? && RequestOf(s, step.r).Reviewed?
    ensures EntriesOk(Next(s, step, ttl), ttl) && Grows(s, Next(s, step, ttl))
    ensures var s' := Next(s, step, ttl); AnswerOk(s', s'.answers[|s.answers|], ttl)
  {
    var s', n := Next(s, step, ttl), |s.entries|;
    assert RequestOk(s, s.requests[step.r]);
    NotYetWritten(s.requests[step.r].identity.groups, s.writes, n);
    assert s'.writes[..|s.writes|] == s.writes;
    forall i | 0 <= i < |s'.entries|
      ensures EntryOk(s', i, ttl)
    {
      assert i < n ==> EntryOk(s, i, ttl);
    }
  }

  lemma StoreKeeps(s: State, step: Step, ttl: nat)
    requires Invariant(s, ttl) && ttl > 0 && step.Store? && RequestOf(s, step.r).Reviewed?
    ensures Invariant(Next(s, step, ttl), ttl)
  {
    StoreEntries(s, step, ttl);
    OthersStay(s, Next(s, step, ttl), ttl);
  }

  lemma CheckKeeps(s: State, step: Step, ttl: nat)
    requires Invariant(s, ttl) && step.Check?
    ensures Invariant(Next(s, step, ttl), ttl)
  {
    var s', request := Next(s, step, ttl), RequestOf(s, step.r);
    EntriesStay(s, s', ttl);
    if request.Loaded? {
      assert RequestOk(s, s.requests[step.r]) && EntryOk(s, request.entry, ttl);
      assert s'.writes[..|s.writes|] == s.writes;
    }
    OthersStay(s, s', ttl);
  }

  lemma WriteKeeps(s: State, step: Step, ttl: nat)
    requires Invariant(s, ttl) && step.WriteGroups?
    ensures Invariant(Next(s, step, ttl), ttl)
  {
    var s' := Next(s, step, ttl);
    if s' != s {
      var w := Write(step.entry, step.index, step.value);
      forall i | 0 <= i < |s'.entries|
        ensures EntryOk(s', i, ttl)
      {
        assert EntryOk(s, i, ttl);
        WriteOver(ReviewedGroups(s, s.entries[i]), s.writes, w, i);
      }
      OthersStay(s, s', ttl);
    }
  }

  /** A step that only moves one request on. */
  lemma RequestMoves(s: State, s': State, r: nat, ttl: nat)
    requires Invariant(s, ttl) && Grows(s, s') && s'.entries == s.entries && s'.writes == s.writes && s'.answers == s.answers
    requires forall key | key in s'.cache :: key in s.cache && s'.cache[key] == s.cache[key]
    requires r in s'.requests && s'.requests == s.requests[r := s'.requests[r]] && RequestOk(s', s'.requests[r])
    ensures Invariant(s', ttl)
  {
    EntriesStay(s, s', ttl);
    OthersStay(s, s', ttl);
  }

  lemma RequestStepKeeps(s: State, step: Step, ttl: nat)
    requires Invariant(s, ttl) && (step.Load? || step.Evict? || step.ReviewToken?)
    ensures Invariant(Next(s, step, ttl), ttl)
  {
    var s' := Next(s, step, ttl);
    if step.Load? && Sha256(step.token) in s.cache {
      assert Points(s, step.token, s.cache[Sha256(step.token)]);
    }
    if s' != s {
      assert RequestOk(s', s'.requests[step.r]);
      assert forall i | 0 <= i < |s.entries| :: SameButSlice(s.entries[i], s'.entries[i]);
      RequestMoves(s, s', step.r, ttl);
    }
  }

  lemma CleanupStepKeeps(s: State, step: Step, ttl: nat)
    requires Invariant(s, ttl)
    requires step.Tick? || step.CleanupStart? || step.CleanupRead? || step.CleanupDelete? || step.CleanupEnd?
    ensures Invariant(Next(s, step, ttl), ttl)
  {
    var s' := Next(s, step, ttl);
    assert s'.requests == s.requests && s'.answers == s.answers;
    EntriesStay(s, s', ttl);
    OthersStay(s, s', ttl);
  }

  lemma StepKeeps(s: State, step: Step, ttl: nat)
    requires Invariant(s, ttl) && ttl > 0
    ensures Invariant(Next(s, step, ttl), ttl)
  {
    if step.Store? {
      if RequestOf(s, step.r).Reviewed? {
        StoreKeeps(s, step, ttl);
      }
    } else if step.Check? {
      CheckKeeps(s, step, ttl);
    } else if step.WriteGroups? {
      WriteKeeps(s, step, ttl);
    } else if step.Load? || step.Evict? || step.ReviewToken? {
      RequestStepKeeps(s, step, ttl);
    } else {
      CleanupStepKeeps(s, step, ttl);
    }
  }

  lemma {:induction false} RunKeeps(s: State, steps: seq<Step>, ttl: nat)
    requires Initial(s) && ttl > 0
    ensures Invariant(Run(s, steps, ttl), ttl)
  {
    if steps != [] {
      RunKeeps(s, steps[..|steps| - 1], ttl);
      StepKeeps(Run(s, steps[..|steps| - 1], ttl), steps[|steps| - 1], ttl);
    }
  }

  /**
   Under any interleaving every answer was given by an authenticated review of that very token, stored less than
   ttl before: its user always, and its groups with exactly what callers had written by then into the slice of the
   miss that made the entry.
   */
  lemma AnswersComeFromFreshReviews(s: State, steps: seq<Step>, ttl: nat, a: Answer)
    requires Initial(s) && ttl > 0 && a in Run(s, steps, ttl).answers
    ensures AnswerOk(Run(s, steps, ttl), a, ttl)
  {
    RunKeeps(s, steps, ttl);
  }

  /** The review an answer goes back to. */
  function ReviewOf(s: State, a: Answer): Identity
    requires Points(s, a.token, a.entry) && FromReview(s, s.entries[a.entry])
  {
    s.reviews[s.entries[a.entry].review].verdict.value
  }

  /**
   An answer is what its review said exactly when, wherever callers had written into the slice of the miss that made
   its entry, they had last written the reviewed group.
   */
  lemma AnswerIsReviewExactly(s: State, steps: seq<Step>, ttl: nat, a: Answer)
    requires Initial(s) && ttl > 0 && a in Run(s, steps, ttl).answers
    ensures var e := Run(s, steps, ttl);
      && AnswerOk(e, a, ttl)
      && (Identity(a.username, a.groups) == ReviewOf(e, a)
          <==> Restored(ReviewOf(e, a).groups, e.writes[..a.seen], a.entry))
  {
    AnswersComeFromFreshReviews(s, steps, ttl, a);
    var e := Run(s, steps, ttl);
    RestoredExactly(ReviewOf(e, a).groups, e.writes[..a.seen], a.entry);
  }

  /** Evictions cannot change an answer: when all reviews agree with one oracle, an answer disagrees only through what callers wrote. */
  lemma EvictionsOnlyCostReviews(s: State, steps: seq<Step>, ttl: nat, oracle: string -> Option<Identity>, a: Answer)
    requires Initial(s) && ttl > 0 && a in Run(s, steps, ttl).answers
    requires forall i | 0 <= i < |Run(s, steps, ttl).reviews| ::
      Run(s, steps, ttl).reviews[i].verdict == oracle(Run(s, steps, ttl).reviews[i].token)
    ensures var e := Run(s, steps, ttl);
      && oracle(a.token).Some? && a.seen <= |e.writes|
      && (oracle(a.token) == Some(Identity(a.username, a.groups)) <==> Restored(oracle(a.token).value.groups, e.writes[..a.seen], a.entry))
  {
    AnswerIsReviewExactly(s, steps, ttl, a);
  }

  // ---- Undisturbed ------------------------------------------------------------

  /** What a caller writes into its slice is in the entry from then on, and nowhere else. */
  lemma WriteTakesEffect(s: State, entry: nat, index: nat, value: string, ttl: nat)
    requires entry < |s.entries| && index < |s.entries[entry].slice|
    ensures var e := Next(s, WriteGroups(entry, index, value), ttl);
      && |e.entries| == |s.entries| && |e.entries[entry].slice| == |s.entries[entry].slice| && e.entries[entry].slice[index] == value
      && (forall i, j | 0 <= i < |s.entries| && 0 <= j < |s.entries[i].slice| && (i != entry || j != index) ::
            |e.entries[i].slice| == |s.entries[i].slice| && e.entries[i].slice[j] == s.entries[i].slice[j])
      && e.cache == s.cache && e.now == s.now && e.requests == s.requests && e.answers == s.answers && e.reviews == s.reviews
  {
  }

  function RequestSteps(r: nat, token: string, verdict: Option<Identity>): seq<Step> {
    [Load(r, token), Check(r), Evict(r), ReviewToken(r, verdict), Store(r)]
  }

  predicate Fresh(s: State, token: string) {
    var key := Sha256(token);
    key in s.cache && s.cache[key] < |s.entries| && s.now < s.entries[s.cache[key]].expiresAt
  }

  lemma RunFive(s: State, a: Step, b: Step, c: Step, d: Step, e: Step, ttl: nat)
    ensures Run(s, [a, b, c, d, e], ttl) == Next(Next(Next(Next(Next(s, a, ttl), b, ttl), c, ttl), d, ttl), e, ttl)
  {
    hide Next;
    assert [a, b, c, d, e][..4] == [a, b, c, d] && [a, b, c, d][..3] == [a, b, c] && [a, b, c][..2] == [a, b];
    assert [a, b][..1] == [a] && [a][..0] == [];
    assert Run(s, [a], ttl) == Next(Run(s, [], ttl), a, ttl);
    assert Run(s, [a, b], ttl) == Next(Run(s, [a], ttl), b, ttl);
    assert Run(s, [a, b, c], ttl) == Next(Run(s, [a, b], ttl), c, ttl);
    assert Run(s, [a, b, c, d], ttl) == Next(Run(s, [a, b, c], ttl), d, ttl);
  }

  /** What the first three steps lead to: the answer from the cache, or a miss without the entry. */
  lemma LoneLookup(s: State, r: nat, token: string, ttl: nat) returns (e: State)
    requires RequestOf(s, r).Idle?
    ensures e == Next(Next(Next(s, Load(r, token), ttl), Check(r), ttl), Evict(r), ttl)
    ensures Fresh(s, token) ==>
      var entry := s.cache[Sha256(token)];
      e == Continue(s, r, Idle).(answers := s.answers + [Answer(token, s.entries[entry].username, s.entries[entry].slice, s.now, entry, |s.writes|)])
    ensures !Fresh(s, token) ==> e == Continue(s, r, Missed(token)).(cache := s.cache - {Sha256(token)})
  {
    var s1 := Next(s, Load(r, token), ttl);
    var s2 := Next(s1, Check(r), ttl);
    e := Next(s2, Evict(r), ttl);
    assert s.requests[r := s1.requests[r]][r := s2.requests[r]] == s.requests[r := s2.requests[r]];
    if Sha256(token) !in s.cache {
      assert s.cache - {Sha256(token)} == s.cache;
    } else if !Fresh(s, token) {
      assert s2.requests[r := Missed(token)] == s.requests[r := Missed(token)];
    }
  }

  lemma LoneReview(s: State, r: nat, token: string, verdict: Option<Identity>, ttl: nat) returns (e: State)
    requires RequestOf(s, r) == Missed(token)
    ensures e == Next(Next(s, ReviewToken(r, verdict), ttl), Store(r), ttl)
    ensures RequestOf(e, r).Idle? && e.now == s.now && e.writes == s.writes && e.reviews == s.reviews + [Review(token, verdict)]
    ensures verdict.None? ==> e.entries == s.entries && e.cache == s.cache && e.answers == s.answers
    ensures verdict.Some? ==>
      var id := verdict.value;
      && e.cache == s.cache[Sha256(token) := |s.entries|]
      && e.entries == s.entries + [Entry(token, id.username, id.groups, s.now + ttl, |s.reviews|, s.now)]
      && e.answers == s.answers + [Answer(token, id.username, id.groups, s.now, |s.entries|, |s.writes|)]
  {
    e := Next(Next(s, ReviewToken(r, verdict), ttl), Store(r), ttl);
  }

  lemma NothingToReview(s: State, r: nat, verdict: Option<Identity>, ttl: nat)
    requires RequestOf(s, r).Idle?
    ensures Next(Next(s, ReviewToken(r, verdict), ttl), Store(r), ttl) == s
  {
  }

  /**
   A request whose steps nothing comes between answers from the cache without a review exactly when it has an entry that has
   not expired. Otherwise it asks for one review, and an authenticated one is stored for the time to live.
   */
  lemma LoneRequest(s: State, r: nat, token: string, verdict: Option<Identity>, ttl: nat)
    requires RequestOf(s, r).Idle?
    ensures var e, key := Run(s, RequestSteps(r, token, verdict), ttl), Sha256(token);
      && RequestOf(e, r).Idle? && e.now == s.now && e.writes == s.writes
      && if Fresh(s, token) then
           var cached := s.entries[s.cache[key]];
           && e.reviews == s.reviews && e.entries == s.entries && e.cache == s.cache
           && e.answers == s.answers + [Answer(token, cached.username, cached.slice, s.now, s.cache[key], |s.writes|)]
         else if verdict.None? then
           && e.reviews == s.reviews + [Review(token, None)] && e.entries == s.entries && e.cache == s.cache - {key} && e.answers == s.answers
         else
           var id := verdict.value;
           && e.reviews == s.reviews + [Review(token, verdict)] && e.cache == s.cache[key := |s.entries|]
           && e.entries == s.entries + [Entry(token, id.username, id.groups, s.now + ttl, |s.reviews|, s.now)]
           && e.answers == s.answers + [Answer(token, id.username, id.groups, s.now, |s.entries|, |s.writes|)]
  {
    hide Next, Run;
    RunFive(s, Load(r, token), Check(r), Evict(r), ReviewToken(r, verdict), Store(r), ttl);
    var looked := LoneLookup(s, r, token, ttl);
    if Fresh(s, token) {
      NothingToReview(looked, r, verdict, ttl);
    } else {
      var e := LoneReview(looked, r, token, verdict, ttl);
      assert (s.cache - {Sha256(token)})[Sha256(token) := |s.entries|] == s.cache[Sha256(token) := |s.entries|];
    }
  }

  /** Reading and deleting the keys one after the other. */
  function CleanupSteps(keys: seq<Hash>): seq<Step> {
    if keys == [] then [CleanupStart]
    else
      var last := keys[|keys| - 1];
      CleanupSteps(keys[..|keys| - 1]) + [CleanupRead(last), CleanupDelete(last)]
  }

  predicate Outlived(s: State, key: Hash) {
    key in s.cache && s.cache[key] < |s.entries| && s.now > s.entries[s.cache[key]].expiresAt
  }

  lemma RunTwoMore(s: State, steps: seq<Step>, a: Step, b: Step, ttl: nat)
    ensures Run(s, steps + [a, b], ttl) == Next(Next(Run(s, steps, ttl), a, ttl), b, ttl)
  {
    hide Next;
    var all := steps + [a, b];
    assert all[..|all| - 1] == steps + [a];
    assert (steps + [a])[..|steps|] == steps;
  }

  lemma CleanupBegins(s: State, ttl: nat)
    requires s.cleanup.Waiting?
    ensures Run(s, [CleanupStart], ttl) == s.(cleanup := Ranging(s.now, {}))
  {
    assert [CleanupStart][..0] == [];
    assert Run(s, [], ttl) == s;
  }

  lemma {:induction false} CleanupUpTo(s: State, keys: seq<Hash>, ttl: nat)
    requires s.cleanup.Waiting?
    ensures Run(s, CleanupSteps(keys), ttl)
      == s.(cleanup := Ranging(s.now, {}), cache := map key | key in s.cache && !(key in keys && Outlived(s, key)) :: s.cache[key])
  {
    hide Next;
    if keys == [] {
      CleanupBegins(s, ttl);
      assert s.cache == map key | key in s.cache && !(key in keys && Outlived(s, key)) :: s.cache[key];
    } else {
      var front, last := keys[..|keys| - 1], keys[|keys| - 1];
      CleanupUpTo(s, front, ttl);
      RunTwoMore(s, CleanupSteps(front), CleanupRead(last), CleanupDelete(last), ttl);
      var before := Run(s, CleanupSteps(front), ttl);
      CleanupOne(before, last, ttl);
      assert forall key :: key in keys <==> key in front || key == last;
      var kept := map key | key in s.cache && !(key in keys && Outlived(s, key)) :: s.cache[key];
      assert kept == if Outlived(before, last) then before.cache - {last} else before.cache;
    }
  }

  lemma CleanupOne(s: State, key: Hash, ttl: nat)
    requires s.cleanup == Ranging(s.now, {})
    ensures Next(Next(s, CleanupRead(key), ttl), CleanupDelete(key), ttl) == s.(cache := if Outlived(s, key) then s.cache - {key} else s.cache)
  {
    assert {key} - {key} == {};
  }

  /** A cleanup that nothing comes between drops exactly the entries that have expired, in whatever order it visits the keys. */
  lemma LoneCleanup(s: State, keys: seq<Hash>, ttl: nat)
    requires s.cleanup.Waiting? && forall key | key in s.cache :: key in keys
    ensures Run(s, CleanupSteps(keys) + [CleanupEnd], ttl)
      == s.(cache := map key | key in s.cache && !Outlived(s, key) :: s.cache[key])
  {
    CleanupUpTo(s, keys, ttl);
    assert (CleanupSteps(keys) + [CleanupEnd])[..|CleanupSteps(keys)|] == CleanupSteps(keys);
    assert (map key | key in s.cache && !(key in keys && Outlived(s, key)) :: s.cache[key])
      == map key | key in s.cache && !Outlived(s, key) :: s.cache[key];
  }
}

/** One Authenticate call at a time, with the groups as the shared slices the Go code hands out. */
module TokenCacheSlices {
  import opened Prelude
  import T = TokenCache

  datatype Entry = Entry(username: string, groups: array<string>, expiresAt: int)
  datatype Credential = Credential(user: string, groups: array<string>)
  datatype Error = Unauthenticated | ReviewFailed

  /** What the home cluster answers to a TokenReview. */
  datatype Verdict = Unreachable | Rejected | Accepted(identity: T.Identity)

  const BEARER := "Bearer "

  class Manager {
    const cacheTTL: nat
    var cache: map<T.Hash, Entry>

    constructor (cacheTTL: nat)
      ensures this.cacheTTL == cacheTTL && cache == map[]
    {
      this.cacheTTL, cache := cacheTTL, map[];
    }

    predicate Hit(token: string, now: int)
      reads this
    {
      T.Sha256(token) in cache && now < cache[T.Sha256(token)].expiresAt
    }

    method Authenticate(authorization: string, now: int, verdict: Verdict) returns (r: Result<Credential, Error>)
      modifies this
      ensures !(BEARER <= authorization) ==> r == Err(Unauthenticated) && cache == old(cache)
      ensures BEARER <= authorization ==>
        var token := authorization[|BEARER|..];
        var key := T.Sha256(token);
        if old(Hit(token, now)) then
          // A hit answers from the cache with a slice of its own.
          && cache == old(cache) && r.Ok?
          && r.value.user == cache[key].username && r.value.groups[..] == cache[key].groups[..]
          && fresh(r.value.groups)
        else match verdict
          case Unreachable => r == Err(ReviewFailed) && cache == old(cache) - {key}
          case Rejected => r == Err(Unauthenticated) && cache == old(cache) - {key}
          case Accepted(identity) =>
            // A miss answers with the very slice it stores.
            && r.Ok? && r.value.user == identity.username && r.value.groups[..] == identity.groups
            && fresh(r.value.groups)
            && cache == old(cache)[key := Entry(identity.username, r.value.groups, now + cacheTTL)]
    {
      if !(BEARER <= authorization) {
        return Err(Unauthenticated);
      }
      var token := authorization[|BEARER|..];
      var key := T.Sha256(token);
      if key in cache {
        var cached := cache[key];
        if now < cached.expiresAt {
          var copied := new string[cached.groups.Length](i requires 0 <= i < cached.groups.Length reads cached.groups => cached.groups[i]);
          assert copied[..] == cached.groups[..];
          return Ok(Credential(cached.username, copied));
        }
        cache := cache - {key};
      }
      assert cache == old(cache) - {key};
      match verdict
      case Unreachable => return Err(ReviewFailed);
      case Rejected => return Err(Unauthenticated);
      case Accepted(identity) =>
        var copied := new string[|identity.groups|](i requires 0 <= i < |identity.groups| => identity.groups[i]);
        assert copied[..] == identity.groups;
        cache := cache[key := Entry(identity.username, copied, now + cacheTTL)];
        return Ok(Credential(identity.username, copied));
    }
  }

  /**
   Changing the slice a miss returned changes the next answer for the token exactly if the value differs, for as
   long as the entry lives; changing the slice a hit returned changes nothing.
   */
  method CallerChangesGroups(m: Manager, token: string, identity: T.Identity, now: int, later: int, i: nat, other: string, verdict: Verdict)
    returns (first: Result<Credential, Error>, hit: Result<Credential, Error>, again: Result<Credential, Error>)
    requires now <= later < now + m.cacheTTL && i < |identity.groups| && !m.Hit(token, now)
    modifies m
    ensures first.Ok? && hit.Ok? && again.Ok?
    ensures hit.value.user == again.value.user == identity.username
    ensures again.value.groups[..] == identity.groups[i := other]
    ensures again.value.groups[..] == identity.groups <==> other == identity.groups[i]
  {
    var authorization := BEARER + token;
    assert authorization[|BEARER|..] == token;
    first := m.Authenticate(authorization, now, Accepted(identity));
    first.value.groups[i] := other;
    hit := m.Authenticate(authorization, later, verdict);
    assert hit.value.groups[..] == identity.groups[i := other];
    hit.value.groups[i] := "";
    again := m.Authenticate(authorization, later, verdict);
  }
}
