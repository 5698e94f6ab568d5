/** Every pair of backup calls on one Capp, in every order of their steps: exactly when the two stores agree afterwards. */
module BackupPairs {
  import opened Prelude
  import opened GitOpsClient
  import opened GitOpsRemote
  import opened Backup
  import opened BackupRuns
  import opened BackupOverlap

  /** Where the writes of the second call fall: all between the first call's two, one between and one after, or all after. */
  datatype Writes = Inside | Crossing | After

  /**
   a is the call that writes first. b reads before that write or after it; a call that reads after the other's last
   write comes after it, so these are all orders of two calls.
   */
  datatype Pair = Pair(a: Backup.Call, b: Backup.Call, early: bool, writes: Writes)

  datatype Outcome = Outcome(w: Stores, a: Response, b: Response)

  function Together(cfg: Config, w: Stores, p: Pair, f: Faults, g: Faults): Outcome {
    var (w1, a) := Start(cfg, w, Read(cfg, w, p.a, f), f);
    var b := Read(cfg, if p.early then w else w1, p.b, g);
    match p.writes
    case Inside =>
      var (w2, half) := Start(cfg, w1, b, g);
      var (w3, rb) := Complete(cfg, w2, half, g);
      var (w4, ra) := Complete(cfg, w3, a, f);
      Outcome(w4, ra, rb)
    case Crossing =>
      var (w2, half) := Start(cfg, w1, b, g);
      var (w3, ra) := Complete(cfg, w2, a, f);
      var (w4, rb) := Complete(cfg, w3, half, g);
      Outcome(w4, ra, rb)
    case After =>
      var (w2, ra) := Complete(cfg, w1, a, f);
      var (w3, half) := Start(cfg, w2, b, g);
      var (w4, rb) := Complete(cfg, w3, half, g);
      Outcome(w4, ra, rb)
  }

  /** The steps up to the first write and both reads, and the other three. */
  function Before(p: Pair, f: Faults, g: Faults): (steps: seq<Step>)
    ensures |steps| == 3
  {
    if p.early then [Arrive(0, p.a, f), Arrive(1, p.b, g), Move(0, f)] else [Arrive(0, p.a, f), Move(0, f), Arrive(1, p.b, g)]
  }

  function Moves(p: Pair, f: Faults, g: Faults): (steps: seq<Step>)
    ensures |steps| == 3
  {
    match p.writes
    case Inside => [Move(1, g), Move(1, g), Move(0, f)]
    case Crossing => [Move(1, g), Move(0, f), Move(1, g)]
    case After => [Move(0, f), Move(1, g), Move(1, g)]
  }

  function Schedule(p: Pair, f: Faults, g: Faults): seq<Step> {
    Before(p, f, g) + Moves(p, f, g)
  }

  /** Every step works; stored is what the API server persists. */
  predicate Smooth(f: Faults) {
    f.read && f.meta && f.stored.Some? && f.delete && f.patch && f.git == Git(true, true, map[])
  }

  predicate Replaces(call: Backup.Call) {
    (call.Update? && call.valid) || (call.Rollback? && call.template.Some?)
  }

  predicate Syncs(call: Backup.Call, enable: bool) {
    call.SetGitSync? && call.enable == enable
  }

  function Rendered(cfg: Config, key: Key, spec: Spec): Bytes {
    cfg.render(key, spec)
  }

  predicate Alike(cfg: Config, key: Key, a: Spec, b: Spec) {
    Rendered(cfg, key, a) == Rendered(cfg, key, b)
  }

  /** How the live backup label reads. */
  datatype Tag = Unset | Off | On

  function TagOf(labels: map<string, string>): Tag {
    if LABEL !in labels then Unset else if labels[LABEL] == "true" then On else Off
  }

  /** The write of a replacement leaves the Capp as it is, so that its resource version stays. */
  predicate Idle(w: Stores, call: Backup.Call, stored: Spec) {
    call.key in w.capps && Replaces(call) && SameAsLive(w.capps, call.key, Updated(call, w.capps[call.key]).(spec := stored))
  }

  function Updated(call: Backup.Call, live: Capp): Capp
    requires Replaces(call)
  {
    if call.Update? then live else ApplyTemplate(live, call.template.value)
  }

  /**
   The condition, readable before the calls start: tag and spec are those of the live Capp, a and b the specs the API server
   will persist for the two calls, idle says that the first changes nothing. All else is harmless.
   */
  predicate Harmless(cfg: Config, p: Pair, tag: Tag, spec: Spec, a: Spec, b: Spec, idle: bool) {
    var key, overlap := p.a.key, !p.writes.After?;
    if Replaces(p.a) then
      && (Replaces(p.b) && tag.On? && p.writes.Inside? && (p.early ==> idle) ==> Alike(cfg, key, a, b))
      && (p.b.Delete? && p.writes.Inside? ==> !tag.On?)
      && (Syncs(p.b, true) && p.early ==> (tag.On? && overlap) || Alike(cfg, key, a, spec))
      && (Syncs(p.b, false) && overlap ==> !tag.On?)
    else if p.a.Delete? then
      Syncs(p.b, true) && p.early ==> tag.On? && overlap
    else if Syncs(p.a, true) then
      && (Replaces(p.b) && overlap ==> tag.On? || Alike(cfg, key, b, spec))
      && (p.b.Delete? ==> tag.On?)
      && (Syncs(p.b, false) ==> if p.writes.Inside? then tag.On? else !tag.Unset?)
    else if Syncs(p.a, false) then
      && (Replaces(p.b) && overlap ==> !tag.On?)
      && (Syncs(p.b, true) ==> if p.writes.Inside? then tag.Unset? else !tag.On?)
    else true
  }

  /** No write has had the next resource version yet. */
  predicate Fresh(w: Stores, key: Key) {
    key in w.capps ==> w.capps[key].version < w.clock
  }

  /** Two calls on one Capp, every step of which works. */
  predicate PairOk(cfg: Config, w: Stores, p: Pair, f: Faults, g: Faults) {
    Ready(cfg) && p.a.key == p.b.key && Smooth(f) && Smooth(g) && Fresh(w, p.a.key)
  }

  // ---- The pair as it shows on one Capp ---------------------------------------

  datatype Face = Face(tag: Tag, spec: Spec, version: nat)

  /** The Capp and its file, and the next resource version. */
  datatype Sight = Sight(face: Option<Face>, file: Option<Bytes>, clock: nat)

  datatype Intent = Nothing(error: Error) | Make | Replace(version: nat, backup: bool) | Remove(backup: bool) | File(enable: bool, spec: Spec, tag: Tag)
  datatype Due = Over(response: Response) | Back(content: Option<Spec>) | Label(enable: bool, tag: Tag)

  function FaceOf(capp: Capp): Face {
    Face(TagOf(capp.labels), capp.spec, capp.version)
  }

  function Look(cfg: Config, w: Stores, key: Key): Sight {
    var file := FileOf(cfg, key);
    Sight(if key in w.capps then Some(FaceOf(w.capps[key])) else None, if file in w.files then Some(w.files[file]) else None, w.clock)
  }

  function IntentOf(begun: Begun): Intent {
    match begun
    case Refused(error) => Nothing(error)
    case Planned(Creating(_)) => Make
    case Planned(Replacing(_, updated, backup)) => Replace(updated.version, backup)
    case Planned(Deleting(_, backup)) => Remove(backup)
    case Planned(Syncing(_, enable, read)) => File(enable, read.spec, TagOf(read.labels))
  }

  function DueOf(half: Half): Due {
    match half
    case Ended(response) => Over(response)
    case Left(Backing(_, content)) => Back(content)
    case Left(Labelling(_, enable, read)) => Label(enable, TagOf(read))
  }

  function Stored(s: Sight, tag: Tag, spec: Spec, same: bool): Sight {
    if same && s.face.Some? then s.(face := Some(Face(tag, spec, s.face.value.version)))
    else Sight(Some(Face(tag, spec, s.clock)), s.file, s.clock + 1)
  }

  function Filed(cfg: Config, key: Key, s: Sight, content: Option<Spec>): Sight {
    s.(file := if content.Some? then Some(Rendered(cfg, key, content.value)) else None)
  }

  function Reads(s: Sight, call: Backup.Call): Intent {
    if call.Create? then if call.valid then Make else Nothing(BadRequest)
    else if s.face.None? then Nothing(NotFound)
    else if Replaces(call) then Replace(s.face.value.version, s.face.value.tag.On?)
    else if call.Delete? then Remove(s.face.value.tag.On?)
    else if call.SetGitSync? then File(call.enable, s.face.value.spec, s.face.value.tag)
    else Nothing(if call.Update? then BadRequest else NotFound)
  }

  function Starts(cfg: Config, key: Key, s: Sight, intent: Intent, stored: Spec, same: bool): (Sight, Due) {
    match intent
    case Nothing(error) => (s, Over(Failed(error)))
    case Make => if s.face.Some? then (s, Over(Failed(AlreadyExists))) else (Stored(s, Unset, stored, false), Over(Done(false)))
    case Replace(version, backup) =>
      if s.face.None? || s.face.value.version != version then (s, Over(Failed(WriteFailed)))
      else (Stored(s, s.face.value.tag, stored, same), if backup then Back(Some(stored)) else Over(Done(false)))
    case Remove(backup) =>
      if s.face.None? then (s, Over(Failed(WriteFailed))) else (s.(face := None), if backup then Back(None) else Over(Done(false)))
    case File(enable, spec, tag) => (Filed(cfg, key, s, if enable then Some(spec) else None), Label(enable, tag))
  }

  function Completes(cfg: Config, key: Key, s: Sight, due: Due): (Sight, Response) {
    match due
    case Over(response) => (s, response)
    case Back(content) => (Filed(cfg, key, s, content), Done(false))
    case Label(enable, tag) =>
      var wanted := if enable then On else Unset;
      if s.face.None? then (s, Failed(PatchFailed))
      else (if (if enable then tag.On? else tag.Unset?) then s else Stored(s, wanted, s.face.value.spec, s.face.value.tag == wanted), Done(false))
  }

  /** What Together shows on the Capp; sameA and sameB say whether a replacement's write changes nothing. */
  function Seen(cfg: Config, s: Sight, p: Pair, storedA: Spec, storedB: Spec, sameA: bool, sameB: bool): (Sight, Response, Response) {
    var key := p.a.key;
    var (s1, a) := Starts(cfg, key, s, Reads(s, p.a), storedA, sameA);
    var intent := Reads(if p.early then s else s1, p.b);
    match p.writes
    case Inside =>
      var (s2, b) := Starts(cfg, key, s1, intent, storedB, sameB);
      var (s3, rb) := Completes(cfg, key, s2, b);
      var (s4, ra) := Completes(cfg, key, s3, a);
      (s4, ra, rb)
    case Crossing =>
      var (s2, b) := Starts(cfg, key, s1, intent, storedB, sameB);
      var (s3, ra) := Completes(cfg, key, s2, a);
      var (s4, rb) := Completes(cfg, key, s3, b);
      (s4, ra, rb)
    case After =>
      var (s2, ra) := Completes(cfg, key, s1, a);
      var (s3, b) := Starts(cfg, key, s2, intent, storedB, sameB);
      var (s4, rb) := Completes(cfg, key, s3, b);
      (s4, ra, rb)
  }

  predicate Agree(cfg: Config, key: Key, s: Sight) {
    s.file == if s.face.Some? && s.face.value.tag.On? then Some(Rendered(cfg, key, s.face.value.spec)) else None
  }

  predicate SightOk(cfg: Config, s: Sight, p: Pair, a: Spec, idle: bool) {
    && p.a.key == p.b.key && Agree(cfg, p.a.key, s) && (s.face.Some? ==> s.face.value.version < s.clock)
    && (idle ==> s.face.Some? && s.face.value.spec == a)
  }


  /** Agreement is decided by the condition, and a disagreement is told to nobody but a sync whose Capp was deleted meanwhile. */
  predicate Decided(cfg: Config, p: Pair, agree: bool, harmless: bool, ra: Response, rb: Response) {
    && (agree <==> harmless)
    && (!harmless ==>
          && ra == (if Syncs(p.a, true) && p.b.Delete? && !p.writes.After? then Failed(PatchFailed) else Done(false))
          && rb == (if Syncs(p.b, true) && p.a.Delete? then Failed(PatchFailed) else Done(false)))
  }

  predicate SeenDecided(cfg: Config, s: Sight, p: Pair, a: Spec, b: Spec, idle: bool, sameB: bool) {
    var (s', ra, rb) := Seen(cfg, s, p, a, b, idle, sameB);
    Decided(cfg, p, Agree(cfg, p.a.key, s'), s.face.Some? ==> Harmless(cfg, p, s.face.value.tag, s.face.value.spec, a, b, idle), ra, rb)
  }

  lemma SyncFirstInside(cfg: Config, s: Sight, p: Pair, a: Spec, b: Spec, idle: bool, sameB: bool)
    requires SightOk(cfg, s, p, a, idle) && Syncs(p.a, true) && p.writes.Inside?
    ensures SeenDecided(cfg, s, p, a, b, idle, sameB)
  {
    hide Rendered;
  }

  lemma UnsyncFirstInside(cfg: Config, s: Sight, p: Pair, a: Spec, b: Spec, idle: bool, sameB: bool)
    requires SightOk(cfg, s, p, a, idle) && Syncs(p.a, false) && p.writes.Inside?
    ensures SeenDecided(cfg, s, p, a, b, idle, sameB)
  {
    hide Rendered;
  }

  lemma SyncFirstCrossing(cfg: Config, s: Sight, p: Pair, a: Spec, b: Spec, idle: bool, sameB: bool)
    requires SightOk(cfg, s, p, a, idle) && Syncs(p.a, true) && p.writes.Crossing?
    ensures SeenDecided(cfg, s, p, a, b, idle, sameB)
  {
    hide Rendered;
  }

  lemma UnsyncFirstCrossing(cfg: Config, s: Sight, p: Pair, a: Spec, b: Spec, idle: bool, sameB: bool)
    requires SightOk(cfg, s, p, a, idle) && Syncs(p.a, false) && p.writes.Crossing?
    ensures SeenDecided(cfg, s, p, a, b, idle, sameB)
  {
    hide Rendered;
  }

  lemma SyncFirstAfter(cfg: Config, s: Sight, p: Pair, a: Spec, b: Spec, idle: bool, sameB: bool)
    requires SightOk(cfg, s, p, a, idle) && Syncs(p.a, true) && p.writes.After?
    ensures SeenDecided(cfg, s, p, a, b, idle, sameB)
  {
    hide Rendered;
  }

  lemma UnsyncFirstAfter(cfg: Config, s: Sight, p: Pair, a: Spec, b: Spec, idle: bool, sameB: bool)
    requires SightOk(cfg, s, p, a, idle) && Syncs(p.a, false) && p.writes.After?
    ensures SeenDecided(cfg, s, p, a, b, idle, sameB)
  {
    hide Rendered;
  }

  lemma ReplaceFirstInside(cfg: Config, s: Sight, p: Pair, a: Spec, b: Spec, idle: bool, sameB: bool)
    requires SightOk(cfg, s, p, a, idle) && Replaces(p.a) && p.writes.Inside?
    ensures SeenDecided(cfg, s, p, a, b, idle, sameB)
  {
    hide Rendered;
  }

  lemma ReplaceFirstCrossing(cfg: Config, s: Sight, p: Pair, a: Spec, b: Spec, idle: bool, sameB: bool)
    requires SightOk(cfg, s, p, a, idle) && Replaces(p.a) && p.writes.Crossing?
    ensures SeenDecided(cfg, s, p, a, b, idle, sameB)
  {
    hide Rendered;
  }

  lemma ReplaceFirstAfter(cfg: Config, s: Sight, p: Pair, a: Spec, b: Spec, idle: bool, sameB: bool)
    requires SightOk(cfg, s, p, a, idle) && Replaces(p.a) && p.writes.After?
    ensures SeenDecided(cfg, s, p, a, b, idle, sameB)
  {
    hide Rendered;
  }

  lemma OtherFirstInside(cfg: Config, s: Sight, p: Pair, a: Spec, b: Spec, idle: bool, sameB: bool)
    requires SightOk(cfg, s, p, a, idle) && !Replaces(p.a) && !p.a.SetGitSync? && p.writes.Inside?
    ensures SeenDecided(cfg, s, p, a, b, idle, sameB)
  {
    hide Rendered;
  }

  lemma OtherFirstCrossing(cfg: Config, s: Sight, p: Pair, a: Spec, b: Spec, idle: bool, sameB: bool)
    requires SightOk(cfg, s, p, a, idle) && !Replaces(p.a) && !p.a.SetGitSync? && p.writes.Crossing?
    ensures SeenDecided(cfg, s, p, a, b, idle, sameB)
  {
    hide Rendered;
  }

  lemma DeleteFirstAfter(cfg: Config, s: Sight, p: Pair, a: Spec, b: Spec, idle: bool, sameB: bool)
    requires SightOk(cfg, s, p, a, idle) && p.a.Delete? && p.writes.After?
    ensures SeenDecided(cfg, s, p, a, b, idle, sameB)
  {
    hide Rendered;
  }

  lemma CreateFirstAfter(cfg: Config, s: Sight, p: Pair, a: Spec, b: Spec, idle: bool, sameB: bool)
    requires SightOk(cfg, s, p, a, idle) && !Replaces(p.a) && !p.a.SetGitSync? && !p.a.Delete? && p.writes.After?
    ensures SeenDecided(cfg, s, p, a, b, idle, sameB)
  {
    hide Rendered;
  }

  lemma SightDecides(cfg: Config, s: Sight, p: Pair, a: Spec, b: Spec, idle: bool, sameB: bool)
    requires SightOk(cfg, s, p, a, idle)
    ensures SeenDecided(cfg, s, p, a, b, idle, sameB)
  {
    hide SeenDecided, SightOk;
    match p.writes
    case Inside =>
      if Syncs(p.a, true) {
        SyncFirstInside(cfg, s, p, a, b, idle, sameB);
      } else if Syncs(p.a, false) {
        UnsyncFirstInside(cfg, s, p, a, b, idle, sameB);
      } else if Replaces(p.a) {
        ReplaceFirstInside(cfg, s, p, a, b, idle, sameB);
      } else {
        OtherFirstInside(cfg, s, p, a, b, idle, sameB);
      }
    case Crossing =>
      if Syncs(p.a, true) {
        SyncFirstCrossing(cfg, s, p, a, b, idle, sameB);
      } else if Syncs(p.a, false) {
        UnsyncFirstCrossing(cfg, s, p, a, b, idle, sameB);
      } else if Replaces(p.a) {
        ReplaceFirstCrossing(cfg, s, p, a, b, idle, sameB);
      } else {
        OtherFirstCrossing(cfg, s, p, a, b, idle, sameB);
      }
    case After =>
      if Syncs(p.a, true) {
        SyncFirstAfter(cfg, s, p, a, b, idle, sameB);
      } else if Syncs(p.a, false) {
        UnsyncFirstAfter(cfg, s, p, a, b, idle, sameB);
      } else if Replaces(p.a) {
        ReplaceFirstAfter(cfg, s, p, a, b, idle, sameB);
      } else if p.a.Delete? {
        DeleteFirstAfter(cfg, s, p, a, b, idle, sameB);
      } else {
        CreateFirstAfter(cfg, s, p, a, b, idle, sameB);
      }
  }

  // ---- The steps show on the Capp as they should ------------------------------

  /** The write of a replacement changes nothing. */
  predicate Same(w: Stores, begun: Begun, f: Faults) {
    begun.Planned? && begun.plan.Replacing? && f.stored.Some? && SameAsLive(w.capps, begun.plan.key, begun.plan.updated.(spec := f.stored.value))
  }

  /** A plan that read a version knows everything about the Capp of that version, label included. */
  predicate PlanOk(w: Stores, key: Key, begun: Begun) {
    && (begun.Planned? ==> begun.plan.key == key)
    && (begun.Planned? && begun.plan.Replacing? && key in w.capps && w.capps[key].version == begun.plan.updated.version ==>
          TagOf(begun.plan.updated.labels) == TagOf(w.capps[key].labels))
  }

  lemma ReadsAlike(cfg: Config, w: Stores, call: Backup.Call, f: Faults)
    requires Ready(cfg) && Smooth(f)
    ensures IntentOf(Read(cfg, w, call, f)) == Reads(Look(cfg, w, call.key), call)
    ensures PlanOk(w, call.key, Read(cfg, w, call, f))
    ensures Same(w, Read(cfg, w, call, f), f) <==> Idle(w, call, f.stored.value)
  {
  }

  lemma SmoothWrite(cfg: Config, w: Stores, key: Key, content: Option<Spec>, git: Git)
    requires git == Git(true, true, map[])
    ensures Look(cfg, GitWrite(cfg, w, key, content, git), key) == Filed(cfg, key, Look(cfg, w, key), content)
  {
    CarryNothing(w.files);
  }

  lemma StartsAlike(cfg: Config, w: Stores, key: Key, begun: Begun, f: Faults)
    requires Smooth(f) && PlanOk(w, key, begun)
    ensures var (w', half) := Start(cfg, w, begun, f);
      && (Look(cfg, w', key), DueOf(half)) == Starts(cfg, key, Look(cfg, w, key), IntentOf(begun), f.stored.value, Same(w, begun, f))
      && (half.Left? ==> half.rest.key == key)
  {
    hide FileOf, GitWrite;
    if begun.Planned? && begun.plan.Syncing? {
      SmoothWrite(cfg, w, key, if begun.plan.enable then Some(begun.plan.read.spec) else None, f.git);
    }
  }

  lemma CompletesAlike(cfg: Config, w: Stores, key: Key, half: Half, f: Faults)
    requires Smooth(f) && (half.Left? ==> half.rest.key == key)
    ensures var (w', r) := Complete(cfg, w, half, f);
      (Look(cfg, w', key), r) == Completes(cfg, key, Look(cfg, w, key), DueOf(half))
  {
    if half.Left? && half.rest.Backing? {
      SmoothWrite(cfg, w, key, half.rest.content, f.git);
    }
  }

  lemma StartRenews(cfg: Config, w: Stores, key: Key, begun: Begun, f: Faults)
    requires Fresh(w, key) && PlanOk(w, key, begun)
    ensures var w' := Start(cfg, w, begun, f).0; Renewed(w, w', key) && Fresh(w', key)
  {
    hide GitWrite;
    GitWriteKeeps(cfg);
  }

  lemma CompleteRenews(cfg: Config, w: Stores, key: Key, half: Half, f: Faults)
    requires Fresh(w, key) && (half.Left? ==> half.rest.key == key)
    ensures var w' := Complete(cfg, w, half, f).0; Renewed(w, w', key) && Fresh(w', key)
  {
    hide GitWrite;
    GitWriteKeeps(cfg);
  }

  lemma GitWriteKeeps(cfg: Config)
    ensures forall w, key, content, git :: var w' := GitWrite(cfg, w, key, content, git); w'.capps == w.capps && w'.clock == w.clock
  {
  }

  lemma PlanStaysOk(w: Stores, w': Stores, key: Key, begun: Begun)
    requires PlanOk(w, key, begun) && Fresh(w, key) && Renewed(w, w', key)
    requires begun.Planned? && begun.plan.Replacing? ==> key in w.capps && begun.plan.updated.version == w.capps[key].version
    ensures PlanOk(w', key, begun)
  {
  }

  lemma ReadsLive(cfg: Config, w: Stores, call: Backup.Call, f: Faults)
    ensures var begun := Read(cfg, w, call, f);
      begun.Planned? && begun.plan.Replacing? ==> call.key in w.capps && begun.plan.updated.version == w.capps[call.key].version
  {
  }

  /** The whole pair: what Seen says, for the writes of b changing something or not. */
  lemma PairIsSeen(cfg: Config, w: Stores, p: Pair, f: Faults, g: Faults) returns (sameB: bool)
    requires PairOk(cfg, w, p, f, g)
    ensures var o := Together(cfg, w, p, f, g);
      (Look(cfg, o.w, p.a.key), o.a, o.b)
        == Seen(cfg, Look(cfg, w, p.a.key), p, f.stored.value, g.stored.value, Idle(w, p.a, f.stored.value), sameB)
  {
    hide Read, Start, Complete, Look, Reads, Starts, Completes, Idle, Same, PlanOk, Fresh, Renewed;
    var key := p.a.key;
    var begun := Read(cfg, w, p.a, f);
    ReadsAlike(cfg, w, p.a, f);
    StartsAlike(cfg, w, key, begun, f);
    StartRenews(cfg, w, key, begun, f);
    var (w1, a) := Start(cfg, w, begun, f);
    var read := if p.early then w else w1;
    var b := Read(cfg, read, p.b, g);
    ReadsAlike(cfg, read, p.b, g);
    CompletesAlike(cfg, w1, key, a, f);
    CompleteRenews(cfg, w1, key, a, f);
    var w2 := if p.writes.After? then Complete(cfg, w1, a, f).0 else w1;
    StillOk(cfg, w, p, f, g);
    StartsAlike(cfg, w2, key, b, g);
    sameB := Same(w2, b, g);
    var (w3, half) := Start(cfg, w2, b, g);
    CompletesAlike(cfg, w3, key, half, g);
    if p.writes.Inside? {
      CompletesAlike(cfg, Complete(cfg, w3, half, g).0, key, a, f);
    } else if p.writes.Crossing? {
      CompletesAlike(cfg, w3, key, a, f);
      CompletesAlike(cfg, Complete(cfg, w3, a, f).0, key, half, g);
    }
  }

  lemma StillOk(cfg: Config, w: Stores, p: Pair, f: Faults, g: Faults)
    requires PairOk(cfg, w, p, f, g)
    ensures var key := p.a.key;
      var (w1, a) := Start(cfg, w, Read(cfg, w, p.a, f), f);
      var b := Read(cfg, if p.early then w else w1, p.b, g);
      PlanOk(if p.writes.After? then Complete(cfg, w1, a, f).0 else w1, key, b)
  {
    hide Read, Start, Complete, PlanOk;
    var key := p.a.key;
    var begun := Read(cfg, w, p.a, f);
    ReadsAlike(cfg, w, p.a, f);
    StartsAlike(cfg, w, key, begun, f);
    StartRenews(cfg, w, key, begun, f);
    var (w1, a) := Start(cfg, w, begun, f);
    var read := if p.early then w else w1;
    ReadsAlike(cfg, read, p.b, g);
    ReadsLive(cfg, read, p.b, g);
    CompleteRenews(cfg, w1, key, a, f);
    PlanStaysOk(read, if p.writes.After? then Complete(cfg, w1, a, f).0 else w1, key, Read(cfg, read, p.b, g));
  }

  // ---- The results -------------------------------------------------------------

  lemma RunThree(cfg: Config, s: System, x: Step, y: Step, z: Step)
    ensures Run(cfg, s, [x, y, z]) == Next(cfg, Next(cfg, Next(cfg, s, x), y), z)
  {
    hide Next;
    assert [x, y, z][..2] == [x, y] && [x, y][..1] == [x] && [x][..0] == [];
    assert Run(cfg, s, [x]) == Next(cfg, Run(cfg, s, []), x);
    assert Run(cfg, s, [x, y]) == Next(cfg, Run(cfg, s, [x]), y);
  }

  lemma {:induction false} RunInTwo(cfg: Config, s: System, a: seq<Step>, b: seq<Step>)
    ensures Run(cfg, s, a + b) == Run(cfg, Run(cfg, s, a), b)
  {
    hide Next;
    if b == [] {
      assert a + b == a;
    } else {
      assert (a + b)[..|a + b| - 1] == a + b[..|b| - 1];
      RunInTwo(cfg, s, a, b[..|b| - 1]);
    }
  }

  /** The pair as a run of the system. */
  lemma TogetherIsRun(cfg: Config, w: Stores, p: Pair, f: Faults, g: Faults)
    ensures Run(cfg, System(w, map[], {}), Schedule(p, f, g)).w == Together(cfg, w, p, f, g).w
  {
    hide Run, Next, Start, Complete, Read;
    var s := System(w, map[], {});
    var first, moves := Before(p, f, g), Moves(p, f, g);
    RunInTwo(cfg, s, first, moves);
    RunThree(cfg, s, first[0], first[1], first[2]);
    assert first == [first[0], first[1], first[2]] && moves == [moves[0], moves[1], moves[2]];
    var s3, a, b := BothRead(cfg, s, p, f, g);
    RunThree(cfg, s3, moves[0], moves[1], moves[2]);
    match p.writes
    case Inside =>
      var s4, half := StartIsMove(cfg, s3, 1, b, g);
      var s5, _ := CompleteIsMove(cfg, s4, 1, half, g);
      var s6, _ := CompleteIsMove(cfg, s5, 0, a, f);
    case Crossing =>
      var s4, half := StartIsMove(cfg, s3, 1, b, g);
      var s5, _ := CompleteIsMove(cfg, s4, 0, a, f);
      var s6, _ := CompleteIsMove(cfg, s5, 1, half, g);
    case After =>
      var s4, _ := CompleteIsMove(cfg, s3, 0, a, f);
      var s5, half := StartIsMove(cfg, s4, 1, b, g);
      var s6, _ := CompleteIsMove(cfg, s5, 1, half, g);
  }

  lemma BothRead(cfg: Config, s: System, p: Pair, f: Faults, g: Faults) returns (s': System, a: Half, b: Begun)
    requires s.jobs == map[]
    ensures var first, start := Before(p, f, g), Start(cfg, s.w, Read(cfg, s.w, p.a, f), f);
      && s' == Next(cfg, Next(cfg, Next(cfg, s, first[0]), first[1]), first[2])
      && s'.w == start.0 && a == start.1 && b == Read(cfg, if p.early then s.w else start.0, p.b, g)
      && AtHalf(s', 0, a) && AtStart(s', 1, b)
  {
    hide Next, Start, Complete, Read;
    var begun := Read(cfg, s.w, p.a, f);
    var s1 := ArriveIsRead(cfg, s, 0, p.a, f);
    if p.early {
      var s2 := ArriveIsRead(cfg, s1, 1, p.b, g);
      b := Read(cfg, s.w, p.b, g);
      s', a := StartIsMove(cfg, s2, 0, begun, f);
    } else {
      var s2, half := StartIsMove(cfg, s1, 0, begun, f);
      a, b := half, Read(cfg, s2.w, p.b, g);
      s' := ArriveIsRead(cfg, s2, 1, p.b, g);
    }
  }

  /**
   Every pair of calls on a consistent Capp, in every order of their steps, all of which work: the two stores agree afterwards
   exactly when the pair was harmless. Otherwise both calls report success, except a sync whose Capp was deleted before its patch.
   */
  lemma PairsExactly(cfg: Config, w: Stores, p: Pair, f: Faults, g: Faults)
    requires PairOk(cfg, w, p, f, g) && Consistent(cfg, w, p.a.key)
    ensures var key, o := p.a.key, Together(cfg, w, p, f, g);
      var harmless := key in w.capps ==>
        Harmless(cfg, p, TagOf(w.capps[key].labels), w.capps[key].spec, f.stored.value, g.stored.value, Idle(w, p.a, f.stored.value));
      && (Consistent(cfg, o.w, key) <==> harmless)
      && (!harmless ==>
            && o.a == (if Syncs(p.a, true) && p.b.Delete? && !p.writes.After? then Failed(PatchFailed) else Done(false))
            && o.b == (if Syncs(p.b, true) && p.a.Delete? then Failed(PatchFailed) else Done(false)))
  {
    hide Together, Seen, Harmless;
    var sameB := PairIsSeen(cfg, w, p, f, g);
    SightDecides(cfg, Look(cfg, w, p.a.key), p, f.stored.value, g.stored.value, Idle(w, p.a, f.stored.value), sameB);
  }

  /** Of two replacements that both read before either writes, the second is refused exactly when the first changes something. */
  lemma ReplacementsCollide(cfg: Config, w: Stores, p: Pair, f: Faults, g: Faults)
    requires PairOk(cfg, w, p, f, g) && p.a.key in w.capps && Replaces(p.a) && Replaces(p.b) && p.early
    ensures Together(cfg, w, p, f, g).b == Failed(WriteFailed) <==> !Idle(w, p.a, f.stored.value)
  {
    hide Together, Idle;
    var sameB := PairIsSeen(cfg, w, p, f, g);
  }

  /** A create and a sync between the two writes of a delete: all three succeed, and the new Capp has a label without a file. */
  lemma RecreatedInsideDelete(cfg: Config, w: Stores, key: Key, f: Faults, g: Faults, h: Faults)
    requires Ready(cfg) && key in w.capps && HasBackupLabel(w.capps[key].labels) && Smooth(f) && Smooth(g) && Smooth(h)
    ensures var (w1, half) := Start(cfg, w, Read(cfg, w, Backup.Delete(key), f), f);
      var (w2, created) := Handle(cfg, w1, Backup.Create(key, true), g);
      var (w3, synced) := Handle(cfg, w2, SetGitSync(key, true), h);
      var (e, deleted) := Complete(cfg, w3, half, f);
      && created == synced == deleted == Done(false)
      && key in e.capps && HasBackupLabel(e.capps[key].labels) && FileOf(cfg, key) !in e.files
  {
    hide GitWrite;
    GitWriteKeeps(cfg);
    var (w1, half) := Start(cfg, w, Read(cfg, w, Backup.Delete(key), f), f);
    var w2 := Handle(cfg, w1, Backup.Create(key, true), g).0;
    var w3 := Handle(cfg, w2, SetGitSync(key, true), h).0;
    SmoothWrite(cfg, w3, key, None, f.git);
  }
}
