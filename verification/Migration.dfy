/**
 Migrating a Capp to another cluster or namespace: preflight checks, copies of its Secrets and
 ConfigMaps with compensating deletes, the Capp itself, then the optional delete of the source.

 Other writers act on the target namespace before every API call. They may do anything there except
 change or delete what this run created. Every call may also fail without effect.
 */
module Migration {
  import opened Prelude

  datatype Meta = Meta(
    name: string, namespace: string, uid: string, resourceVersion: string, creationTimestamp: string,
    managedFields: seq<string>, ownerReferences: seq<string>, generation: nat, generateName: string,
    labels: map<string, string>, annotations: map<string, string>)

  datatype Body = Data(data: string) | Capp(hostname: string, spec: string, status: string)
  datatype Object = Object(meta: Meta, body: Body)

  /** An object of the target namespace. Only the migrated Capp's own name matters among the Capps. */
  datatype Key = SecretKey(name: string) | ConfigMapKey(name: string) | CappKey

  const BYPASS := "rcs.dana.io/skip-dns-check"

  datatype Error =
    | BadRequest | LookupFailed | NotFound | Conflict(key: Key) | CallFailed | AlreadyExists

  // ---- Preparing the copies ------------------------------------------------

  function StripMetadata(m: Meta, targetNamespace: string): Meta {
    m.(uid := "", resourceVersion := "", creationTimestamp := "", managedFields := [], ownerReferences := [],
       namespace := targetNamespace, generation := 0, generateName := "")
  }

  function PrepareDependent(source: Object, targetNamespace: string): Object {
    source.(meta := StripMetadata(source.meta, targetNamespace))
  }

  function PrepareCapp(source: Object, targetNamespace: string, targetHostname: string): Object
    requires source.body.Capp?
  {
    var meta := StripMetadata(source.meta, targetNamespace);
    var body := source.body.(status := "");
    if targetHostname != "" then Object(meta, body.(hostname := targetHostname))
    else if source.body.hostname != "" then Object(meta.(annotations := meta.annotations[BYPASS := "true"]), body)
    else Object(meta, body)
  }

  function ResolveTargetHostname(sourceHostname: string, targetHostname: string, deleteSource: bool): Result<string, Error> {
    if targetHostname != "" && sourceHostname == "" then Err(BadRequest)
    else if sourceHostname != "" && !deleteSource && targetHostname == "" then Err(BadRequest)
    else if sourceHostname != "" && !deleteSource && targetHostname == sourceHostname then Err(BadRequest)
    else if deleteSource && targetHostname == sourceHostname then Ok("")
    else Ok(targetHostname)
  }

  /** Name and labels stay, the namespace is the target's, and nothing the source cluster assigned is left. */
  predicate Moved(source: Meta, copy: Meta, targetNamespace: string) {
    && copy.name == source.name && copy.labels == source.labels && copy.namespace == targetNamespace
    && copy.uid == "" && copy.resourceVersion == "" && copy.creationTimestamp == "" && copy.managedFields == []
    && copy.ownerReferences == [] && copy.generation == 0 && copy.generateName == ""
  }

  /** The same Secret or ConfigMap in another namespace. */
  predicate FaithfulCopy(source: Object, copy: Object, targetNamespace: string) {
    copy.body == source.body && Moved(source.meta, copy.meta, targetNamespace) && copy.meta.annotations == source.meta.annotations
  }

  /** The same Capp in another namespace, under the hostname asked for or else its own, its status empty; only the bypass may differ. */
  predicate FaithfulCapp(source: Object, copy: Object, targetNamespace: string, targetHostname: string)
    requires source.body.Capp?
  {
    && copy.body == Capp(if targetHostname == "" then source.body.hostname else targetHostname, source.body.spec, "")
    && Moved(source.meta, copy.meta, targetNamespace)
    && copy.meta.annotations - {BYPASS} == source.meta.annotations - {BYPASS}
  }

  /** A hostname for a Capp that has none, or one that both Capps would keep. */
  predicate HostnameRefused(sourceHostname: string, targetHostname: string, deleteSource: bool) {
    if sourceHostname == "" then targetHostname != ""
    else !deleteSource && (targetHostname == "" || targetHostname == sourceHostname)
  }

  lemma PreparedIsFaithful(source: Object, targetNamespace: string, targetHostname: string, deleteSource: bool)
    requires source.body.Capp?
    ensures var eff := ResolveTargetHostname(source.body.hostname, targetHostname, deleteSource);
      && (eff.Err? <==> HostnameRefused(source.body.hostname, targetHostname, deleteSource))
      && (eff.Ok? ==> FaithfulCapp(source, PrepareCapp(source, targetNamespace, eff.value), targetNamespace, targetHostname))
  {
  }

  predicate SharedHostname(a: Object, b: Object)
    requires a.body.Capp? && b.body.Capp?
  {
    a.body.hostname != "" && a.body.hostname == b.body.hostname
  }

  /**
   The prepared Capp carries the bypass exactly when it shares its hostname with the source, which
   happens only when the source is to be deleted and no new hostname was asked for.
   */
  lemma BypassExactlyWhenShared(source: Object, targetNamespace: string, targetHostname: string, deleteSource: bool)
    requires source.body.Capp? && BYPASS !in source.meta.annotations
    ensures var eff := ResolveTargetHostname(source.body.hostname, targetHostname, deleteSource);
      eff.Ok? ==>
        var t := PrepareCapp(source, targetNamespace, eff.value);
        && (BYPASS in t.meta.annotations <==> SharedHostname(source, t))
        && (SharedHostname(source, t)
            <==> deleteSource && source.body.hostname != "" && (targetHostname == "" || targetHostname == source.body.hostname))
        && (t.body.hostname != "" <==> source.body.hostname != "")
  {
  }

  // ---- The two clusters ----------------------------------------------------

  /** The target namespace is what other writers put there and what this run created, never both under one key. */
  datatype State = State(source: Option<Object>, theirs: map<Key, Object>, ours: map<Key, Object>)

  datatype Actor = Us | Them

  /** Every state the clusters went through, latest first. */
  datatype History = Start(state: State) | Then(before: History, actor: Actor, state: State)

  /** The Capp is at the source as it was, or the source is gone and this run's Capp is at the target. */
  predicate CappSurvives(s: State, original: Object) {
    s.source == Some(original) || (s.source == None && CappKey in s.ours)
  }

  predicate HostnameDisciplined(s: State) {
    s.source.Some? && s.source.value.body.Capp? && CappKey in s.ours && s.ours[CappKey].body.Capp? ==>
      SharedHostname(s.source.value, s.ours[CappKey]) ==> BYPASS in s.ours[CappKey].meta.annotations
  }

  predicate StateSafe(s: State, original: Object) {
    s.theirs.Keys !! s.ours.Keys && CappSurvives(s, original) && HostnameDisciplined(s)
  }

  /**
   The history leads from start to its last state; at every state on the way the Capp exists, hostnames are
   disciplined, and no step of this run changed or deleted an object of another writer.
   */
  predicate SafeHistory(h: History, start: State, original: Object) {
    && StateSafe(h.state, original)
    && match h
       case Start(s) => s == start
       case Then(before, actor, s) => SafeHistory(before, start, original) && (actor == Us ==> s.theirs == before.state.theirs)
  }

  /** The keys that another writer's object has been under at some time. */
  function Taken(h: History): set<Key> {
    h.state.theirs.Keys + if h.Start? then {} else Taken(h.before)
  }

  /** One object to be created at the target. */
  datatype Copy = Copy(key: Key, obj: Object)

  /** The copies in the order they are checked, created and, on failure, deleted: Secrets, then ConfigMaps. */
  function DependentCopies(secrets: seq<Object>, configMaps: seq<Object>, targetNamespace: string): seq<Copy> {
    seq(|secrets|, i requires 0 <= i < |secrets| =>
      Copy(SecretKey(secrets[i].meta.name), PrepareDependent(secrets[i], targetNamespace)))
    + seq(|configMaps|, i requires 0 <= i < |configMaps| =>
      Copy(ConfigMapKey(configMaps[i].meta.name), PrepareDependent(configMaps[i], targetNamespace)))
  }

  predicate DistinctNames(objects: seq<Object>) {
    forall i, j | 0 <= i < j < |objects| :: objects[i].meta.name != objects[j].meta.name
  }

  /** Every key at most once, and none of them the Capp's. */
  predicate DistinctKeys(copies: seq<Copy>) {
    && (forall i, j | 0 <= i < j < |copies| :: copies[i].key != copies[j].key)
    && (forall i | 0 <= i < |copies| :: copies[i].key != CappKey)
  }

  /** What the target gains from creating the copies. */
  function Objects(copies: seq<Copy>): map<Key, Object> {
    if copies == [] then map[]
    else Objects(copies[..|copies| - 1])[copies[|copies| - 1].key := copies[|copies| - 1].obj]
  }

  lemma {:induction false} ObjectsKeys(copies: seq<Copy>)
    ensures forall k :: k in Objects(copies) <==> exists i :: 0 <= i < |copies| && copies[i].key == k
  {
    if copies != [] {
      var front := copies[..|copies| - 1];
      ObjectsKeys(front);
      forall k
        ensures k in Objects(copies) <==> exists i :: 0 <= i < |copies| && copies[i].key == k
      {
        if k in Objects(front) {
          var i :| 0 <= i < |front| && front[i].key == k;
          assert copies[i].key == k;
        }
        if k == copies[|copies| - 1].key {
          assert copies[|copies| - 1].key == k;
        }
        if i :| 0 <= i < |copies| && copies[i].key == k {
          assert i < |front| ==> front[i].key == k;
        }
      }
    }
  }

  /** The next copy is new, and adds exactly itself. */
  lemma ObjectsNext(copies: seq<Copy>, i: nat)
    requires i < |copies| && DistinctKeys(copies)
    ensures copies[i].key !in Objects(copies[..i])
    ensures Objects(copies[..i + 1]) == Objects(copies[..i])[copies[i].key := copies[i].obj]
  {
    ObjectsKeys(copies[..i]);
    assert copies[..i + 1][..i] == copies[..i];
  }

  /** Every listed Secret and ConfigMap is copied under its own name with nothing but cluster metadata changed. */
  lemma CopiesAreDistinct(secrets: seq<Object>, configMaps: seq<Object>, targetNamespace: string)
    requires DistinctNames(secrets) && DistinctNames(configMaps)
    ensures DistinctKeys(DependentCopies(secrets, configMaps, targetNamespace))
  {
  }

  lemma {:induction false} ObjectsAt(copies: seq<Copy>, i: nat)
    requires i < |copies| && DistinctKeys(copies)
    ensures copies[i].key in Objects(copies) && Objects(copies)[copies[i].key] == copies[i].obj
  {
    if i < |copies| - 1 {
      ObjectsAt(copies[..|copies| - 1], i);
    }
  }

  /** Every listed Secret and ConfigMap is in the target namespace, whole. */
  predicate AllThere(secrets: seq<Object>, configMaps: seq<Object>, target: map<Key, Object>, targetNamespace: string) {
    && (forall i | 0 <= i < |secrets| ::
          SecretKey(secrets[i].meta.name) in target
          && FaithfulCopy(secrets[i], target[SecretKey(secrets[i].meta.name)], targetNamespace))
    && (forall i | 0 <= i < |configMaps| ::
          ConfigMapKey(configMaps[i].meta.name) in target
          && FaithfulCopy(configMaps[i], target[ConfigMapKey(configMaps[i].meta.name)], targetNamespace))
  }

  lemma CopiesAreFaithful(secrets: seq<Object>, configMaps: seq<Object>, targetNamespace: string)
    requires DistinctNames(secrets) && DistinctNames(configMaps)
    ensures AllThere(secrets, configMaps, Objects(DependentCopies(secrets, configMaps, targetNamespace)), targetNamespace)
  {
    CopiesAreDistinct(secrets, configMaps, targetNamespace);
    var copies := DependentCopies(secrets, configMaps, targetNamespace);
    forall i | 0 <= i < |copies|
      ensures copies[i].key in Objects(copies) && Objects(copies)[copies[i].key] == copies[i].obj
    {
      ObjectsAt(copies, i);
    }
    assert forall i | 0 <= i < |secrets| :: copies[i] == Copy(SecretKey(secrets[i].meta.name), PrepareDependent(secrets[i], targetNamespace));
    assert forall i | 0 <= i < |configMaps| ::
      copies[|secrets| + i] == Copy(ConfigMapKey(configMaps[i].meta.name), PrepareDependent(configMaps[i], targetNamespace));
  }

  predicate Submap(a: map<Key, Object>, b: map<Key, Object>) {
    forall k | k in a :: k in b && a[k] == b[k]
  }

  class Clusters {
    var source: Option<Object>       // the Capp at the source
    var theirs: map<Key, Object>     // what other writers have in the target namespace
    var ours: map<Key, Object>       // what this run has there
    ghost var history: History
    ghost var undeleted: set<Key>    // copies whose compensating delete failed
    ghost var faults: nat            // how many calls have failed
    ghost var met: set<Key>          // where this run found another writer's object in its way
    ghost const start: State
    ghost const original: Object

    ghost function Now(): State
      reads this
    {
      State(source, theirs, ours)
    }

    ghost predicate Valid()
      reads this
    {
      history.state == Now() && SafeHistory(history, start, original) && original.body.Capp? && met <= Taken(history)
    }

    constructor (capp: Object, theirs: map<Key, Object>)
      requires capp.body.Capp?
      ensures Valid() && original == capp && start == State(Some(capp), theirs, map[])
      ensures Now() == start && undeleted == {} && faults == 0 && met == {}
    {
      source, this.theirs, ours, original := Some(capp), theirs, map[], capp;
      undeleted, faults, met := {}, 0, {};
      start := State(Some(capp), theirs, map[]);
      history := Start(State(Some(capp), theirs, map[]));
    }

    /** Anything at all happens to the target, apart from this run's own objects. */
    method OthersAct()
      requires Valid()
      modifies this`theirs, this`history
      ensures Valid()
    {
      var next: map<Key, Object> := *;
      theirs := next - ours.Keys;
      history := Then(history, Them, Now());
    }

    method Get(key: Key) returns (found: bool, failed: bool)
      requires Valid() && key !in ours
      modifies this`theirs, this`history, this`faults, this`met
      ensures Valid()
      ensures !failed ==> (found <==> key in theirs)
      ensures found ==> !failed
      ensures faults == old(faults) + if failed then 1 else 0
      ensures met == old(met) + if found then {key} else {}
    {
      OthersAct();
      failed := *;
      found := !failed && key in theirs + ours;
      if failed {
        faults := faults + 1;
      }
      if found {
        met := met + {key};
      }
    }

    method Create(key: Key, obj: Object) returns (err: Option<Error>)
      requires Valid() && key !in ours
      requires key == CappKey ==> HostnameDisciplined(State(source, map[], map[CappKey := obj]))
      modifies this`theirs, this`ours, this`history, this`faults, this`met
      ensures Valid()
      ensures ours == if err.None? then old(ours)[key := obj] else old(ours)
      ensures err.None? || err == Some(CallFailed) || err == Some(AlreadyExists)
      ensures faults == old(faults) + if err == Some(CallFailed) then 1 else 0
      ensures met == old(met) + if err == Some(AlreadyExists) then {key} else {}
    {
      OthersAct();
      var failed: bool := *;
      if failed {
        faults := faults + 1;
        return Some(CallFailed);
      }
      if key in theirs + ours {
        met := met + {key};
        return Some(AlreadyExists);
      }
      ours := ours[key := obj];
      history := Then(history, Us, Now());
      return None;
    }

    /** Deletes by name, whoever the object belongs to. */
    method Delete(key: Key) returns (err: Option<Error>)
      requires Valid() && key in ours && key != CappKey
      modifies this`theirs, this`ours, this`history, this`undeleted, this`faults
      ensures Valid() && faults >= old(faults)
      ensures err.None? ==> ours == old(ours) - {key} && undeleted == old(undeleted)
      ensures err.Some? ==> ours == old(ours) && undeleted == old(undeleted) + {key}
    {
      OthersAct();
      var failed: bool := *;
      if failed {
        undeleted, faults := undeleted + {key}, faults + 1;
        return Some(CallFailed);
      }
      assert theirs - {key} == theirs;
      theirs := theirs - {key};
      ours := ours - {key};
      history := Then(history, Us, Now());
      return None;
    }

    method DeleteSource() returns (err: Option<Error>)
      requires Valid() && CappKey in ours
      modifies this`source, this`theirs, this`history, this`faults
      ensures Valid()
      ensures source == if err.None? then None else old(source)
      ensures faults == old(faults) + if err.None? then 0 else 1
    {
      OthersAct();
      var failed: bool := *;
      if failed {
        faults := faults + 1;
        return Some(CallFailed);
      }
      source := None;
      history := Then(history, Us, Now());
      return None;
    }

    /** The merge patch that removes the bypass annotation from the Capp at the target. */
    method ClearBypass() returns (err: Option<Error>)
      requires Valid() && CappKey in ours && source == None
      modifies this`theirs, this`ours, this`history, this`faults
      ensures Valid()
      ensures err.Some? ==> ours == old(ours)
      ensures err.None? ==> ours == old(ours)[CappKey := WithoutBypass(old(ours)[CappKey])]
      ensures faults == old(faults) + if err.None? then 0 else 1
    {
      OthersAct();
      var failed: bool := *;
      if failed {
        faults := faults + 1;
        return Some(CallFailed);
      }
      ours := ours[CappKey := WithoutBypass(ours[CappKey])];
      history := Then(history, Us, Now());
      return None;
    }

    /** Best effort: every object is tried, the first error is returned. */
    method CleanupResources(copies: seq<Copy>) returns (err: Option<Error>)
      requires Valid() && DistinctKeys(copies) && ours == Objects(copies) && undeleted == {}
      modifies this`theirs, this`ours, this`history, this`undeleted, this`faults
      ensures Valid() && faults >= old(faults)
      ensures ours.Keys == undeleted && Submap(ours, old(ours))
      ensures err.None? <==> undeleted == {}
    {
      hide SafeHistory, Taken;
      err := None;
      for i := 0 to |copies|
        invariant Valid() && faults >= old(faults)
        invariant Submap(ours, old(ours))
        invariant forall k | k in undeleted :: k in Objects(copies[..i])
        invariant forall k | k in old(ours) :: k in ours <==> k !in Objects(copies[..i]) || k in undeleted
        invariant err.None? <==> undeleted == {}
      {
        ObjectsNext(copies, i);
        assert copies[i].key in Objects(copies) by { ObjectsKeys(copies); }
        var e := Delete(copies[i].key);
        if err.None? {
          err := e;
        }
      }
      assert copies[..|copies|] == copies;
    }

    method CheckNothingThere(copies: seq<Copy>) returns (err: Option<Error>)
      requires Valid() && DistinctKeys(copies) && ours == map[] && met == {}
      modifies this`theirs, this`history, this`faults, this`met
      ensures Valid() && faults >= old(faults) && met <= Objects(copies).Keys
      ensures err.None? <==> faults == old(faults) && met == {}
    {
      hide SafeHistory, Taken, Objects;
      for i := 0 to |copies|
        invariant Valid() && faults == old(faults) && met == {}
      {
        ObjectsAt(copies, i);
        var found, failed := Get(copies[i].key);
        if found {
          return Some(Conflict(copies[i].key));
        } else if failed {
          return Some(CallFailed);
        }
      }
      return None;
    }

    /** Checks that no copy collides, then creates all of them; a failed create deletes the copies already made. */
    method CopyDependentResources(copies: seq<Copy>) returns (err: Option<Error>)
      requires Valid() && DistinctKeys(copies) && ours == map[] && undeleted == {} && met == {}
      modifies this`theirs, this`ours, this`history, this`undeleted, this`faults, this`met
      ensures Valid()
      ensures err.None? ==> ours == Objects(copies) && undeleted == {}
      // It succeeds exactly when no call fails and nothing of another writer is under a copy's key.
      ensures faults >= old(faults) && met <= Objects(copies).Keys
      ensures err.None? <==> faults == old(faults) && met == {}
      ensures err.Some? ==> ours.Keys == undeleted && Submap(ours, Objects(copies))
      ensures err.Some? && err.value.Conflict? ==> ours == map[]
    {
      hide SafeHistory, Taken;
      err := CheckNothingThere(copies);
      if err.Some? {
        return;
      }
      var created: seq<Copy> := [];
      for i := 0 to |copies|
        invariant Valid() && undeleted == {}
        invariant faults == old(faults) && met == {}
        invariant created == copies[..i] && ours == Objects(created)
      {
        ObjectsAt(copies, i);
        ObjectsNext(copies, i);
        var e := Create(copies[i].key, copies[i].obj);
        if e.Some? {
          var _ := CleanupResources(created);
          ObjectsPrefix(copies, i);
          return e;
        }
        created := created + [copies[i]];
        assert created == copies[..i + 1];
      }
      assert copies[..|copies|] == copies;
      return None;
    }

    /** Deletes the source, and then takes the bypass off the Capp at the target. Neither failure undoes anything. */
    method RemoveSource(hasBypass: bool) returns (sourceDeleted: bool, ghost patchFailed: bool)
      requires Valid() && CappKey in ours
      modifies this`source, this`theirs, this`ours, this`history, this`faults
      ensures Valid()
      ensures source == if sourceDeleted then None else old(source)
      ensures patchFailed ==> sourceDeleted && hasBypass
      ensures ours == if sourceDeleted && hasBypass && !patchFailed then old(ours)[CappKey := WithoutBypass(old(ours)[CappKey])] else old(ours)
      ensures faults == old(faults) + (if sourceDeleted then 0 else 1) + (if patchFailed then 1 else 0)
    {
      patchFailed := false;
      var deleteErr := DeleteSource();
      sourceDeleted := deleteErr.None?;
      if sourceDeleted && hasBypass {
        var patchErr := ClearBypass();
        patchFailed := patchErr.Some?;
      }
    }

    /** The Capp after its copies: created, or the copies taken back, and then the tail of a request that deletes the source. */
    method PlaceCapp(copies: seq<Copy>, targetCapp: Object, deleteSource: bool)
      returns (err: Option<Error>, sourceDeleted: bool, ghost patchFailed: bool)
      requires Valid() && DistinctKeys(copies) && ours == Objects(copies) && undeleted == {} && met == {}
      requires HostnameDisciplined(State(source, map[], map[CappKey := targetCapp]))
      modifies this
      ensures Valid()
      ensures sourceDeleted ==> err.None? && deleteSource
      ensures patchFailed ==> sourceDeleted && BYPASS in targetCapp.meta.annotations
      ensures source == if sourceDeleted then None else old(source)
      ensures err.Some? ==> ours.Keys == undeleted && Submap(ours, old(ours)) && (met != {} || faults > old(faults))
      ensures err.None? ==>
        && met == {} && undeleted == {}
        && faults == old(faults) + (if deleteSource && !sourceDeleted then 1 else 0) + (if patchFailed then 1 else 0)
        && ours == old(ours)[CappKey := if sourceDeleted && !patchFailed then WithoutBypass(targetCapp) else targetCapp]
    {
      hide SafeHistory, Taken, Objects;
      sourceDeleted, patchFailed := false, false;
      assert CappKey !in Objects(copies) by { ObjectsKeys(copies); }
      err := Create(CappKey, targetCapp);
      if err.Some? {
        var _ := CleanupResources(copies);
      } else if deleteSource {
        sourceDeleted, patchFailed := RemoveSource(BYPASS in targetCapp.meta.annotations);
        if BYPASS !in targetCapp.meta.annotations {
          WithoutAbsentBypass(targetCapp);
        }
      }
    }

    /**
     The whole request. lookup is the error of any check that reads neither Capp; managed is what the source
     lists as managed Secrets and ConfigMaps, None when listing them failed.
     */
    method Migrate(req: Request, lookup: Option<Error>, managed: Option<(seq<Object>, seq<Object>)>)
      returns (r: Result<Response, Error>, ghost deleteFailed: bool, ghost patchFailed: bool)
      requires Valid() && source == Some(original) && ours == map[] && undeleted == {} && met == {}
      requires managed.Some? ==> DistinctNames(managed.value.0) && DistinctNames(managed.value.1)
      modifies this
      ensures Valid()
      // It fails exactly when it is refused, finds an object of another writer in its way, or a call up to the Capp's create fails.
      ensures r.Err? <==> Refused(original, req, lookup, managed) || met != {}
                          || faults > old(faults) + (if deleteFailed then 1 else 0) + (if patchFailed then 1 else 0)
      // A success has met no other failure than those of the last two calls, which only a request to delete the source makes.
      ensures r.Ok? ==> faults == old(faults) + (if deleteFailed then 1 else 0) + (if patchFailed then 1 else 0)
      ensures deleteFailed || patchFailed ==> r.Ok? && req.deleteSource && (deleteFailed <==> !r.value.sourceDeleted)
      // A failure leaves the source as it was and at the target only copies whose compensating delete failed.
      ensures r.Err? ==> source == old(source) && ours.Keys == undeleted
      ensures r.Err? && undeleted != {} ==> managed.Some? && Submap(ours, Objects(CopiesFor(req, managed.value)))
      // A success has every copy and the prepared Capp in place.
      ensures r.Ok? ==> managed.Some? && Effective(original, req).Ok?
      ensures r.Ok? ==>
        && r.value == Response(req.deleteSource && !deleteFailed, Names(managed.value.0), Names(managed.value.1))
        && source == (if r.value.sourceDeleted then None else old(source))
      ensures r.Ok? ==>
        var prepared := PrepareCapp(original, req.targetNamespace, Effective(original, req).value);
        ours == Objects(CopiesFor(req, managed.value))
          [CappKey := if r.value.sourceDeleted && !patchFailed then WithoutBypass(prepared) else prepared]
      // Everything arrives whole; the bypass is there exactly while the source's hostname may still be in use.
      ensures r.Ok? ==> AllThere(managed.value.0, managed.value.1, ours, req.targetNamespace)
      ensures r.Ok? ==> CappKey in ours && FaithfulCapp(original, ours[CappKey], req.targetNamespace, req.targetHostname)
      ensures r.Ok? && BYPASS !in original.meta.annotations ==>
        (BYPASS in ours[CappKey].meta.annotations <==> KeepsHostname(original, req) && (deleteFailed || patchFailed))
      // A run whose every step worked leaves no bypass and no shared hostname.
      ensures r.Ok? && !deleteFailed && !patchFailed && BYPASS !in original.meta.annotations ==>
        && BYPASS !in ours[CappKey].meta.annotations
        && ours[CappKey].body.Capp?
        && (source.Some? ==> !SharedHostname(original, ours[CappKey]))
    {
      hide SafeHistory, DependentCopies, Taken, AllThere, FaithfulCapp, PrepareCapp, ResolveTargetHostname, SharedHostname, KeepsHostname, HostnameRefused, WithoutBypass, Objects, Names, DistinctNames, DistinctKeys;
      PreparedFacts(original, req);
      deleteFailed, patchFailed := false, false;
      if req.targetCluster == req.sourceCluster && req.targetNamespace == req.sourceNamespace {
        return Err(BadRequest), false, false;
      }
      if lookup.Some? {
        return Err(lookup.value), false, false;
      }
      var found, failed := Get(CappKey);
      if found {
        return Err(Conflict(CappKey)), false, false;
      } else if failed {
        return Err(CallFailed), false, false;
      }
      var capp := source.value;
      var hostname := ResolveTargetHostname(capp.body.hostname, req.targetHostname, req.deleteSource);
      if hostname.Err? {
        return Err(hostname.error), false, false;
      }
      if managed.None? {
        return Err(CallFailed), false, false;
      }
      CopiesAreDistinct(managed.value.0, managed.value.1, req.targetNamespace);
      CopiesAreFaithful(managed.value.0, managed.value.1, req.targetNamespace);
      var copies := CopiesFor(req, managed.value);
      var copyErr := CopyDependentResources(copies);
      if copyErr.Some? {
        return Err(copyErr.value), false, false;
      }
      var targetCapp := PrepareCapp(capp, req.targetNamespace, hostname.value);
      TargetIsFaithful(original, req, managed.value, Objects(copies), targetCapp);
      var placeErr, sourceDeleted;
      placeErr, sourceDeleted, patchFailed := PlaceCapp(copies, targetCapp, req.deleteSource);
      if placeErr.Some? {
        return Err(placeErr.value), false, false;
      }
      deleteFailed := req.deleteSource && !sourceDeleted;
      r := Ok(Response(sourceDeleted, Names(managed.value.0), Names(managed.value.1)));
    }
  }

  datatype Request = Request(
    sourceCluster: string, sourceNamespace: string, targetCluster: string, targetNamespace: string,
    deleteSource: bool, targetHostname: string)

  predicate Refused(capp: Object, req: Request, lookup: Option<Error>, managed: Option<(seq<Object>, seq<Object>)>)
    requires capp.body.Capp?
  {
    || (req.targetCluster == req.sourceCluster && req.targetNamespace == req.sourceNamespace)
    || lookup.Some? || managed.None? || HostnameRefused(capp.body.hostname, req.targetHostname, req.deleteSource)
  }

  /** The copy goes by the source's hostname. */
  predicate KeepsHostname(capp: Object, req: Request)
    requires capp.body.Capp?
  {
    capp.body.hostname != "" && (req.targetHostname == "" || req.targetHostname == capp.body.hostname)
  }

  lemma PreparedFacts(original: Object, req: Request)
    requires original.body.Capp?
    ensures var eff := Effective(original, req);
      && (eff.Err? <==> HostnameRefused(original.body.hostname, req.targetHostname, req.deleteSource))
      && (eff.Err? ==> eff.error == BadRequest)
      && (eff.Ok? ==>
            var t := PrepareCapp(original, req.targetNamespace, eff.value);
            && t.body.Capp? && FaithfulCapp(original, t, req.targetNamespace, req.targetHostname)
            && (SharedHostname(original, t) ==> BYPASS in t.meta.annotations)
            && (BYPASS !in original.meta.annotations ==>
                  && (BYPASS in t.meta.annotations <==> KeepsHostname(original, req))
                  && (SharedHostname(original, t) <==> KeepsHostname(original, req)) && (KeepsHostname(original, req) ==> req.deleteSource)))
  {
    PreparedIsFaithful(original, req.targetNamespace, req.targetHostname, req.deleteSource);
    if BYPASS !in original.meta.annotations {
      BypassExactlyWhenShared(original, req.targetNamespace, req.targetHostname, req.deleteSource);
    }
  }

  lemma TargetIsFaithful(original: Object, req: Request, managed: (seq<Object>, seq<Object>), copies: map<Key, Object>, prepared: Object)
    requires original.body.Capp? && AllThere(managed.0, managed.1, copies, req.targetNamespace)
    requires FaithfulCapp(original, prepared, req.targetNamespace, req.targetHostname)
    ensures AllThere(managed.0, managed.1, copies[CappKey := prepared], req.targetNamespace)
    ensures AllThere(managed.0, managed.1, copies[CappKey := WithoutBypass(prepared)], req.targetNamespace)
    ensures FaithfulCapp(original, WithoutBypass(prepared), req.targetNamespace, req.targetHostname)
    ensures BYPASS !in WithoutBypass(prepared).meta.annotations && WithoutBypass(prepared).body == prepared.body
  {
    assert prepared.meta.annotations - {BYPASS} - {BYPASS} == prepared.meta.annotations - {BYPASS};
  }

  datatype Response = Response(sourceDeleted: bool, copiedSecrets: seq<string>, copiedConfigMaps: seq<string>)

  function CopiesFor(req: Request, managed: (seq<Object>, seq<Object>)): seq<Copy> {
    DependentCopies(managed.0, managed.1, req.targetNamespace)
  }

  function Effective(capp: Object, req: Request): Result<string, Error>
    requires capp.body.Capp?
  {
    ResolveTargetHostname(capp.body.hostname, req.targetHostname, req.deleteSource)
  }

  function Names(objects: seq<Object>): seq<string> {
    seq(|objects|, i requires 0 <= i < |objects| => objects[i].meta.name)
  }

  lemma {:induction false} ObjectsPrefix(copies: seq<Copy>, i: nat)
    requires i <= |copies| && DistinctKeys(copies)
    ensures Submap(Objects(copies[..i]), Objects(copies))
    decreases |copies| - i
  {
    if i == |copies| {
      assert copies[..i] == copies;
    } else {
      ObjectsNext(copies, i);
      ObjectsPrefix(copies, i + 1);
    }
  }

  function WithoutBypass(o: Object): Object {
    o.(meta := o.meta.(annotations := o.meta.annotations - {BYPASS}))
  }

  lemma WithoutAbsentBypass(o: Object)
    requires BYPASS !in o.meta.annotations
    ensures WithoutBypass(o) == o
  {
    assert o.meta.annotations - {BYPASS} == o.meta.annotations;
  }
}
