/** What is in a Capp built from a request, and in the response to any Capp, field by field. */
module CappFaithful {
  import opened Prelude
  import opened CappTypes
  import opened Traversal
  import opened CappConvert
  import opened CappRead

  // ---- Resources -----------------------------------------------------------

  /** The list has exactly CPU and memory, as these texts parse. */
  predicate BothParsed(codec: Codec, q: Quantities, list: ResourceList) {
    list.Keys == {CPU, MEMORY} && codec.parseQuantity(q.cpu) == Some(list[CPU]) && codec.parseQuantity(q.memory) == Some(list[MEMORY])
  }

  /** The list has what the texts name, as they parse, and nothing else. */
  predicate NamedParsed(codec: Codec, q: Option<Quantities>, list: ResourceList) {
    && list.Keys <= {CPU, MEMORY}
    && (CPU in list <==> q.Some? && q.value.cpu != "") && (CPU in list ==> codec.parseQuantity(q.value.cpu) == Some(list[CPU]))
    && (MEMORY in list <==> q.Some? && q.value.memory != "") && (MEMORY in list ==> codec.parseQuantity(q.value.memory) == Some(list[MEMORY]))
  }

  predicate SizeIs(codec: Codec, spec: SizeSpec, res: Resources) {
    BothParsed(codec, spec.requests, res.requests) && BothParsed(codec, spec.limits, res.limits) && res.claims == ""
  }

  /** What an accepted request makes of the container's resources: its size, its custom quantities, or what was there. */
  predicate ResourcesAsked(codec: Codec, sizes: Sizes, req: CappRequest, current: Resources, res: Resources) {
    && (req.size == "small" ==> SizeIs(codec, sizes.small, res))
    && (req.size == "medium" ==> SizeIs(codec, sizes.medium, res))
    && (req.size == "large" ==> SizeIs(codec, sizes.large, res))
    && (req.size == "" && req.customResources.Some? ==>
          && NamedParsed(codec, req.customResources.value.requests, res.requests)
          && NamedParsed(codec, req.customResources.value.limits, res.limits) && res.claims == "")
    && (req.size == "" && req.customResources.None? ==> res == current)
  }

  predicate Parses(codec: Codec, q: Quantities) {
    codec.parseQuantity(q.cpu).Some? && codec.parseQuantity(q.memory).Some?
  }

  predicate NamedParse(codec: Codec, q: Option<Quantities>) {
    q.Some? ==>
      && (q.value.cpu != "" ==> codec.parseQuantity(q.value.cpu).Some?)
      && (q.value.memory != "" ==> codec.parseQuantity(q.value.memory).Some?)
  }

  /** A size and custom quantities exclude each other, the size is one of three, and everything named parses. */
  predicate ResourcesFine(codec: Codec, sizes: Sizes, req: CappRequest) {
    if req.size == "" then
      req.customResources.Some? ==>
        NamedParse(codec, req.customResources.value.requests) && NamedParse(codec, req.customResources.value.limits)
    else
      && req.customResources.None? && req.size in {"small", "medium", "large"}
      && (req.size == "small" ==> Parses(codec, sizes.small.requests) && Parses(codec, sizes.small.limits))
      && (req.size == "medium" ==> Parses(codec, sizes.medium.requests) && Parses(codec, sizes.medium.limits))
      && (req.size == "large" ==> Parses(codec, sizes.large.requests) && Parses(codec, sizes.large.limits))
  }

  lemma ParsedSize(codec: Codec, spec: SizeSpec)
    ensures ParseSize(codec, spec).Ok? <==> Parses(codec, spec.requests) && Parses(codec, spec.limits)
    ensures ParseSize(codec, spec).Ok? ==> SizeIs(codec, spec, ParseSize(codec, spec).value)
  {
  }

  lemma ParsedList(codec: Codec, q: Option<Quantities>)
    ensures ParseList(codec, q).Ok? <==> NamedParse(codec, q)
    ensures ParseList(codec, q).Ok? ==> NamedParsed(codec, q, ParseList(codec, q).value)
  {
  }

  lemma ResourcesExactly(codec: Codec, sizes: Sizes, req: CappRequest, current: Resources)
    ensures ResourcesOf(codec, sizes, req, current).Ok? <==> ResourcesFine(codec, sizes, req)
    ensures ResourcesOf(codec, sizes, req, current).Ok? ==>
      ResourcesAsked(codec, sizes, req, current, ResourcesOf(codec, sizes, req, current).value)
  {
    hide ParseSize, ParseList, Parses, NamedParse, SizeIs, NamedParsed;
    ParsedSize(codec, sizes.small);
    ParsedSize(codec, sizes.medium);
    ParsedSize(codec, sizes.large);
    if req.customResources.Some? {
      ParsedList(codec, req.customResources.value.requests);
      ParsedList(codec, req.customResources.value.limits);
    }
  }

  // ---- A built Capp ----------------------------------------------------------

  /** A plain value, or the one reference that was set. */
  predicate EnvShown(e: EnvVar, k: K8sEnvVar) {
    k.name == e.name &&
    match e.valueFrom
    case None => k.value == e.value && k.valueFrom == None
    case Some(source) =>
      && k.value == "" && k.valueFrom.Some?
      && k.valueFrom.value.secretKeyRef == source.secretKeyRef && k.valueFrom.value.configMapKeyRef == source.configMapKeyRef
  }

  /** One of the two references. */
  predicate EnvFine(e: EnvVar) {
    e.valueFrom.Some? ==> (e.valueFrom.value.secretKeyRef.Some? <==> e.valueFrom.value.configMapKeyRef.None?)
  }

  predicate MountShown(name: string, path: string, k: K8sMount) {
    k.name == name && k.mountPath == path
  }

  /** The request's own mounts, then one for each Secret volume, then one for each ConfigMap volume. */
  predicate MountsShown(req: CappRequest, mounts: seq<K8sMount>) {
    var n, m, k := |req.volumeMounts|, |req.secretVolumes|, |req.configMapVolumes|;
    && |mounts| == n + m + k
    && (forall i | 0 <= i < n :: MountShown(req.volumeMounts[i].name, req.volumeMounts[i].mountPath, mounts[i]))
    && (forall i | 0 <= i < m :: MountShown(req.secretVolumes[i].name, req.secretVolumes[i].mountPath, mounts[n + i]))
    && (forall i | 0 <= i < k :: MountShown(req.configMapVolumes[i].name, req.configMapVolumes[i].mountPath, mounts[n + m + i]))
  }

  predicate SecretShown(v: SecretVolume, k: Volume) {
    k.name == v.name && k.source.Secret? && k.source.secretName == v.secretName
  }

  predicate ConfigMapShown(v: ConfigMapVolume, k: Volume) {
    k.name == v.name && k.source.ConfigMap? && k.source.name == v.configMapName
  }

  predicate VolumesShown(req: CappRequest, volumes: seq<Volume>) {
    var m, k := |req.secretVolumes|, |req.configMapVolumes|;
    && |volumes| == m + k
    && (forall i | 0 <= i < m :: SecretShown(req.secretVolumes[i], volumes[i]))
    && (forall i | 0 <= i < k :: ConfigMapShown(req.configMapVolumes[i], volumes[m + i]))
  }

  predicate NFSShown(codec: Codec, v: NFSVolume, k: K8sNFS) {
    && k.name == v.name && k.server == v.server && k.path == v.path
    && k.capacity.Keys == {STORAGE} && codec.parseQuantity(v.capacity) == Some(k.capacity[STORAGE])
  }

  predicate SourceShown(codec: Codec, s: SourceConfig, k: K8sSource) {
    k.name == s.name && k.ping == s.ping && k.kafka == s.kafka && k.uri == if s.uri == "" then None else codec.parseURL(s.uri)
  }

  predicate SourceFine(codec: Codec, s: SourceConfig) {
    (s.ping.Some? <==> s.kafka.None?) && (s.uri != "" ==> codec.parseURL(s.uri).Some?)
  }

  predicate PartsShown(codec: Codec, req: CappRequest, parts: Parts) {
    && |parts.env| == |req.env| && (forall i | 0 <= i < |req.env| :: EnvShown(req.env[i], parts.env[i]))
    && MountsShown(req, parts.mounts) && VolumesShown(req, parts.volumes)
    && parts.pullSecrets == req.imagePullSecrets
    && |parts.nfs| == |req.nfsVolumes| && (forall i | 0 <= i < |req.nfsVolumes| :: NFSShown(codec, req.nfsVolumes[i], parts.nfs[i]))
    && (req.eventSources.None? ==> parts.sources == [])
    && (req.eventSources.Some? ==>
          |parts.sources| == |req.eventSources.value|
          && forall i | 0 <= i < |req.eventSources.value| :: SourceShown(codec, req.eventSources.value[i], parts.sources[i]))
    && parts.route.route == (if req.routeSpec.None? then RouteSpec("", false, None) else req.routeSpec.value)
    && parts.log == (if req.logSpec.None? then LogSpec("", "", "", "", "", "") else req.logSpec.value)
  }

  lemma MountAt(mounts: seq<VolumeMount>, i: nat)
    requires i < |mounts|
    ensures |MountsToK8s(mounts)| == |mounts| && MountShown(mounts[i].name, mounts[i].mountPath, MountsToK8s(mounts)[i])
  {
  }

  lemma MountsAreShown(req: CappRequest)
    ensures MountsShown(req, MountsToK8s(AllMounts(req)))
  {
    hide AllMounts, MountsToK8s, MountShown;
    MountsAt(req);
    var all, n, m, k := AllMounts(req), |req.volumeMounts|, |req.secretVolumes|, |req.configMapVolumes|;
    var mounts := MountsToK8s(all);
    assert |mounts| == n + m + k by {
      if 0 < |all| {
        MountAt(all, 0);
      } else {
        assert MountsToK8s([]) == [] by { NoMounts(); }
      }
    }
    forall i | 0 <= i < n
      ensures MountShown(req.volumeMounts[i].name, req.volumeMounts[i].mountPath, mounts[i])
    {
      MountAt(all, i);
    }
    forall i | 0 <= i < m
      ensures MountShown(req.secretVolumes[i].name, req.secretVolumes[i].mountPath, mounts[n + i])
    {
      MountAt(all, n + i);
      assert all[n + i] == SecretMounts(req.secretVolumes)[i];
    }
    forall i | 0 <= i < k
      ensures MountShown(req.configMapVolumes[i].name, req.configMapVolumes[i].mountPath, mounts[n + m + i])
    {
      MountAt(all, n + m + i);
      assert all[n + m + i] == ConfigMapMounts(req.configMapVolumes)[i];
    }
  }

  lemma NoMounts()
    ensures MountsToK8s([]) == []
  {
  }

  lemma PartsAreShown(codec: Codec, req: CappRequest)
    requires PartsOf(codec, req).Ok?
    ensures PartsShown(codec, req, PartsOf(codec, req).value)
  {
    hide MountsToK8s, AllMounts, MountsShown;
    var parts := PartsOf(codec, req).value;
    MountsAreShown(req);
    TraverseOk(EnvVarToK8s, req.env);
    TraverseOk(NFSToK8s(codec), req.nfsVolumes);
    TraverseOk(SourceToK8s(codec), SourcesOf(req));
    forall i | 0 <= i < |req.env|
      ensures EnvShown(req.env[i], parts.env[i])
    {
      assert EnvVarToK8s(req.env[i]) == Ok(parts.env[i]);
    }
    forall i | 0 <= i < |req.nfsVolumes|
      ensures NFSShown(codec, req.nfsVolumes[i], parts.nfs[i])
    {
      assert NFSToK8s(codec)(req.nfsVolumes[i]) == Ok(parts.nfs[i]);
    }
    forall i | 0 <= i < |SourcesOf(req)|
      ensures SourceShown(codec, SourcesOf(req)[i], parts.sources[i])
    {
      assert SourceToK8s(codec)(SourcesOf(req)[i]) == Ok(parts.sources[i]);
    }
  }

  /** The names of the mounts, the Secret volumes and the ConfigMap volumes, one list after the other. */
  function NameAt(req: CappRequest, i: nat): string
    requires i < |req.volumeMounts| + |req.secretVolumes| + |req.configMapVolumes|
  {
    var n, m := |req.volumeMounts|, |req.secretVolumes|;
    if i < n then req.volumeMounts[i].name else if i < n + m then req.secretVolumes[i - n].name else req.configMapVolumes[i - n - m].name
  }

  predicate NamesDistinct(req: CappRequest) {
    forall i, j | 0 <= i < j < |req.volumeMounts| + |req.secretVolumes| + |req.configMapVolumes| :: NameAt(req, i) != NameAt(req, j)
  }

  lemma NamesAt(req: CappRequest)
    ensures |AllMounts(req)| == |req.volumeMounts| + |req.secretVolumes| + |req.configMapVolumes|
    ensures forall i | 0 <= i < |AllMounts(req)| :: AllMounts(req)[i].name == NameAt(req, i)
  {
    hide AllMounts;
    MountsAt(req);
    var all, n, m := AllMounts(req), |req.volumeMounts|, |req.secretVolumes|;
    forall i | 0 <= i < |all|
      ensures all[i].name == NameAt(req, i)
    {
      if n <= i < n + m {
        assert all[n + (i - n)] == SecretMounts(req.secretVolumes)[i - n];
      } else if n + m <= i {
        assert all[n + m + (i - n - m)] == ConfigMapMounts(req.configMapVolumes)[i - n - m];
      }
    }
  }

  lemma RepeatsExactly(req: CappRequest)
    ensures FirstRepeat(AllMounts(req)).None? <==> NamesDistinct(req)
  {
    hide FirstRepeat, AllMounts, NameAt;
    FirstRepeatExact(AllMounts(req));
    NamesAt(req);
  }

  predicate PullSecretsFine(codec: Codec, names: seq<string>) {
    && (forall i | 0 <= i < |names| :: codec.validName(names[i]))
    && (forall i, j | 0 <= i < j < |names| :: names[i] != names[j])
  }

  lemma {:induction false} PullSecretsExactly(codec: Codec, names: seq<string>)
    ensures PullSecretError(codec, names).None? <==> PullSecretsFine(codec, names)
  {
    if names != [] {
      var front, last := names[..|names| - 1], names[|names| - 1];
      PullSecretsExactly(codec, front);
      assert last in front <==> exists i :: 0 <= i < |front| && names[i] == last by {
        if last in front {
          var i :| 0 <= i < |front| && front[i] == last;
          assert names[i] == last;
        }
      }
      assert PullSecretsFine(codec, names) ==> PullSecretsFine(codec, front);
    }
  }

  predicate PartsFine(codec: Codec, req: CappRequest) {
    && (forall i | 0 <= i < |req.env| :: EnvFine(req.env[i]))
    && NamesDistinct(req)
    && PullSecretsFine(codec, req.imagePullSecrets)
    && (forall i | 0 <= i < |req.nfsVolumes| :: codec.parseQuantity(req.nfsVolumes[i].capacity).Some?)
    && (req.eventSources.Some? ==> forall i | 0 <= i < |req.eventSources.value| :: SourceFine(codec, req.eventSources.value[i]))
  }

  lemma PartsExactly(codec: Codec, req: CappRequest)
    ensures PartsOf(codec, req).Ok? <==> PartsFine(codec, req)
  {
    hide FirstRepeat, AllMounts, NamesDistinct, PullSecretError, PullSecretsFine, MountsToK8s;
    TraverseOk(EnvVarToK8s, req.env);
    TraverseOk(NFSToK8s(codec), req.nfsVolumes);
    TraverseOk(SourceToK8s(codec), SourcesOf(req));
    RepeatsExactly(req);
    PullSecretsExactly(codec, req.imagePullSecrets);
    assert forall i | 0 <= i < |req.env| :: EnvVarToK8s(req.env[i]).Ok? <==> EnvFine(req.env[i]);
    assert forall i | 0 <= i < |req.nfsVolumes| ::
      NFSToK8s(codec)(req.nfsVolumes[i]).Ok? <==> codec.parseQuantity(req.nfsVolumes[i].capacity).Some?;
    assert forall i | 0 <= i < |SourcesOf(req)| :: SourceToK8s(codec)(SourcesOf(req)[i]).Ok? <==> SourceFine(codec, SourcesOf(req)[i]);
  }

  /** A request is accepted exactly when every part of it is fine, whatever it is laid over. */
  lemma AcceptedExactly(codec: Codec, sizes: Sizes, req: CappRequest, existing: Option<Capp>, namespace: string)
    ensures Built(codec, sizes, req, existing, namespace).Ok? <==> PartsFine(codec, req) && ResourcesFine(codec, sizes, req)
  {
    hide PartsOf, ResourcesOf, PartsFine, ResourcesFine, ResourcesAsked;
    PartsExactly(codec, req);
    ResourcesExactly(codec, sizes, req, FirstContainer(Base(req, existing, namespace).spec).resources);
  }

  // ---- The error of a rejected request ----------------------------------------

  /** Element i is the first that does not convert. */
  ghost predicate FirstBad<A, B>(f: A -> Result<B, Error>, s: seq<A>, i: int, e: Error) {
    0 <= i < |s| && f(s[i]) == Err(e) && forall j | 0 <= j < i :: f(s[j]).Ok?
  }

  lemma {:induction false} TraverseFirst<A, B>(f: A -> Result<B, Error>, s: seq<A>)
    requires Traverse(f, s).Err?
    ensures exists i :: FirstBad(f, s, i, Traverse(f, s).error)
  {
    var front := s[..|s| - 1];
    TraverseOk(f, front);
    if Traverse(f, front).Err? {
      TraverseFirst(f, front);
      var i :| FirstBad(f, front, i, Traverse(f, front).error);
      assert FirstBad(f, s, i, Traverse(f, s).error);
    } else {
      assert FirstBad(f, s, |front|, Traverse(f, s).error);
    }
  }

  predicate EnvRejected(env: seq<EnvVar>, i: int, e: Error) {
    0 <= i < |env| && !EnvFine(env[i]) && (forall j | 0 <= j < i :: EnvFine(env[j])) && e == InvalidEnvVar(env[i].name)
  }

  /** The name at k is the first that was there before; the error is that of its own list. */
  predicate NameRejected(req: CappRequest, k: int, e: Error) {
    var n, m := |req.volumeMounts|, |req.secretVolumes|;
    && 0 <= k < n + m + |req.configMapVolumes|
    && (exists i | 0 <= i < k :: NameAt(req, i) == NameAt(req, k))
    && (forall i, j | 0 <= i < j < k :: NameAt(req, i) != NameAt(req, j))
    && e == if k < n then DuplicateMount(NameAt(req, k)) else if k < n + m then DuplicateSecretVolume(NameAt(req, k)) else DuplicateConfigMapVolume(NameAt(req, k))
  }

  predicate PullSecretRejected(codec: Codec, names: seq<string>, i: int, e: Error) {
    && 0 <= i < |names| && PullSecretsFine(codec, names[..i])
    && if !codec.validName(names[i]) then e == InvalidPullSecret(names[i])
       else (exists j | 0 <= j < i :: names[j] == names[i]) && e == DuplicatePullSecret(names[i])
  }

  predicate NFSRejected(codec: Codec, volumes: seq<NFSVolume>, i: int, e: Error) {
    && 0 <= i < |volumes| && codec.parseQuantity(volumes[i].capacity).None?
    && (forall j | 0 <= j < i :: codec.parseQuantity(volumes[j].capacity).Some?) && e == InvalidCapacity(volumes[i].capacity)
  }

  predicate SourceRejected(codec: Codec, sources: seq<SourceConfig>, i: int, e: Error) {
    && 0 <= i < |sources| && !SourceFine(codec, sources[i]) && (forall j | 0 <= j < i :: SourceFine(codec, sources[j]))
    && e == if sources[i].ping.Some? <==> sources[i].kafka.Some? then InvalidEventSource(sources[i].name) else InvalidURI(sources[i].uri)
  }

  /** The error of the first text, of those that count, that does not parse. */
  predicate TextRejected(codec: Codec, texts: seq<string>, e: Error) {
    exists i | 0 <= i < |texts| ::
      codec.parseQuantity(texts[i]).None? && (forall j | 0 <= j < i :: codec.parseQuantity(texts[j]).Some?) && e == InvalidQuantity(texts[i])
  }

  function TextsOf(q: Option<Quantities>): seq<string> {
    if q.None? then [] else (if q.value.cpu == "" then [] else [q.value.cpu]) + if q.value.memory == "" then [] else [q.value.memory]
  }

  predicate ResourcesRejected(codec: Codec, sizes: Sizes, req: CappRequest, e: Error) {
    if req.size != "" && req.customResources.Some? then e == SizeAndCustomResources
    else if req.size == "" then
      req.customResources.Some?
      && TextRejected(codec, TextsOf(req.customResources.value.requests) + TextsOf(req.customResources.value.limits), e)
    else if req.size !in {"small", "medium", "large"} then e == InvalidSize(req.size)
    else
      var spec := if req.size == "small" then sizes.small else if req.size == "medium" then sizes.medium else sizes.large;
      TextRejected(codec, [spec.requests.cpu, spec.requests.memory, spec.limits.cpu, spec.limits.memory], e)
  }

  /** The first part that is not fine, in the order environment, volumes, pull secrets, NFS volumes, sources, resources. */
  predicate Rejected(codec: Codec, sizes: Sizes, req: CappRequest, e: Error) {
    if exists i | 0 <= i < |req.env| :: !EnvFine(req.env[i]) then exists i | 0 <= i < |req.env| :: EnvRejected(req.env, i, e)
    else if !NamesDistinct(req) then
      exists k | 0 <= k < |req.volumeMounts| + |req.secretVolumes| + |req.configMapVolumes| :: NameRejected(req, k, e)
    else if !PullSecretsFine(codec, req.imagePullSecrets) then
      exists i | 0 <= i < |req.imagePullSecrets| :: PullSecretRejected(codec, req.imagePullSecrets, i, e)
    else if exists i | 0 <= i < |req.nfsVolumes| :: codec.parseQuantity(req.nfsVolumes[i].capacity).None? then
      exists i | 0 <= i < |req.nfsVolumes| :: NFSRejected(codec, req.nfsVolumes, i, e)
    else if exists i | 0 <= i < |SourcesOf(req)| :: !SourceFine(codec, SourcesOf(req)[i]) then
      exists i | 0 <= i < |SourcesOf(req)| :: SourceRejected(codec, SourcesOf(req), i, e)
    else ResourcesRejected(codec, sizes, req, e)
  }

  lemma EnvErrors(env: seq<EnvVar>)
    ensures Traverse(EnvVarToK8s, env).Err? <==> exists i | 0 <= i < |env| :: !EnvFine(env[i])
    ensures Traverse(EnvVarToK8s, env).Err? ==> exists i | 0 <= i < |env| :: EnvRejected(env, i, Traverse(EnvVarToK8s, env).error)
  {
    TraverseOk(EnvVarToK8s, env);
    assert forall i | 0 <= i < |env| :: EnvVarToK8s(env[i]).Ok? <==> EnvFine(env[i]);
    if Traverse(EnvVarToK8s, env).Err? {
      TraverseFirst(EnvVarToK8s, env);
      var i :| FirstBad(EnvVarToK8s, env, i, Traverse(EnvVarToK8s, env).error);
      assert EnvRejected(env, i, Traverse(EnvVarToK8s, env).error);
    }
  }

  lemma NFSErrors(codec: Codec, volumes: seq<NFSVolume>)
    ensures Traverse(NFSToK8s(codec), volumes).Err? <==> exists i | 0 <= i < |volumes| :: codec.parseQuantity(volumes[i].capacity).None?
    ensures Traverse(NFSToK8s(codec), volumes).Err? ==>
      exists i | 0 <= i < |volumes| :: NFSRejected(codec, volumes, i, Traverse(NFSToK8s(codec), volumes).error)
  {
    var f := NFSToK8s(codec);
    TraverseOk(f, volumes);
    assert forall i | 0 <= i < |volumes| :: f(volumes[i]).Ok? <==> codec.parseQuantity(volumes[i].capacity).Some?;
    if Traverse(f, volumes).Err? {
      TraverseFirst(f, volumes);
      var i :| FirstBad(f, volumes, i, Traverse(f, volumes).error);
      assert NFSRejected(codec, volumes, i, Traverse(f, volumes).error);
    }
  }

  lemma SourceErrors(codec: Codec, sources: seq<SourceConfig>)
    ensures Traverse(SourceToK8s(codec), sources).Err? <==> exists i | 0 <= i < |sources| :: !SourceFine(codec, sources[i])
    ensures Traverse(SourceToK8s(codec), sources).Err? ==>
      exists i | 0 <= i < |sources| :: SourceRejected(codec, sources, i, Traverse(SourceToK8s(codec), sources).error)
  {
    var f := SourceToK8s(codec);
    TraverseOk(f, sources);
    assert forall i | 0 <= i < |sources| :: f(sources[i]).Ok? <==> SourceFine(codec, sources[i]);
    if Traverse(f, sources).Err? {
      TraverseFirst(f, sources);
      var i :| FirstBad(f, sources, i, Traverse(f, sources).error);
      assert SourceRejected(codec, sources, i, Traverse(f, sources).error);
    }
  }

  lemma {:induction false} RepeatIsFirst(mounts: seq<VolumeMount>)
    requires FirstRepeat(mounts).Some?
    ensures var k := FirstRepeat(mounts).value;
      k < |mounts| && FirstRepeat(mounts[..k]).None? && exists i | 0 <= i < k :: mounts[i].name == mounts[k].name
  {
    var front := mounts[..|mounts| - 1];
    if FirstRepeat(front).Some? {
      RepeatIsFirst(front);
      var k := FirstRepeat(front).value;
      assert mounts[..k] == front[..k];
    } else {
      var i :| 0 <= i < |front| && front[i].name == mounts[|mounts| - 1].name;
      assert mounts[i].name == mounts[|front|].name;
    }
  }

  lemma NameErrors(req: CappRequest)
    requires FirstRepeat(AllMounts(req)).Some?
    ensures var k := FirstRepeat(AllMounts(req)).value; k < |AllMounts(req)| && NameRejected(req, k, RepeatError(req, k))
  {
    hide FirstRepeat, AllMounts, NameAt;
    var all := AllMounts(req);
    RepeatIsFirst(all);
    var k := FirstRepeat(all).value;
    NamesAt(req);
    FirstRepeatExact(all[..k]);
    var i :| 0 <= i < k && all[i].name == all[k].name;
    assert NameAt(req, i) == NameAt(req, k);
    forall i, j | 0 <= i < j < k
      ensures NameAt(req, i) != NameAt(req, j)
    {
      assert all[..k][i] == all[i] && all[..k][j] == all[j];
    }
  }

  lemma {:induction false} PullSecretErrors(codec: Codec, names: seq<string>)
    requires PullSecretError(codec, names).Some?
    ensures exists i | 0 <= i < |names| :: PullSecretRejected(codec, names, i, PullSecretError(codec, names).value)
  {
    var front, last := names[..|names| - 1], names[|names| - 1];
    var e := PullSecretError(codec, names).value;
    if PullSecretError(codec, front).Some? {
      PullSecretErrors(codec, front);
      var i :| 0 <= i < |front| && PullSecretRejected(codec, front, i, e);
      assert names[..i] == front[..i];
      assert PullSecretRejected(codec, names, i, e);
    } else {
      PullSecretsExactly(codec, front);
      assert PullSecretRejected(codec, names, |front|, e);
    }
  }

  lemma ResourceErrors(codec: Codec, sizes: Sizes, req: CappRequest, current: Resources)
    requires ResourcesOf(codec, sizes, req, current).Err?
    ensures ResourcesRejected(codec, sizes, req, ResourcesOf(codec, sizes, req, current).error)
  {
    if req.size != "" && req.customResources.None? && SizeNamed(sizes, req.size).Some? {
      SizeErrors(codec, SizeNamed(sizes, req.size).value);
    } else if req.size == "" && req.customResources.Some? {
      CustomErrors(codec, req.customResources.value);
    }
  }

  lemma SizeErrors(codec: Codec, spec: SizeSpec)
    ensures ParseSize(codec, spec).Err? ==>
      TextRejected(codec, [spec.requests.cpu, spec.requests.memory, spec.limits.cpu, spec.limits.memory], ParseSize(codec, spec).error)
  {
    var texts := [spec.requests.cpu, spec.requests.memory, spec.limits.cpu, spec.limits.memory];
    assert texts[0] == spec.requests.cpu && texts[1] == spec.requests.memory && texts[2] == spec.limits.cpu && texts[3] == spec.limits.memory;
  }

  lemma ListErrors(codec: Codec, q: Option<Quantities>)
    ensures ParseList(codec, q).Err? ==> TextRejected(codec, TextsOf(q), ParseList(codec, q).error)
    ensures ParseList(codec, q).Ok? ==> forall i | 0 <= i < |TextsOf(q)| :: codec.parseQuantity(TextsOf(q)[i]).Some?
  {
    if q.Some? && q.value.cpu != "" {
      assert TextsOf(q)[0] == q.value.cpu;
    }
    if q.Some? && q.value.memory != "" {
      assert TextsOf(q)[|TextsOf(q)| - 1] == q.value.memory;
    }
  }

  lemma CustomErrors(codec: Codec, spec: ResourceSpec)
    ensures ParseCustom(codec, spec).Err? ==> TextRejected(codec, TextsOf(spec.requests) + TextsOf(spec.limits), ParseCustom(codec, spec).error)
  {
    hide ParseList, TextsOf;
    ListErrors(codec, spec.requests);
    ListErrors(codec, spec.limits);
    var a, b := TextsOf(spec.requests), TextsOf(spec.limits);
    if ParseList(codec, spec.requests).Err? {
      var i :| 0 <= i < |a| && codec.parseQuantity(a[i]).None? && (forall j | 0 <= j < i :: codec.parseQuantity(a[j]).Some?)
               && ParseList(codec, spec.requests).error == InvalidQuantity(a[i]);
      assert (a + b)[i] == a[i];
    } else if ParseList(codec, spec.limits).Err? {
      var i :| 0 <= i < |b| && codec.parseQuantity(b[i]).None? && (forall j | 0 <= j < i :: codec.parseQuantity(b[j]).Some?)
               && ParseList(codec, spec.limits).error == InvalidQuantity(b[i]);
      assert (a + b)[|a| + i] == b[i];
    }
  }

  /** A rejected request is told the first thing wrong with it. */
  lemma RejectedExactly(codec: Codec, sizes: Sizes, req: CappRequest, existing: Option<Capp>, namespace: string)
    requires Built(codec, sizes, req, existing, namespace).Err?
    ensures Rejected(codec, sizes, req, Built(codec, sizes, req, existing, namespace).error)
  {
    hide FirstRepeat, AllMounts, NamesDistinct, PullSecretError, PullSecretsFine, MountsToK8s, ResourcesOf, ResourcesRejected, Traverse;
    hide EnvFine, SourceFine, EnvRejected, NameRejected, PullSecretRejected, NFSRejected, SourceRejected, RepeatError;
    EnvErrors(req.env);
    RepeatsExactly(req);
    if FirstRepeat(AllMounts(req)).Some? {
      NameErrors(req);
      NamesAt(req);
    }
    PullSecretsExactly(codec, req.imagePullSecrets);
    if PullSecretError(codec, req.imagePullSecrets).Some? {
      PullSecretErrors(codec, req.imagePullSecrets);
    }
    NFSErrors(codec, req.nfsVolumes);
    SourceErrors(codec, SourcesOf(req));
    var current := FirstContainer(Base(req, existing, namespace).spec).resources;
    if ResourcesOf(codec, sizes, req, current).Err? {
      ResourceErrors(codec, sizes, req, current);
    }
  }

  // ---- A built Capp as a whole --------------------------------------------------

  /** What the container of an existing Capp has; a new one has nothing. */
  function CurrentResources(existing: Option<Capp>): Resources {
    if existing.Some? && existing.value.spec.pod.containers != [] then existing.value.spec.pod.containers[0].resources
    else Resources(map[], map[], "")
  }

  /** The Capp built from an accepted request, field by field; nothing in it is swapped, dropped or made up. */
  lemma BuiltShows(codec: Codec, sizes: Sizes, req: CappRequest, existing: Option<Capp>, namespace: string) returns (capp: Capp, c: Container)
    requires Built(codec, sizes, req, existing, namespace).Ok?
    ensures capp == Built(codec, sizes, req, existing, namespace).value && capp.spec.pod.containers == [c]
    ensures capp.meta.name == req.name && capp.meta.namespace == namespace
    ensures capp.spec.state == req.state && capp.spec.scaleSpec == req.scaleSpec
    ensures c.name == req.containerName && c.image == req.image
    ensures PartsShown(codec, req, Parts(c.env, c.mounts, capp.spec.pod.volumes, capp.spec.pod.imagePullSecrets,
                                         capp.spec.nfs, capp.spec.sources, capp.spec.route, capp.spec.log))
    ensures ResourcesAsked(codec, sizes, req, CurrentResources(existing), c.resources)
  {
    hide PartsOf, ResourcesOf, PartsShown, ResourcesFine, ResourcesAsked;
    PartsAreShown(codec, req);
    var base := Base(req, existing, namespace);
    ResourcesExactly(codec, sizes, req, FirstContainer(base.spec).resources);
    capp := Built(codec, sizes, req, existing, namespace).value;
    c := capp.spec.pod.containers[0];
  }

  // ---- A response ------------------------------------------------------------

  predicate EnvRead(k: K8sEnvVar, e: EnvVar) {
    e.name == k.name &&
    match k.valueFrom
    case None => e.value == k.value && e.valueFrom == None
    case Some(source) => e.value == "" && e.valueFrom == Some(EnvVarSource(source.secretKeyRef, source.configMapKeyRef))
  }

  predicate NFSRead(codec: Codec, k: K8sNFS, v: NFSVolume) {
    && v.name == k.name && v.server == k.server && v.path == k.path
    && v.capacity == if STORAGE in k.capacity then codec.printQuantity(k.capacity[STORAGE]) else ""
  }

  predicate SourceRead(codec: Codec, k: K8sSource, s: SourceConfig) {
    s.name == k.name && s.ping == k.ping && s.kafka == k.kafka && s.uri == if k.uri.None? then "" else codec.printURL(k.uri.value)
  }

  /** The printed quantities of a list; an empty one is left out. */
  predicate ListRead(codec: Codec, list: ResourceList, q: Option<Quantities>) {
    && (q.None? <==> list == map[])
    && (q.Some? ==> q.value.cpu == if CPU in list then codec.printQuantity(list[CPU]) else "")
    && (q.Some? ==> q.value.memory == if MEMORY in list then codec.printQuantity(list[MEMORY]) else "")
  }

  predicate ResourcesRead(codec: Codec, res: Resources, spec: Option<ResourceSpec>) {
    && (spec.None? <==> res.requests == map[] && res.limits == map[])
    && (spec.Some? ==> ListRead(codec, res.requests, spec.value.requests) && ListRead(codec, res.limits, spec.value.limits))
  }

  /** The text parses to the amount the list has under this name, or to zero if it has none. */
  predicate AmountIs(codec: Codec, text: string, list: ResourceList, name: string) {
    codec.parseQuantity(text).Some? && codec.parseQuantity(text).value.milli == if name in list then list[name].milli else 0
  }

  predicate LimitsAre(codec: Codec, spec: SizeSpec, res: Resources) {
    AmountIs(codec, spec.limits.cpu, res.limits, CPU) && AmountIs(codec, spec.limits.memory, res.limits, MEMORY)
  }

  /** The size is the first of the three whose limits are the container's. */
  predicate SizeRead(codec: Codec, sizes: Sizes, res: Resources, size: string) {
    var small, medium, large := LimitsAre(codec, sizes.small, res), LimitsAre(codec, sizes.medium, res), LimitsAre(codec, sizes.large, res);
    && (size == "small" <==> small) && (size == "medium" <==> medium && !small) && (size == "large" <==> large && !medium && !small)
    && (size == "" <==> !small && !medium && !large)
  }

  lemma ResourcesAreRead(codec: Codec, sizes: Sizes, res: Resources)
    ensures SizeRead(codec, sizes, res, SizeFromResources(codec, sizes, res))
    ensures ResourcesRead(codec, res, ResourceSpecFromK8s(codec, res))
  {
  }

  lemma MapsEach<A, B>(f: A -> B, s: seq<A>)
    ensures |Mapped(f, s)| == |s| && forall i | 0 <= i < |s| :: Mapped(f, s)[i] == f(s[i])
  {
  }

  /** The response to a Capp with a container, field by field; Secret and ConfigMap volumes are CappRead.MountedVolumes. */
  lemma ResponseShows(codec: Codec, sizes: Sizes, capp: Capp) returns (resp: CappResponse)
    requires capp.spec.pod.containers != []
    ensures resp == Response(codec, sizes, capp)
    ensures resp.name == capp.meta.name && resp.namespace == capp.meta.namespace && resp.labels == capp.meta.labels
    ensures resp.state == capp.spec.state && resp.scaleSpec == capp.spec.scaleSpec && resp.imagePullSecrets == capp.spec.pod.imagePullSecrets
    ensures var c := capp.spec.pod.containers[0];
      && resp.image == c.image && resp.containerName == c.name
      && SizeRead(codec, sizes, c.resources, resp.size) && ResourcesRead(codec, c.resources, resp.resources)
      && |resp.env| == |c.env| && (forall i | 0 <= i < |c.env| :: EnvRead(c.env[i], resp.env[i]))
      && |resp.volumeMounts| == |c.mounts|
      && (forall i | 0 <= i < |c.mounts| :: MountShown(resp.volumeMounts[i].name, resp.volumeMounts[i].mountPath, c.mounts[i]))
    ensures |resp.nfsVolumes| == |capp.spec.nfs| && forall i | 0 <= i < |capp.spec.nfs| :: NFSRead(codec, capp.spec.nfs[i], resp.nfsVolumes[i])
    ensures resp.eventSources.None? <==> capp.spec.sources == []
    ensures resp.eventSources.Some? ==>
      && |resp.eventSources.value| == |capp.spec.sources|
      && forall i | 0 <= i < |capp.spec.sources| :: SourceRead(codec, capp.spec.sources[i], resp.eventSources.value[i])
    ensures resp.routeSpec == if capp.spec.route.route == RouteSpec("", false, None) then None else Some(capp.spec.route.route)
    ensures resp.logSpec == if capp.spec.log.logType == "" then None else Some(capp.spec.log)
  {
    hide MountedSecrets, MountedConfigMaps, MountPaths, Mapped, SizeFromResources, ResourceSpecFromK8s, SizeRead, ResourcesRead;
    resp := Response(codec, sizes, capp);
    var c := capp.spec.pod.containers[0];
    ResourcesAreRead(codec, sizes, c.resources);
    MapsEach(EnvVarFromK8s, c.env);
    MapsEach(MountFromK8s, c.mounts);
    MapsEach(NFSFromK8s(codec), capp.spec.nfs);
    MapsEach(SourceFromK8s(codec), capp.spec.sources);
    forall i | 0 <= i < |c.env|
      ensures EnvRead(c.env[i], resp.env[i])
    {
      assert resp.env[i] == EnvVarFromK8s(c.env[i]);
    }
    forall i | 0 <= i < |c.mounts|
      ensures MountShown(resp.volumeMounts[i].name, resp.volumeMounts[i].mountPath, c.mounts[i])
    {
      assert resp.volumeMounts[i] == MountFromK8s(c.mounts[i]);
    }
  }

  /** Where the name was last mounted. */
  predicate LastMounted(mounts: seq<K8sMount>, name: string, path: string) {
    exists i | 0 <= i < |mounts| :: mounts[i].name == name && mounts[i].mountPath == path && forall j | i < j < |mounts| :: mounts[j].name != name
  }

  lemma {:induction false} PathIsLast(mounts: seq<K8sMount>, name: string)
    ensures name in MountPaths(mounts) <==> exists i | 0 <= i < |mounts| :: mounts[i].name == name
    ensures name in MountPaths(mounts) ==> LastMounted(mounts, name, MountPaths(mounts)[name])
  {
    if mounts != [] {
      var front, last := mounts[..|mounts| - 1], mounts[|mounts| - 1];
      PathIsLast(front, name);
      if last.name == name {
        assert LastMounted(mounts, name, last.mountPath);
      } else if name in MountPaths(front) {
        var i :| 0 <= i < |front| && front[i].name == name && front[i].mountPath == MountPaths(front)[name]
                 && forall j | i < j < |front| :: front[j].name != name;
        assert mounts[i].name == name;
      }
    }
  }

  /** The Secret and ConfigMap volumes of a response: volume by volume, in order, those that are mounted, at the path PathIsLast says. */
  lemma VolumesAreRead(volumes: seq<Volume>, more: seq<Volume>, v: Volume, paths: map<string, string>)
    ensures MountedSecrets(volumes + more, paths) == MountedSecrets(volumes, paths) + MountedSecrets(more, paths)
    ensures MountedConfigMaps(volumes + more, paths) == MountedConfigMaps(volumes, paths) + MountedConfigMaps(more, paths)
    ensures MountedSecrets([v], paths)
      == if v.source.Secret? && v.name in paths then [SecretVolume(v.name, v.source.secretName, paths[v.name])] else []
    ensures MountedConfigMaps([v], paths)
      == if v.source.ConfigMap? && v.name in paths then [ConfigMapVolume(v.name, v.source.name, paths[v.name])] else []
  {
    FlatMapConcat(SecretOf(paths), volumes, more);
    FlatMapConcat(ConfigMapOf(paths), volumes, more);
    assert [v][..0] == [];
    assert FlatMap(SecretOf(paths), [v][..0]) == [] && FlatMap(ConfigMapOf(paths), [v][..0]) == [];
  }

  /** Without a container the response says nothing about one. */
  lemma EmptyResponseShows(codec: Codec, sizes: Sizes, capp: Capp)
    requires capp.spec.pod.containers == []
    ensures var resp := Response(codec, sizes, capp);
      && resp.name == capp.meta.name && resp.namespace == capp.meta.namespace && resp.labels == capp.meta.labels
      && resp.image == "" && resp.containerName == "" && resp.size == "" && resp.resources == None
      && resp.env == [] && resp.volumeMounts == [] && resp.secretVolumes == [] && resp.configMapVolumes == []
  {
    NothingMounted(capp.spec.pod.volumes);
  }

  lemma {:induction false} NothingMounted(volumes: seq<Volume>)
    ensures MountedSecrets(volumes, map[]) == [] && MountedConfigMaps(volumes, map[]) == []
  {
    if volumes != [] {
      NothingMounted(volumes[..|volumes| - 1]);
    }
  }

  // ---- Both ------------------------------------------------------------------

  /** Both limits parse to the same amounts. */
  predicate LimitsAlike(codec: Codec, a: SizeSpec, b: SizeSpec) {
    && Parses(codec, a.limits) && Parses(codec, b.limits)
    && codec.parseQuantity(a.limits.cpu).value.milli == codec.parseQuantity(b.limits.cpu).value.milli
    && codec.parseQuantity(a.limits.memory).value.milli == codec.parseQuantity(b.limits.memory).value.milli
  }

  /** The quantities as they print after parsing. */
  predicate Reprints(codec: Codec, q: Quantities, printed: Option<Quantities>) {
    && printed.Some? && Parses(codec, q)
    && printed.value.cpu == codec.printQuantity(codec.parseQuantity(q.cpu).value)
    && printed.value.memory == codec.printQuantity(codec.parseQuantity(q.memory).value)
  }

  /**
   A requested size reads back with its own quantities, and as itself unless an earlier size has the same limits.
   */
  lemma SizeReadsBack(codec: Codec, sizes: Sizes, req: CappRequest, existing: Option<Capp>, namespace: string)
    requires Built(codec, sizes, req, existing, namespace).Ok? && req.size != ""
    ensures var resp := Response(codec, sizes, Built(codec, sizes, req, existing, namespace).value);
      var asked := if req.size == "small" then sizes.small else if req.size == "medium" then sizes.medium else sizes.large;
      && req.size in {"small", "medium", "large"}
      && resp.size == (if LimitsAlike(codec, sizes.small, asked) then "small"
                       else if req.size == "large" && LimitsAlike(codec, sizes.medium, asked) then "medium" else req.size)
      && resp.resources.Some? && Reprints(codec, asked.requests, resp.resources.value.requests)
      && Reprints(codec, asked.limits, resp.resources.value.limits)
  {
    hide Built, Response, PartsShown, PartsFine;
    AcceptedExactly(codec, sizes, req, existing, namespace);
    var capp, c := BuiltShows(codec, sizes, req, existing, namespace);
    var resp := ResponseShows(codec, sizes, capp);
  }
}
