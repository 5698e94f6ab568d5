/** The update command of the CLI: read the Capp, seed a full request from the response, lay the flags over it, send it back. */
module CappUpdate {
  import opened Prelude
  import opened CappTypes
  import opened Traversal
  import opened CappConvert
  import opened CappRead
  import opened CappRoundTrip

  /** Custom resources are not seeded: without a size the server keeps what the container has. */
  function Seed(current: CappResponse, name: string): CappRequest {
    CappRequest(name, current.scaleSpec, current.state, current.image, current.containerName, current.size, None,
                current.env, current.volumeMounts, current.routeSpec, current.logSpec, current.nfsVolumes,
                current.secretVolumes, current.configMapVolumes, current.imagePullSecrets, current.eventSources)
  }

  /** The mounts that belong to no Secret or ConfigMap volume. */
  function Unmounted(mounts: seq<VolumeMount>, secrets: seq<SecretVolume>, configMaps: seq<ConfigMapVolume>): seq<VolumeMount> {
    if mounts == [] then []
    else
      var last := mounts[|mounts| - 1];
      Unmounted(mounts[..|mounts| - 1], secrets, configMaps)
      + if Named(SecretMounts(secrets), last.name) || Named(ConfigMapMounts(configMaps), last.name) then [] else [last]
  }

  /** The seed with the names of the Secret and ConfigMap volumes taken out of its mounts. */
  function Cleaned(seed: CappRequest): CappRequest {
    seed.(volumeMounts := Unmounted(seed.volumeMounts, seed.secretVolumes, seed.configMapVolumes))
  }

  predicate QuantityPrints(codec: Codec, v: K8sNFS) {
    STORAGE in v.capacity ==> codec.parseQuantity(codec.printQuantity(v.capacity[STORAGE])) == Some(v.capacity[STORAGE])
  }

  predicate URIPrints(codec: Codec, s: K8sSource) {
    s.uri.Some? ==> codec.printURL(s.uri.value) != "" && codec.parseURL(codec.printURL(s.uri.value)) == s.uri
  }

  /** Quantities and URIs print to texts that parse back to them. */
  predicate Canonical(codec: Codec, capp: Capp) {
    && (forall i | 0 <= i < |capp.spec.nfs| :: QuantityPrints(codec, capp.spec.nfs[i]))
    && (forall i | 0 <= i < |capp.spec.sources| :: URIPrints(codec, capp.spec.sources[i]))
  }

  function SizeSpecOf(codec: Codec, sizes: Sizes, res: Resources): Option<SizeSpec> {
    SizeNamed(sizes, SizeFromResources(codec, sizes, res))
  }

  /** Limits that read as a size come with the requests of that size. */
  predicate SizeFaithful(codec: Codec, sizes: Sizes, res: Resources) {
    SizeSpecOf(codec, sizes, res).Some? ==> ParseSize(codec, SizeSpecOf(codec, sizes, res).value) == Ok(res)
  }

  predicate LogTyped(capp: Capp) {
    capp.spec.log.logType == "" ==> capp.spec.log == NO_LOG
  }

  // ---- The mounts ----------------------------------------------------------

  lemma {:induction false} KeepsPlain(mounts: seq<VolumeMount>, secrets: seq<SecretVolume>, configMaps: seq<ConfigMapVolume>)
    requires forall i | 0 <= i < |mounts| ::
      !Named(SecretMounts(secrets), mounts[i].name) && !Named(ConfigMapMounts(configMaps), mounts[i].name)
    ensures Unmounted(mounts, secrets, configMaps) == mounts
  {
    hide Named, SecretMounts, ConfigMapMounts;
    if mounts != [] {
      var front, last := mounts[..|mounts| - 1], mounts[|mounts| - 1];
      KeepsPlain(front, secrets, configMaps);
      assert mounts == front + [last];
    }
  }

  lemma {:induction false} DropsOwned(front: seq<VolumeMount>, owned: seq<VolumeMount>, secrets: seq<SecretVolume>, configMaps: seq<ConfigMapVolume>)
    requires forall i | 0 <= i < |owned| ::
      Named(SecretMounts(secrets), owned[i].name) || Named(ConfigMapMounts(configMaps), owned[i].name)
    ensures Unmounted(front + owned, secrets, configMaps) == Unmounted(front, secrets, configMaps)
    decreases |owned|
  {
    if owned == [] {
      assert front + owned == front;
    } else {
      var less := owned[..|owned| - 1];
      DropsOwned(front, less, secrets, configMaps);
      assert (front + owned)[..|front + owned| - 1] == front + less;
    }
  }

  /** The request's own mounts share no name with the mounts of its volumes. */
  lemma PlainIsUnowned(req: CappRequest, i: nat)
    requires FirstRepeat(AllMounts(req)).None? && i < |req.volumeMounts|
    ensures !Named(SecretMounts(req.secretVolumes), req.volumeMounts[i].name)
    ensures !Named(ConfigMapMounts(req.configMapVolumes), req.volumeMounts[i].name)
  {
    var all, n, m := AllMounts(req), |req.volumeMounts|, |req.secretVolumes|;
    MountsAt(req);
    FirstRepeatExact(all);
    forall j | 0 <= j < m
      ensures SecretMounts(req.secretVolumes)[j].name != req.volumeMounts[i].name
    {
      assert all[i].name != all[n + j].name;
    }
    forall j | 0 <= j < |req.configMapVolumes|
      ensures ConfigMapMounts(req.configMapVolumes)[j].name != req.volumeMounts[i].name
    {
      assert all[i].name != all[n + m + j].name;
    }
  }

  /** Taking the owned names out of all mounts leaves the request's own. */
  lemma OwnMountsRemain(req: CappRequest)
    requires FirstRepeat(AllMounts(req)).None?
    ensures Unmounted(AllMounts(req), req.secretVolumes, req.configMapVolumes) == req.volumeMounts
  {
    var plain, secrets, configMaps := req.volumeMounts, SecretMounts(req.secretVolumes), ConfigMapMounts(req.configMapVolumes);
    forall i | 0 <= i < |plain|
      ensures !Named(secrets, plain[i].name) && !Named(configMaps, plain[i].name)
    {
      PlainIsUnowned(req, i);
    }
    KeepsPlain(plain, req.secretVolumes, req.configMapVolumes);
    DropsOwned(plain, secrets, req.secretVolumes, req.configMapVolumes);
    DropsOwned(plain + secrets, configMaps, req.secretVolumes, req.configMapVolumes);
  }

  // ---- The parts -----------------------------------------------------------

  lemma SameEnv(req: CappRequest)
    requires Traverse(EnvVarToK8s, req.env).Ok?
    ensures Traverse(EnvVarToK8s, Mapped(NormalEnv, req.env)) == Traverse(EnvVarToK8s, req.env)
  {
    TraverseSame(EnvVarToK8s, req.env, Mapped(NormalEnv, req.env));
  }

  lemma SameVolume(codec: Codec, v: NFSVolume, converted: K8sNFS)
    requires NFSToK8s(codec)(v) == Ok(converted) && QuantityPrints(codec, converted)
    ensures codec.parseQuantity(v.capacity).Some? && NFSToK8s(codec)(Reprinted(codec, v)) == Ok(converted)
  {
    assert STORAGE in converted.capacity;
  }

  lemma SameSource(codec: Codec, s: SourceConfig, converted: K8sSource)
    requires SourceToK8s(codec)(s) == Ok(converted) && URIPrints(codec, converted)
    ensures (s.uri != "" ==> codec.parseURL(s.uri).Some?) && SourceToK8s(codec)(ReprintedSource(codec, s)) == Ok(converted)
  {
  }

  lemma {:induction false} SameNFS(codec: Codec, volumes: seq<NFSVolume>, converted: seq<K8sNFS>, reprinted: seq<NFSVolume>)
    requires Traverse(NFSToK8s(codec), volumes) == Ok(converted) && |reprinted| == |volumes|
    requires forall i | 0 <= i < |volumes| ::
      codec.parseQuantity(volumes[i].capacity).Some? && reprinted[i] == Reprinted(codec, volumes[i])
    requires forall i | 0 <= i < |converted| :: QuantityPrints(codec, converted[i])
    ensures Traverse(NFSToK8s(codec), reprinted) == Ok(converted)
  {
    TraverseOk(NFSToK8s(codec), volumes);
    forall i | 0 <= i < |volumes|
      ensures NFSToK8s(codec)(reprinted[i]) == NFSToK8s(codec)(volumes[i])
    {
      SameVolume(codec, volumes[i], converted[i]);
    }
    TraverseSame(NFSToK8s(codec), volumes, reprinted);
  }

  lemma {:induction false} SameSources(codec: Codec, sources: seq<SourceConfig>, converted: seq<K8sSource>, reprinted: seq<SourceConfig>)
    requires Traverse(SourceToK8s(codec), sources) == Ok(converted) && |reprinted| == |sources|
    requires forall i | 0 <= i < |sources| ::
      (sources[i].uri != "" ==> codec.parseURL(sources[i].uri).Some?) && reprinted[i] == ReprintedSource(codec, sources[i])
    requires forall i | 0 <= i < |converted| :: URIPrints(codec, converted[i])
    ensures Traverse(SourceToK8s(codec), reprinted) == Ok(converted)
  {
    TraverseOk(SourceToK8s(codec), sources);
    forall i | 0 <= i < |sources|
      ensures SourceToK8s(codec)(reprinted[i]) == SourceToK8s(codec)(sources[i])
    {
      SameSource(codec, sources[i], converted[i]);
    }
    TraverseSame(SourceToK8s(codec), sources, reprinted);
  }

  /** Apart from an untyped log, the cleaned seed has the parts of the request the Capp was built from. */
  lemma CleanedParts(codec: Codec, sizes: Sizes, req: CappRequest, existing: Option<Capp>, namespace: string)
    returns (capp: Capp, clean: CappRequest)
    requires Built(codec, sizes, req, existing, namespace).Ok? && Canonical(codec, Built(codec, sizes, req, existing, namespace).value)
    ensures capp == Built(codec, sizes, req, existing, namespace).value
    ensures clean == Cleaned(Seed(Response(codec, sizes, capp), capp.meta.name))
    ensures PartsOf(codec, clean) == Ok(PartsOf(codec, req).value.(log := if capp.spec.log.logType == "" then NO_LOG else capp.spec.log))
    ensures clean.name == req.name && clean.image == req.image && clean.containerName == req.containerName
    ensures clean.state == req.state && clean.scaleSpec == req.scaleSpec
    ensures clean.size == SizeFromResources(codec, sizes, capp.spec.pod.containers[0].resources) && clean.customResources == None
  {
    var resp := RoundTrip(codec, sizes, req, existing, namespace);
    capp := Built(codec, sizes, req, existing, namespace).value;
    clean := Cleaned(Seed(resp, capp.meta.name));
    var parts := PartsOf(codec, req).value;
    SameEnv(req);
    OwnMountsRemain(req);
    SameNFS(codec, req.nfsVolumes, parts.nfs, clean.nfsVolumes);
    SameSources(codec, SourcesOf(req), parts.sources, SourcesOf(clean));
    assert AllMounts(clean) == AllMounts(req);
  }

  // ---- Reading and writing back --------------------------------------------

  /** Mounts listed once in general and once more for their volume always collide. */
  lemma SeedCollides(codec: Codec, seed: CappRequest, req: CappRequest)
    requires seed.volumeMounts == AllMounts(req)
    requires seed.secretVolumes == req.secretVolumes && seed.configMapVolumes == req.configMapVolumes
    requires req.secretVolumes != [] || req.configMapVolumes != []
    ensures PartsOf(codec, seed).Err?
  {
    var all, n, m := AllMounts(seed), |req.volumeMounts|, |seed.volumeMounts|;
    FirstOwned(req);
    FirstOwned(seed);
    assert all[n] == seed.volumeMounts[n];
    FirstRepeatExact(all);
    assert all[n].name == all[m].name;
  }

  /** After a request's own mounts comes that of its first volume. */
  lemma FirstOwned(req: CappRequest)
    requires req.secretVolumes != [] || req.configMapVolumes != []
    ensures var all, n := AllMounts(req), |req.volumeMounts|;
      && n < |all|
      && (forall i | 0 <= i < n :: all[i] == req.volumeMounts[i])
      && all[n] == if req.secretVolumes != [] then VolumeMount(req.secretVolumes[0].name, req.secretVolumes[0].mountPath)
                   else VolumeMount(req.configMapVolumes[0].name, req.configMapVolumes[0].mountPath)
  {
    MountsAt(req);
    var all, n := AllMounts(req), |req.volumeMounts|;
    if req.secretVolumes != [] {
      assert all[n + 0] == SecretMounts(req.secretVolumes)[0];
    } else {
      assert all[n + 0 + 0] == ConfigMapMounts(req.configMapVolumes)[0];
    }
  }

  /**
   The seed of an unchanged update is rejected exactly when the Capp has a mounted Secret or ConfigMap volume
   (or its limits read as a size whose own quantities do not parse). With the names of those volumes taken out of
   its mounts, it gives the same Capp exactly when limits that read as a size come with its requests and the log has a type.
   */
  lemma UpdateRoundTrip(codec: Codec, sizes: Sizes, req: CappRequest, existing: Option<Capp>, namespace: string)
    returns (capp: Capp, seed: CappRequest)
    requires Built(codec, sizes, req, existing, namespace).Ok? && Canonical(codec, Built(codec, sizes, req, existing, namespace).value)
    ensures capp == Built(codec, sizes, req, existing, namespace).value
    ensures seed == Seed(Response(codec, sizes, capp), capp.meta.name)
    ensures seed.secretVolumes == req.secretVolumes && seed.configMapVolumes == req.configMapVolumes
    ensures Built(codec, sizes, seed, Some(capp), namespace).Err?
      <==> seed.secretVolumes != [] || seed.configMapVolumes != []
           || (var spec := SizeSpecOf(codec, sizes, capp.spec.pod.containers[0].resources);
               spec.Some? && ParseSize(codec, spec.value).Err?)
    ensures Built(codec, sizes, Cleaned(seed), Some(capp), namespace) == Ok(capp)
      <==> SizeFaithful(codec, sizes, capp.spec.pod.containers[0].resources) && LogTyped(capp)
  {
    var clean;
    capp, clean := CleanedParts(codec, sizes, req, existing, namespace);
    var resp := RoundTrip(codec, sizes, req, existing, namespace);
    seed := Seed(resp, capp.meta.name);
    assert clean == Cleaned(seed);
    CleanedBuilds(codec, sizes, clean, capp, namespace);
    if seed.secretVolumes != [] || seed.configMapVolumes != [] {
      SeedCollides(codec, seed, req);
    } else {
      KeepsPlain(seed.volumeMounts, [], []);
      assert clean == seed;
    }
  }

  lemma SizesAreNamed(codec: Codec, sizes: Sizes, res: Resources)
    ensures SizeSpecOf(codec, sizes, res).Some? <==> SizeFromResources(codec, sizes, res) != ""
  {
  }

  /** Laying a Capp's own parts over it changes its resources and its log only. */
  lemma OwnPartsAssemble(clean: CappRequest, capp: Capp, parts: Parts, resources: Resources)
    requires |capp.spec.pod.containers| == 1
    requires var c, spec := capp.spec.pod.containers[0], capp.spec;
      && parts == Parts(c.env, c.mounts, spec.pod.volumes, spec.pod.imagePullSecrets, spec.nfs, spec.sources, spec.route, parts.log)
      && clean.image == c.image && clean.containerName == c.name && clean.state == spec.state && clean.scaleSpec == spec.scaleSpec
    ensures Assemble(clean, capp, parts, resources) == capp
      <==> resources == capp.spec.pod.containers[0].resources && parts.log == capp.spec.log
  {
    var c := capp.spec.pod.containers[0];
    var again := Assemble(clean, capp, parts, resources);
    assert again.spec.pod.containers[0] == c.(resources := resources);
    assert capp.spec.pod.containers == [c];
    if resources == c.resources && parts.log == capp.spec.log {
      assert again.spec.pod.containers == capp.spec.pod.containers;
      assert again.spec.pod == capp.spec.pod;
    }
  }

  /** What the server makes of a cleaned seed, by its parts and its size. */
  lemma CleanedBuilds(codec: Codec, sizes: Sizes, clean: CappRequest, capp: Capp, namespace: string)
    requires |capp.spec.pod.containers| == 1 && capp.meta.name == clean.name && capp.meta.namespace == namespace
    requires var c := capp.spec.pod.containers[0];
      PartsOf(codec, clean) == Ok(Parts(c.env, c.mounts, capp.spec.pod.volumes, capp.spec.pod.imagePullSecrets, capp.spec.nfs,
        capp.spec.sources, capp.spec.route, if capp.spec.log.logType == "" then NO_LOG else capp.spec.log))
      && clean.image == c.image && clean.containerName == c.name && clean.state == capp.spec.state && clean.scaleSpec == capp.spec.scaleSpec
      && clean.size == SizeFromResources(codec, sizes, c.resources) && clean.customResources == None
    ensures var c := capp.spec.pod.containers[0];
      var spec := SizeSpecOf(codec, sizes, c.resources);
      && (Built(codec, sizes, clean, Some(capp), namespace).Err? <==> spec.Some? && ParseSize(codec, spec.value).Err?)
      && (Built(codec, sizes, clean, Some(capp), namespace) == Ok(capp) <==> SizeFaithful(codec, sizes, c.resources) && LogTyped(capp))
  {
    var c := capp.spec.pod.containers[0];
    SizesAreNamed(codec, sizes, c.resources);
    assert Base(clean, Some(capp), namespace) == capp;
    var resources := ResourcesOf(codec, sizes, clean, c.resources);
    if resources.Ok? {
      OwnPartsAssemble(clean, capp, PartsOf(codec, clean).value, resources.value);
    }
  }
}
