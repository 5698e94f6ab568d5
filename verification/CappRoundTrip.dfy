/** What converting a request and reading the Capp back promise about each other. */
module CappRoundTrip {
  import opened Prelude
  import opened CappTypes
  import opened Traversal
  import opened CappConvert
  import opened CappRead

  // ---- What a request reads back as ----------------------------------------

  /** A value beside a valueFrom is dropped. */
  function NormalEnv(e: EnvVar): EnvVar {
    if e.valueFrom.Some? then e.(value := "") else e
  }

  /** Texts come back as the libraries print what they parsed. */
  function Reprinted(codec: Codec, v: NFSVolume): NFSVolume
    requires codec.parseQuantity(v.capacity).Some?
  {
    v.(capacity := codec.printQuantity(codec.parseQuantity(v.capacity).value))
  }

  function ReprintedSource(codec: Codec, s: SourceConfig): SourceConfig
    requires s.uri != "" ==> codec.parseURL(s.uri).Some?
  {
    if s.uri == "" then s else s.(uri := codec.printURL(codec.parseURL(s.uri).value))
  }

  lemma {:induction false} PathsOfDistinct(mounts: seq<VolumeMount>)
    requires FirstRepeat(mounts).None?
    ensures var paths := MountPaths(MountsToK8s(mounts));
      && (forall i | 0 <= i < |mounts| :: mounts[i].name in paths && paths[mounts[i].name] == mounts[i].mountPath)
  {
    if mounts != [] {
      var front, last := mounts[..|mounts| - 1], mounts[|mounts| - 1];
      PathsOfDistinct(front);
      var k8s := MountsToK8s(mounts);
      assert k8s[..|k8s| - 1] == MountsToK8s(front);
      forall i | 0 <= i < |front|
        ensures mounts[i].name != last.name
      {
        assert !Named(front, last.name);
        assert front[i].name != last.name;
      }
    }
  }

  lemma {:induction false} SecretsReadBack(secrets: seq<SecretVolume>, paths: map<string, string>)
    requires forall i | 0 <= i < |secrets| :: secrets[i].name in paths && paths[secrets[i].name] == secrets[i].mountPath
    ensures MountedSecrets(SecretVolumesToK8s(secrets), paths) == secrets
    ensures MountedConfigMaps(SecretVolumesToK8s(secrets), paths) == []
  {
    hide FlatMap;
    FlatMapLast(SecretOf(paths), SecretVolumesToK8s(secrets));
    FlatMapLast(ConfigMapOf(paths), SecretVolumesToK8s(secrets));
    if secrets != [] {
      var front := secrets[..|secrets| - 1];
      SecretsReadBack(front, paths);
      var volumes := SecretVolumesToK8s(secrets);
      assert volumes[..|volumes| - 1] == SecretVolumesToK8s(front);
    }
  }

  lemma {:induction false} ConfigMapsReadBack(configMaps: seq<ConfigMapVolume>, paths: map<string, string>)
    requires forall i | 0 <= i < |configMaps| :: configMaps[i].name in paths && paths[configMaps[i].name] == configMaps[i].mountPath
    ensures MountedSecrets(ConfigMapVolumesToK8s(configMaps), paths) == []
    ensures MountedConfigMaps(ConfigMapVolumesToK8s(configMaps), paths) == configMaps
  {
    hide FlatMap;
    FlatMapLast(SecretOf(paths), ConfigMapVolumesToK8s(configMaps));
    FlatMapLast(ConfigMapOf(paths), ConfigMapVolumesToK8s(configMaps));
    if configMaps != [] {
      var front := configMaps[..|configMaps| - 1];
      ConfigMapsReadBack(front, paths);
      var volumes := ConfigMapVolumesToK8s(configMaps);
      assert volumes[..|volumes| - 1] == ConfigMapVolumesToK8s(front);
    }
  }

  lemma VolumePaths(req: CappRequest) returns (paths: map<string, string>)
    requires FirstRepeat(AllMounts(req)).None?
    ensures paths == MountPaths(MountsToK8s(AllMounts(req)))
    ensures forall i | 0 <= i < |req.secretVolumes| ::
      req.secretVolumes[i].name in paths && paths[req.secretVolumes[i].name] == req.secretVolumes[i].mountPath
    ensures forall i | 0 <= i < |req.configMapVolumes| ::
      req.configMapVolumes[i].name in paths && paths[req.configMapVolumes[i].name] == req.configMapVolumes[i].mountPath
  {
    hide FirstRepeat, MountPaths;
    var all, n, m := AllMounts(req), |req.volumeMounts|, |req.secretVolumes|;
    paths := MountPaths(MountsToK8s(all));
    PathsOfDistinct(all);
    MountsAt(req);
    forall i | 0 <= i < m
      ensures req.secretVolumes[i].name in paths && paths[req.secretVolumes[i].name] == req.secretVolumes[i].mountPath
    {
      assert all[n + i] == SecretMounts(req.secretVolumes)[i] == VolumeMount(req.secretVolumes[i].name, req.secretVolumes[i].mountPath);
    }
    forall i | 0 <= i < |req.configMapVolumes|
      ensures req.configMapVolumes[i].name in paths && paths[req.configMapVolumes[i].name] == req.configMapVolumes[i].mountPath
    {
      assert all[n + m + i] == ConfigMapMounts(req.configMapVolumes)[i] == VolumeMount(req.configMapVolumes[i].name, req.configMapVolumes[i].mountPath);
    }
  }

  /** The shared name check makes the name-to-path map give every volume its own path. */
  lemma VolumesReadBack(req: CappRequest)
    requires FirstRepeat(AllMounts(req)).None?
    ensures var volumes := SecretVolumesToK8s(req.secretVolumes) + ConfigMapVolumesToK8s(req.configMapVolumes);
      var paths := MountPaths(MountsToK8s(AllMounts(req)));
      MountedSecrets(volumes, paths) == req.secretVolumes && MountedConfigMaps(volumes, paths) == req.configMapVolumes
  {
    hide MountPaths, FlatMap, FirstRepeat, AllMounts, MountsToK8s;
    var paths := VolumePaths(req);
    SecretsReadBack(req.secretVolumes, paths);
    ConfigMapsReadBack(req.configMapVolumes, paths);
    FlatMapConcat(SecretOf(paths), SecretVolumesToK8s(req.secretVolumes), ConfigMapVolumesToK8s(req.configMapVolumes));
    FlatMapConcat(ConfigMapOf(paths), SecretVolumesToK8s(req.secretVolumes), ConfigMapVolumesToK8s(req.configMapVolumes));
  }

  lemma MountsReadBack(mounts: seq<VolumeMount>)
    ensures Mapped(MountFromK8s, MountsToK8s(mounts)) == mounts
  {
    var read := Mapped(MountFromK8s, MountsToK8s(mounts));
    forall i | 0 <= i < |mounts|
      ensures read[i] == mounts[i]
    {
      assert read[i] == MountFromK8s(MountsToK8s(mounts)[i]);
    }
  }

  /** Everything the request alone determines, read back in order. */
  lemma PartsReadBack(codec: Codec, req: CappRequest)
    requires PartsOf(codec, req).Ok?
    ensures var parts := PartsOf(codec, req).value;
      && |parts.env| == |req.env| && |parts.nfs| == |req.nfsVolumes| && |parts.sources| == |SourcesOf(req)|
      && Mapped(EnvVarFromK8s, parts.env) == Mapped(NormalEnv, req.env)
      && Mapped(MountFromK8s, parts.mounts) == AllMounts(req)
      && (forall i | 0 <= i < |req.nfsVolumes| ::
            codec.parseQuantity(req.nfsVolumes[i].capacity).Some?
            && NFSFromK8s(codec)(parts.nfs[i]) == Reprinted(codec, req.nfsVolumes[i]))
      && (forall i | 0 <= i < |SourcesOf(req)| ::
            (SourcesOf(req)[i].uri != "" ==> codec.parseURL(SourcesOf(req)[i].uri).Some?)
            && SourceFromK8s(codec)(parts.sources[i]) == ReprintedSource(codec, SourcesOf(req)[i]))
  {
    TraverseOk(EnvVarToK8s, req.env);
    TraverseOk(NFSToK8s(codec), req.nfsVolumes);
    TraverseOk(SourceToK8s(codec), SourcesOf(req));
    var parts := PartsOf(codec, req).value;
    MountsReadBack(AllMounts(req));
    forall i | 0 <= i < |req.env|
      ensures EnvVarFromK8s(parts.env[i]) == NormalEnv(req.env[i])
    {
      assert EnvVarToK8s(req.env[i]) == Ok(parts.env[i]);
    }
    forall i | 0 <= i < |req.nfsVolumes|
      ensures codec.parseQuantity(req.nfsVolumes[i].capacity).Some?
        && NFSFromK8s(codec)(parts.nfs[i]) == Reprinted(codec, req.nfsVolumes[i])
    {
      assert NFSToK8s(codec)(req.nfsVolumes[i]) == Ok(parts.nfs[i]);
    }
    forall i | 0 <= i < |SourcesOf(req)|
      ensures (SourcesOf(req)[i].uri != "" ==> codec.parseURL(SourcesOf(req)[i].uri).Some?)
        && SourceFromK8s(codec)(parts.sources[i]) == ReprintedSource(codec, SourcesOf(req)[i])
    {
      assert SourceToK8s(codec)(SourcesOf(req)[i]) == Ok(parts.sources[i]);
    }
  }

  /** Where each part of an assembled Capp shows up in the response. */
  lemma AssembledReadBack(codec: Codec, sizes: Sizes, req: CappRequest, base: Capp, parts: Parts, resources: Resources)
    returns (resp: CappResponse)
    ensures resp == Response(codec, sizes, Assemble(req, base, parts, resources))
    ensures resp.name == base.meta.name && resp.namespace == base.meta.namespace
    ensures resp.image == req.image && resp.containerName == req.containerName
    ensures resp.state == req.state && resp.scaleSpec == req.scaleSpec
    ensures resp.size == SizeFromResources(codec, sizes, resources)
    ensures resp.env == Mapped(EnvVarFromK8s, parts.env) && resp.volumeMounts == Mapped(MountFromK8s, parts.mounts)
    ensures resp.secretVolumes == MountedSecrets(parts.volumes, MountPaths(parts.mounts))
    ensures resp.configMapVolumes == MountedConfigMaps(parts.volumes, MountPaths(parts.mounts))
    ensures resp.imagePullSecrets == parts.pullSecrets
    ensures resp.routeSpec == RouteFromK8s(parts.route.route) && resp.logSpec == LogFromK8s(parts.log)
    ensures resp.nfsVolumes == Mapped(NFSFromK8s(codec), parts.nfs)
    ensures resp.eventSources == if parts.sources == [] then None else Some(Mapped(SourceFromK8s(codec), parts.sources))
  {
    resp := Response(codec, sizes, Assemble(req, base, parts, resources));
  }

  /** The volumes, in order, with their capacities reprinted. */
  predicate NFSRead(codec: Codec, volumes: seq<NFSVolume>, read: seq<NFSVolume>) {
    |read| == |volumes|
    && forall i | 0 <= i < |volumes| ::
      codec.parseQuantity(volumes[i].capacity).Some? && read[i] == Reprinted(codec, volumes[i])
  }

  /** The sources, in order, with their URIs reprinted; none at all read as nothing. */
  predicate SourcesRead(codec: Codec, sources: seq<SourceConfig>, read: Option<seq<SourceConfig>>) {
    if sources == [] then read == None
    else
      read.Some? && |read.value| == |sources|
      && forall i | 0 <= i < |sources| ::
        (sources[i].uri != "" ==> codec.parseURL(sources[i].uri).Some?) && read.value[i] == ReprintedSource(codec, sources[i])
  }

  lemma ListsReadBack(codec: Codec, req: CappRequest, parts: Parts)
    requires PartsOf(codec, req) == Ok(parts)
    ensures NFSRead(codec, req.nfsVolumes, Mapped(NFSFromK8s(codec), parts.nfs))
    ensures SourcesRead(codec, SourcesOf(req), if parts.sources == [] then None else Some(Mapped(SourceFromK8s(codec), parts.sources)))
  {
    PartsReadBack(codec, req);
  }

  /** Reading back an accepted request gives the request again, in order, whatever it was laid over. */
  lemma RoundTrip(codec: Codec, sizes: Sizes, req: CappRequest, existing: Option<Capp>, namespace: string) returns (resp: CappResponse)
    requires Built(codec, sizes, req, existing, namespace).Ok?
    ensures resp == Response(codec, sizes, Built(codec, sizes, req, existing, namespace).value)
    ensures resp.name == req.name && resp.namespace == namespace
    ensures resp.image == req.image && resp.containerName == req.containerName
    ensures resp.state == req.state && resp.scaleSpec == req.scaleSpec
    ensures resp.env == Mapped(NormalEnv, req.env)
    ensures resp.volumeMounts == AllMounts(req)
    ensures resp.secretVolumes == req.secretVolumes && resp.configMapVolumes == req.configMapVolumes
    ensures resp.imagePullSecrets == req.imagePullSecrets
    ensures resp.routeSpec == if req.routeSpec == Some(NO_ROUTE) then None else req.routeSpec
    ensures resp.logSpec == if req.logSpec.Some? && req.logSpec.value.logType == "" then None else req.logSpec
    ensures NFSRead(codec, req.nfsVolumes, resp.nfsVolumes) && SourcesRead(codec, SourcesOf(req), resp.eventSources)
  {
    var parts := PartsOf(codec, req).value;
    ListsReadBack(codec, req, parts);
    PartsReadBack(codec, req);
    VolumesReadBack(req);
    var base := Base(req, existing, namespace);
    var resources := ResourcesOf(codec, sizes, req, FirstContainer(base.spec).resources).value;
    resp := AssembledReadBack(codec, sizes, req, base, parts, resources);
  }

  // ---- Full replacement ----------------------------------------------------

  /** Whether a request is accepted, and with what error not, does not depend on what it replaces. */
  lemma AcceptanceIndependent(codec: Codec, sizes: Sizes, req: CappRequest, a: Option<Capp>, b: Option<Capp>, namespace: string)
    ensures var x, y := Built(codec, sizes, req, a, namespace), Built(codec, sizes, req, b, namespace);
      (x.Ok? <==> y.Ok?) && (x.Err? ==> x == y)
  {
  }

  /** Two Capps agree on everything a request manages, apart from the container's resources. */
  predicate ManagedAlike(a: Capp, b: Capp) {
    && a.meta.name == b.meta.name && a.meta.namespace == b.meta.namespace
    && a.spec.state == b.spec.state && a.spec.scaleSpec == b.spec.scaleSpec
    && a.spec.route == b.spec.route && a.spec.log == b.spec.log && a.spec.nfs == b.spec.nfs && a.spec.sources == b.spec.sources
    && a.spec.pod.volumes == b.spec.pod.volumes && a.spec.pod.imagePullSecrets == b.spec.pod.imagePullSecrets
    && |a.spec.pod.containers| == 1 && |b.spec.pod.containers| == 1
    && var x, y := a.spec.pod.containers[0], b.spec.pod.containers[0];
       x.name == y.name && x.image == y.image && x.env == y.env && x.mounts == y.mounts
  }

  /** What a request leaves of the Capp it replaces. */
  predicate UnmanagedKept(existing: Capp, capp: Capp) {
    && capp.meta == existing.meta.(name := capp.meta.name, namespace := capp.meta.namespace)
    && capp.spec.templateMeta == existing.spec.templateMeta && capp.spec.other == existing.spec.other
    && capp.spec.pod.other == existing.spec.pod.other
    && |capp.spec.pod.containers| == 1
    && capp.spec.pod.containers[0].other == FirstContainer(existing.spec).other
  }

  /**
   The result does not depend on the existing Capp in anything managed, the container's resources only when
   the request says nothing about them; metadata and unmanaged fields are kept; and replacing again changes nothing.
   */
  lemma FullReplace(codec: Codec, sizes: Sizes, req: CappRequest, a: Capp, b: Capp, namespace: string)
    requires Built(codec, sizes, req, Some(a), namespace).Ok?
    ensures Built(codec, sizes, req, Some(b), namespace).Ok? && Built(codec, sizes, req, None, namespace).Ok?
    ensures var x, y, z := Built(codec, sizes, req, Some(a), namespace).value, Built(codec, sizes, req, Some(b), namespace).value,
                           Built(codec, sizes, req, None, namespace).value;
      && ManagedAlike(x, y) && ManagedAlike(x, z)
      && (x.spec.pod.containers[0].resources == y.spec.pod.containers[0].resources
          <==> req.size != "" || req.customResources.Some? || FirstContainer(a.spec).resources == FirstContainer(b.spec).resources)
      && UnmanagedKept(a, x)
      && Built(codec, sizes, req, Some(x), namespace) == Ok(x)
  {
  }
}
