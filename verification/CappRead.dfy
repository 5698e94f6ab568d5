/** Capps to responses. */
module CappRead {
  import opened Prelude
  import opened CappTypes
  import opened Traversal

  function Mapped<A, B>(f: A -> B, s: seq<A>): seq<B> {
    seq(|s|, i requires 0 <= i < |s| => f(s[i]))
  }

  method MapEach<A, B>(f: A -> B, s: seq<A>) returns (result: seq<B>)
    ensures result == Mapped(f, s)
  {
    result := [];
    for i := 0 to |s|
      invariant result == Mapped(f, s[..i])
    {
      result := result + [f(s[i])];
    }
    assert s[..|s|] == s;
  }

  function EnvVarFromK8s(e: K8sEnvVar): EnvVar {
    match e.valueFrom
    case None => EnvVar(e.name, e.value, None)
    case Some(source) => EnvVar(e.name, "", Some(EnvVarSource(source.secretKeyRef, source.configMapKeyRef)))
  }

  function MountFromK8s(m: K8sMount): VolumeMount {
    VolumeMount(m.name, m.mountPath)
  }

  function NFSFromK8s(codec: Codec): K8sNFS -> NFSVolume {
    (v: K8sNFS) => NFSVolume(v.name, v.server, v.path, if STORAGE in v.capacity then codec.printQuantity(v.capacity[STORAGE]) else "")
  }

  function SourceFromK8s(codec: Codec): K8sSource -> SourceConfig {
    (s: K8sSource) => SourceConfig(s.name, if s.uri.Some? then codec.printURL(s.uri.value) else "", s.ping, s.kafka)
  }

  // ---- Resources -----------------------------------------------------------

  /** A missing limit reads as zero. */
  function MilliOf(list: ResourceList, name: string): int {
    if name in list then list[name].milli else 0
  }

  /** A size fits when both its limits parse and are the container's; its requests are not looked at. */
  predicate SizeFits(codec: Codec, limits: Quantities, res: Resources) {
    var cpu, memory := codec.parseQuantity(limits.cpu), codec.parseQuantity(limits.memory);
    cpu.Some? && memory.Some? && cpu.value.milli == MilliOf(res.limits, CPU) && memory.value.milli == MilliOf(res.limits, MEMORY)
  }

  /** The first size that fits, "" when none does. */
  function SizeFromResources(codec: Codec, sizes: Sizes, res: Resources): string {
    if SizeFits(codec, sizes.small.limits, res) then "small"
    else if SizeFits(codec, sizes.medium.limits, res) then "medium"
    else if SizeFits(codec, sizes.large.limits, res) then "large"
    else ""
  }

  function QuantitiesOf(codec: Codec, list: ResourceList): Option<Quantities> {
    if list == map[] then None
    else Some(Quantities(if CPU in list then codec.printQuantity(list[CPU]) else "",
                         if MEMORY in list then codec.printQuantity(list[MEMORY]) else ""))
  }

  function ResourceSpecFromK8s(codec: Codec, res: Resources): Option<ResourceSpec> {
    if res.requests == map[] && res.limits == map[] then None
    else Some(ResourceSpec(QuantitiesOf(codec, res.requests), QuantitiesOf(codec, res.limits)))
  }

  // ---- Volumes -------------------------------------------------------------

  /** The path a name is mounted at; the last mount of a name counts. */
  function MountPaths(mounts: seq<K8sMount>): map<string, string> {
    if mounts == [] then map[]
    else
      var last := mounts[|mounts| - 1];
      MountPaths(mounts[..|mounts| - 1])[last.name := last.mountPath]
  }

  function SecretOf(paths: map<string, string>): Volume -> seq<SecretVolume> {
    (v: Volume) => if v.source.Secret? && v.name in paths then [SecretVolume(v.name, v.source.secretName, paths[v.name])] else []
  }

  function ConfigMapOf(paths: map<string, string>): Volume -> seq<ConfigMapVolume> {
    (v: Volume) => if v.source.ConfigMap? && v.name in paths then [ConfigMapVolume(v.name, v.source.name, paths[v.name])] else []
  }

  function MountedSecrets(volumes: seq<Volume>, paths: map<string, string>): seq<SecretVolume> {
    FlatMap(SecretOf(paths), volumes)
  }

  function MountedConfigMaps(volumes: seq<Volume>, paths: map<string, string>): seq<ConfigMapVolume> {
    FlatMap(ConfigMapOf(paths), volumes)
  }

  method MountedVolumes(volumes: seq<Volume>, mounts: seq<K8sMount>)
    returns (secretVolumes: seq<SecretVolume>, configMapVolumes: seq<ConfigMapVolume>)
    ensures secretVolumes == MountedSecrets(volumes, MountPaths(mounts))
    ensures configMapVolumes == MountedConfigMaps(volumes, MountPaths(mounts))
  {
    var mountByName: map<string, string> := map[];
    for i := 0 to |mounts|
      invariant mountByName == MountPaths(mounts[..i])
    {
      assert mounts[..i + 1][..i] == mounts[..i];
      mountByName := mountByName[mounts[i].name := mounts[i].mountPath];
    }
    assert mounts[..|mounts|] == mounts;
    secretVolumes, configMapVolumes := [], [];
    for i := 0 to |volumes|
      invariant secretVolumes == MountedSecrets(volumes[..i], mountByName)
      invariant configMapVolumes == MountedConfigMaps(volumes[..i], mountByName)
    {
      var vol := volumes[i];
      assert volumes[..i + 1][..i] == volumes[..i];
      if vol.name in mountByName {
        if vol.source.Secret? {
          secretVolumes := secretVolumes + [SecretVolume(vol.name, vol.source.secretName, mountByName[vol.name])];
        } else if vol.source.ConfigMap? {
          configMapVolumes := configMapVolumes + [ConfigMapVolume(vol.name, vol.source.name, mountByName[vol.name])];
        }
      }
    }
    assert volumes[..|volumes|] == volumes;
  }

  // ---- The response --------------------------------------------------------

  function RouteFromK8s(route: RouteSpec): Option<RouteSpec> {
    if route.hostname != "" || route.tlsEnabled || route.routeTimeoutSeconds.Some? then Some(route) else None
  }

  function LogFromK8s(log: LogSpec): Option<LogSpec> {
    if log.logType != "" then Some(log) else None
  }

  /** The response as a whole; only the first container is looked at. */
  function Response(codec: Codec, sizes: Sizes, capp: Capp): CappResponse {
    var pod := capp.spec.pod;
    var none := pod.containers == [];
    var c := if none then EMPTY_CONTAINER else pod.containers[0];
    var paths := MountPaths(c.mounts);
    CappResponse(
      capp.meta.name, capp.meta.namespace, capp.meta.labels, capp.spec.scaleSpec, capp.spec.state, c.image, c.name,
      if none then "" else SizeFromResources(codec, sizes, c.resources),
      if none then None else ResourceSpecFromK8s(codec, c.resources),
      Mapped(EnvVarFromK8s, c.env), Mapped(MountFromK8s, c.mounts),
      RouteFromK8s(capp.spec.route.route), LogFromK8s(capp.spec.log), Mapped(NFSFromK8s(codec), capp.spec.nfs),
      MountedSecrets(pod.volumes, paths), MountedConfigMaps(pod.volumes, paths), pod.imagePullSecrets,
      if capp.spec.sources == [] then None else Some(Mapped(SourceFromK8s(codec), capp.spec.sources)))
  }

  method BareFromK8s(codec: Codec, sizes: Sizes, capp: Capp) returns (resp: CappResponse)
    ensures resp == Response(codec, sizes, capp)
  {
    var spec := capp.spec;
    var image, containerName, size, resources := "", "", "", None;
    var env, volumeMounts, mounts := [], [], [];
    if |spec.pod.containers| > 0 {
      var c := spec.pod.containers[0];
      image, containerName, mounts := c.image, c.name, c.mounts;
      size, resources := SizeFromResources(codec, sizes, c.resources), ResourceSpecFromK8s(codec, c.resources);
      env := MapEach(EnvVarFromK8s, c.env);
      volumeMounts := MapEach(MountFromK8s, c.mounts);
    }
    var secretVolumes, configMapVolumes := MountedVolumes(spec.pod.volumes, mounts);
    var nfs := MapEach(NFSFromK8s(codec), spec.nfs);
    var sources := None;
    if |spec.sources| > 0 {
      var converted := MapEach(SourceFromK8s(codec), spec.sources);
      sources := Some(converted);
    }
    resp := CappResponse(
      capp.meta.name, capp.meta.namespace, capp.meta.labels, spec.scaleSpec, spec.state, image, containerName,
      size, resources, env, volumeMounts, RouteFromK8s(spec.route.route), LogFromK8s(spec.log), nfs,
      secretVolumes, configMapVolumes, spec.pod.imagePullSecrets, sources);
  }
}
