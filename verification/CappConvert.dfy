/** Converting sequences one element at a time, stopping at the first error. */
module Traversal {
  import opened Prelude

  function Traverse<A, B, E>(f: A -> Result<B, E>, s: seq<A>): Result<seq<B>, E> {
    if s == [] then Ok([])
    else match Traverse(f, s[..|s| - 1])
      case Err(e) => Err(e)
      case Ok(done) =>
        match f(s[|s| - 1])
        case Err(e) => Err(e)
        case Ok(b) => Ok(done + [b])
  }

  lemma {:induction false} TraverseOk<A, B, E>(f: A -> Result<B, E>, s: seq<A>)
    ensures Traverse(f, s).Ok? <==> forall i | 0 <= i < |s| :: f(s[i]).Ok?
    ensures Traverse(f, s).Ok? ==>
      |Traverse(f, s).value| == |s| && forall i | 0 <= i < |s| :: f(s[i]) == Ok(Traverse(f, s).value[i])
  {
    if s != [] {
      TraverseOk(f, s[..|s| - 1]);
    }
  }

  /** An error of a prefix is the error of the whole. */
  lemma {:induction false} TraverseStops<A, B, E>(f: A -> Result<B, E>, s: seq<A>, k: nat)
    requires k <= |s| && Traverse(f, s[..k]).Err?
    ensures Traverse(f, s) == Err(Traverse(f, s[..k]).error)
    decreases |s|
  {
    if k == |s| {
      assert s[..k] == s;
    } else {
      assert s[..|s| - 1][..k] == s[..k];
      TraverseStops(f, s[..|s| - 1], k);
    }
  }

  /** One more element either converts or is the first that does not. */
  lemma TraverseNext<A, B, E>(f: A -> Result<B, E>, s: seq<A>, i: nat, done: seq<B>)
    requires i < |s| && Traverse(f, s[..i]) == Ok(done)
    ensures f(s[i]).Ok? ==> Traverse(f, s[..i + 1]) == Ok(done + [f(s[i]).value])
    ensures f(s[i]).Err? ==> Traverse(f, s) == Err(f(s[i]).error)
  {
    var next := s[..i + 1];
    assert next[..|next| - 1] == s[..i] && next[|next| - 1] == s[i];
    if f(s[i]).Err? {
      TraverseStops(f, s, i + 1);
    }
  }

  /** Two inputs that convert alike element by element convert alike. */
  lemma TraverseSame<A, B, E>(f: A -> Result<B, E>, s: seq<A>, t: seq<A>)
    requires |s| == |t| && Traverse(f, s).Ok?
    requires forall i | 0 <= i < |s| :: f(t[i]) == f(s[i])
    ensures Traverse(f, t) == Traverse(f, s)
  {
    TraverseOk(f, s);
    TraverseOk(f, t);
    assert Traverse(f, t).value == Traverse(f, s).value;
  }

  /** What every element gives, one after the other. */
  function FlatMap<A, B>(f: A -> seq<B>, s: seq<A>): seq<B> {
    if s == [] then [] else FlatMap(f, s[..|s| - 1]) + f(s[|s| - 1])
  }

  lemma {:induction false} FlatMapLast<A, B>(f: A -> seq<B>, s: seq<A>)
    ensures FlatMap(f, s) == if s == [] then [] else FlatMap(f, s[..|s| - 1]) + f(s[|s| - 1])
  {
  }

  lemma {:induction false} FlatMapConcat<A, B>(f: A -> seq<B>, a: seq<A>, b: seq<A>)
    ensures FlatMap(f, a + b) == FlatMap(f, a) + FlatMap(f, b)
    decreases |b|
  {
    if b == [] {
      assert a + b == a;
    } else {
      var whole, less := a + b, b[..|b| - 1];
      FlatMapConcat(f, a, less);
      assert whole[..|whole| - 1] == a + less && whole[|whole| - 1] == b[|b| - 1];
      assert FlatMap(f, whole) == FlatMap(f, a) + FlatMap(f, less) + f(b[|b| - 1]);
    }
  }
}

/** Requests to Capps and Capps to responses. */
module CappConvert {
  import opened Prelude
  import opened CappTypes
  import opened Traversal

  // ---- Parts of a request --------------------------------------------------

  /** A valueFrom sets exactly one reference; a value beside it is dropped. */
  function EnvVarToK8s(e: EnvVar): Result<K8sEnvVar, Error> {
    if e.valueFrom.None? then Ok(K8sEnvVar(e.name, e.value, None))
    else if e.valueFrom.value.secretKeyRef.Some? == e.valueFrom.value.configMapKeyRef.Some? then Err(InvalidEnvVar(e.name))
    else Ok(K8sEnvVar(e.name, "", Some(K8sEnvSource(e.valueFrom.value.secretKeyRef, e.valueFrom.value.configMapKeyRef, ""))))
  }

  function NFSToK8s(codec: Codec): NFSVolume -> Result<K8sNFS, Error> {
    (v: NFSVolume) => match codec.parseQuantity(v.capacity)
      case None => Err(InvalidCapacity(v.capacity))
      case Some(q) => Ok(K8sNFS(v.name, v.server, v.path, map[STORAGE := q]))
  }

  function SourceToK8s(codec: Codec): SourceConfig -> Result<K8sSource, Error> {
    (s: SourceConfig) =>
      if s.ping.Some? == s.kafka.Some? then Err(InvalidEventSource(s.name))
      else if s.uri == "" then Ok(K8sSource(s.name, None, s.ping, s.kafka))
      else match codec.parseURL(s.uri)
        case None => Err(InvalidURI(s.uri))
        case Some(u) => Ok(K8sSource(s.name, Some(u), s.ping, s.kafka))
  }

  function SourcesOf(req: CappRequest): seq<SourceConfig> {
    if req.eventSources.None? then [] else req.eventSources.value
  }

  /** The mounts of the container: the request's own, then one per Secret and per ConfigMap volume. */
  function AllMounts(req: CappRequest): seq<VolumeMount> {
    req.volumeMounts + SecretMounts(req.secretVolumes) + ConfigMapMounts(req.configMapVolumes)
  }

  function SecretMounts(volumes: seq<SecretVolume>): seq<VolumeMount> {
    seq(|volumes|, i requires 0 <= i < |volumes| => VolumeMount(volumes[i].name, volumes[i].mountPath))
  }

  function ConfigMapMounts(volumes: seq<ConfigMapVolume>): seq<VolumeMount> {
    seq(|volumes|, i requires 0 <= i < |volumes| => VolumeMount(volumes[i].name, volumes[i].mountPath))
  }

  function MountsToK8s(mounts: seq<VolumeMount>): seq<K8sMount> {
    seq(|mounts|, i requires 0 <= i < |mounts| => K8sMount(mounts[i].name, mounts[i].mountPath, ""))
  }

  function SecretVolumesToK8s(volumes: seq<SecretVolume>): seq<Volume> {
    seq(|volumes|, i requires 0 <= i < |volumes| => Volume(volumes[i].name, Secret(volumes[i].secretName, "")))
  }

  function ConfigMapVolumesToK8s(volumes: seq<ConfigMapVolume>): seq<Volume> {
    seq(|volumes|, i requires 0 <= i < |volumes| => Volume(volumes[i].name, ConfigMap(volumes[i].configMapName, "")))
  }

  predicate Named(mounts: seq<VolumeMount>, name: string) {
    exists i | 0 <= i < |mounts| :: mounts[i].name == name
  }

  /** Where the shared name space of the three volume lists first repeats a name. */
  function FirstRepeat(mounts: seq<VolumeMount>): Option<nat> {
    if mounts == [] then None
    else
      var front := mounts[..|mounts| - 1];
      if FirstRepeat(front).Some? then FirstRepeat(front)
      else if Named(front, mounts[|mounts| - 1].name) then Some(|front|)
      else None
  }

  lemma {:induction false} FirstRepeatExact(mounts: seq<VolumeMount>)
    ensures FirstRepeat(mounts).None? <==> forall i, j | 0 <= i < j < |mounts| :: mounts[i].name != mounts[j].name
    ensures FirstRepeat(mounts).Some? ==> FirstRepeat(mounts).value < |mounts|
  {
    if mounts != [] {
      var front := mounts[..|mounts| - 1];
      FirstRepeatExact(front);
      assert forall i | 0 <= i < |front| :: front[i] == mounts[i];
    }
  }

  lemma {:induction false} FirstRepeatStops(mounts: seq<VolumeMount>, k: nat)
    requires k <= |mounts| && FirstRepeat(mounts[..k]).Some?
    ensures FirstRepeat(mounts) == FirstRepeat(mounts[..k])
    decreases |mounts|
  {
    if k == |mounts| {
      assert mounts[..k] == mounts;
    } else {
      assert mounts[..|mounts| - 1][..k] == mounts[..k];
      FirstRepeatStops(mounts[..|mounts| - 1], k);
    }
  }

  function RepeatError(req: CappRequest, k: nat): Error
    requires k < |AllMounts(req)|
  {
    var name := AllMounts(req)[k].name;
    if k < |req.volumeMounts| then DuplicateMount(name)
    else if k < |req.volumeMounts| + |req.secretVolumes| then DuplicateSecretVolume(name)
    else DuplicateConfigMapVolume(name)
  }

  function PullSecretError(codec: Codec, names: seq<string>): Option<Error> {
    if names == [] then None
    else
      var front, name := names[..|names| - 1], names[|names| - 1];
      if PullSecretError(codec, front).Some? then PullSecretError(codec, front)
      else if !codec.validName(name) then Some(InvalidPullSecret(name))
      else if name in front then Some(DuplicatePullSecret(name))
      else None
  }

  lemma {:induction false} PullSecretErrorStops(codec: Codec, names: seq<string>, k: nat)
    requires k <= |names| && PullSecretError(codec, names[..k]).Some?
    ensures PullSecretError(codec, names) == PullSecretError(codec, names[..k])
    decreases |names|
  {
    if k == |names| {
      assert names[..k] == names;
    } else {
      assert names[..|names| - 1][..k] == names[..k];
      PullSecretErrorStops(codec, names[..|names| - 1], k);
    }
  }

  // ---- Resources -----------------------------------------------------------

  function Parse(codec: Codec, text: string): Result<Quantity, Error> {
    match codec.parseQuantity(text)
    case None => Err(InvalidQuantity(text))
    case Some(q) => Ok(q)
  }

  function ParseSize(codec: Codec, spec: SizeSpec): Result<Resources, Error> {
    var reqCPU, reqMem := Parse(codec, spec.requests.cpu), Parse(codec, spec.requests.memory);
    var limCPU, limMem := Parse(codec, spec.limits.cpu), Parse(codec, spec.limits.memory);
    if reqCPU.Err? then Err(reqCPU.error)
    else if reqMem.Err? then Err(reqMem.error)
    else if limCPU.Err? then Err(limCPU.error)
    else if limMem.Err? then Err(limMem.error)
    else Ok(Resources(map[CPU := reqCPU.value, MEMORY := reqMem.value], map[CPU := limCPU.value, MEMORY := limMem.value], ""))
  }

  function ParseList(codec: Codec, q: Option<Quantities>): Result<ResourceList, Error> {
    if q.None? then Ok(map[])
    else
      var cpu, memory := Parse(codec, q.value.cpu), Parse(codec, q.value.memory);
      if q.value.cpu != "" && cpu.Err? then Err(cpu.error)
      else if q.value.memory != "" && memory.Err? then Err(memory.error)
      else Ok((if q.value.cpu != "" then map[CPU := cpu.value] else map[])
              + if q.value.memory != "" then map[MEMORY := memory.value] else map[])
  }

  function ParseCustom(codec: Codec, spec: ResourceSpec): Result<Resources, Error> {
    var requests, limits := ParseList(codec, spec.requests), ParseList(codec, spec.limits);
    if requests.Err? then Err(requests.error)
    else if limits.Err? then Err(limits.error)
    else Ok(Resources(requests.value, limits.value, ""))
  }

  function SizeNamed(sizes: Sizes, name: string): Option<SizeSpec> {
    if name == "small" then Some(sizes.small)
    else if name == "large" then Some(sizes.large)
    else if name == "medium" then Some(sizes.medium)
    else None
  }

  /** What the container's resources become; current is what an existing container has. */
  function ResourcesOf(codec: Codec, sizes: Sizes, req: CappRequest, current: Resources): Result<Resources, Error> {
    if req.size != "" && req.customResources.Some? then Err(SizeAndCustomResources)
    else if req.size != "" then
      match SizeNamed(sizes, req.size)
      case None => Err(InvalidSize(req.size))
      case Some(spec) => ParseSize(codec, spec)
    else if req.customResources.Some? then ParseCustom(codec, req.customResources.value)
    else Ok(current)
  }

  // ---- A request as a whole ------------------------------------------------

  /** Everything of a Capp that comes from the request alone. */
  datatype Parts = Parts(
    env: seq<K8sEnvVar>, mounts: seq<K8sMount>, volumes: seq<Volume>, pullSecrets: seq<string>,
    nfs: seq<K8sNFS>, sources: seq<K8sSource>, route: K8sRoute, log: LogSpec)

  function PartsOf(codec: Codec, req: CappRequest): Result<Parts, Error> {
    var env := Traverse(EnvVarToK8s, req.env);
    if env.Err? then Err(env.error)
    else
      var k := FirstRepeat(AllMounts(req));
      FirstRepeatExact(AllMounts(req));
      if k.Some? then Err(RepeatError(req, k.value))
      else if PullSecretError(codec, req.imagePullSecrets).Some? then Err(PullSecretError(codec, req.imagePullSecrets).value)
      else
        var nfs, sources := Traverse(NFSToK8s(codec), req.nfsVolumes), Traverse(SourceToK8s(codec), SourcesOf(req));
        if nfs.Err? then Err(nfs.error)
        else if sources.Err? then Err(sources.error)
        else Ok(Parts(env.value, MountsToK8s(AllMounts(req)),
                      SecretVolumesToK8s(req.secretVolumes) + ConfigMapVolumesToK8s(req.configMapVolumes),
                      req.imagePullSecrets, nfs.value, sources.value,
                      K8sRoute(if req.routeSpec.Some? then req.routeSpec.value else NO_ROUTE, ""),
                      if req.logSpec.Some? then req.logSpec.value else NO_LOG))
  }

  /** What the request is laid over: the existing Capp, or an empty one. */
  function Base(req: CappRequest, existing: Option<Capp>, namespace: string): Capp {
    match existing
    case None => Capp(Meta(req.name, namespace, map[], map[], ""), EMPTY_SPEC)
    case Some(capp) => capp.(meta := capp.meta.(name := req.name, namespace := namespace))
  }

  function FirstContainer(spec: CappSpec): Container {
    if spec.pod.containers == [] then EMPTY_CONTAINER else spec.pod.containers[0]
  }

  function Assemble(req: CappRequest, base: Capp, parts: Parts, resources: Resources): Capp {
    var container := FirstContainer(base.spec).(
      name := req.containerName, image := req.image, env := parts.env, mounts := parts.mounts, resources := resources);
    base.(spec := base.spec.(
      state := req.state, scaleSpec := req.scaleSpec,
      pod := base.spec.pod.(containers := [container], volumes := parts.volumes, imagePullSecrets := parts.pullSecrets),
      route := parts.route, log := parts.log, nfs := parts.nfs, sources := parts.sources))
  }

  function Built(codec: Codec, sizes: Sizes, req: CappRequest, existing: Option<Capp>, namespace: string): Result<Capp, Error> {
    var base := Base(req, existing, namespace);
    match PartsOf(codec, req)
    case Err(e) => Err(e)
    case Ok(parts) =>
      match ResourcesOf(codec, sizes, req, FirstContainer(base.spec).resources)
      case Err(e) => Err(e)
      case Ok(resources) => Ok(Assemble(req, base, parts, resources))
  }

  // ---- ToK8s, step by step -------------------------------------------------

  method EnvVarsToK8s(vars: seq<EnvVar>) returns (r: Result<seq<K8sEnvVar>, Error>)
    ensures r == Traverse(EnvVarToK8s, vars)
  {
    var out: seq<K8sEnvVar> := [];
    for i := 0 to |vars|
      invariant Traverse(EnvVarToK8s, vars[..i]) == Ok(out)
    {
      var e := vars[i];
      assert vars[..i + 1][..i] == vars[..i];
      var ev := K8sEnvVar(e.name, "", None);
      if e.valueFrom.Some? {
        var source := e.valueFrom.value;
        var bothSet := source.secretKeyRef.Some? && source.configMapKeyRef.Some?;
        var neitherSet := source.secretKeyRef.None? && source.configMapKeyRef.None?;
        if bothSet || neitherSet {
          TraverseStops(EnvVarToK8s, vars, i + 1);
          return Err(InvalidEnvVar(e.name));
        }
        if source.secretKeyRef.Some? {
          ev := ev.(valueFrom := Some(K8sEnvSource(source.secretKeyRef, None, "")));
        } else {
          ev := ev.(valueFrom := Some(K8sEnvSource(None, source.configMapKeyRef, "")));
        }
      } else {
        ev := ev.(value := e.value);
      }
      out := out + [ev];
    }
    assert vars[..|vars|] == vars;
    return Ok(out);
  }

  method ImagePullSecretsToK8s(codec: Codec, names: seq<string>) returns (r: Result<seq<string>, Error>)
    ensures r == match PullSecretError(codec, names) case Some(e) => Err(e) case None => Ok(names)
  {
    var seen: set<string> := {};
    var refs: seq<string> := [];
    for i := 0 to |names|
      invariant refs == names[..i] && forall x :: x in seen <==> x in refs
      invariant PullSecretError(codec, names[..i]).None?
    {
      assert names[..i + 1][..i] == names[..i];
      if !codec.validName(names[i]) {
        PullSecretErrorStops(codec, names, i + 1);
        return Err(InvalidPullSecret(names[i]));
      }
      if names[i] in seen {
        PullSecretErrorStops(codec, names, i + 1);
        return Err(DuplicatePullSecret(names[i]));
      }
      seen := seen + {names[i]};
      refs := refs + [names[i]];
    }
    assert names[..|names|] == names;
    return Ok(refs);
  }

  method NFSVolumesToK8s(codec: Codec, volumes: seq<NFSVolume>) returns (r: Result<seq<K8sNFS>, Error>)
    ensures r == Traverse(NFSToK8s(codec), volumes)
  {
    var nfsVols: seq<K8sNFS> := [];
    for i := 0 to |volumes|
      invariant Traverse(NFSToK8s(codec), volumes[..i]) == Ok(nfsVols)
    {
      var v := volumes[i];
      assert volumes[..i + 1][..i] == volumes[..i];
      var qty := codec.parseQuantity(v.capacity);
      if qty.None? {
        TraverseStops(NFSToK8s(codec), volumes, i + 1);
        return Err(InvalidCapacity(v.capacity));
      }
      nfsVols := nfsVols + [K8sNFS(v.name, v.server, v.path, map[STORAGE := qty.value])];
    }
    assert volumes[..|volumes|] == volumes;
    return Ok(nfsVols);
  }

  method EventSourcesToK8s(codec: Codec, spec: Option<seq<SourceConfig>>) returns (r: Result<seq<K8sSource>, Error>)
    ensures r == Traverse(SourceToK8s(codec), if spec.None? then [] else spec.value)
  {
    if spec.None? || |spec.value| == 0 {
      return Ok([]);
    }
    var s := spec.value;
    var sources: seq<K8sSource> := [];
    for i := 0 to |s|
      invariant Traverse(SourceToK8s(codec), s[..i]) == Ok(sources)
    {
      assert s[..i + 1][..i] == s[..i];
      var bothSet := s[i].ping.Some? && s[i].kafka.Some?;
      var neitherSet := s[i].ping.None? && s[i].kafka.None?;
      if bothSet || neitherSet {
        TraverseStops(SourceToK8s(codec), s, i + 1);
        return Err(InvalidEventSource(s[i].name));
      }
      var sc := K8sSource(s[i].name, None, None, None);
      if s[i].uri != "" {
        var u := codec.parseURL(s[i].uri);
        if u.None? {
          TraverseStops(SourceToK8s(codec), s, i + 1);
          return Err(InvalidURI(s[i].uri));
        }
        sc := sc.(uri := u);
      }
      if s[i].ping.Some? {
        sc := sc.(ping := s[i].ping);
      }
      if s[i].kafka.Some? {
        sc := sc.(kafka := s[i].kafka);
      }
      sources := sources + [sc];
    }
    assert s[..|s|] == s;
    return Ok(sources);
  }

  function NamesOf(mounts: seq<VolumeMount>): set<string> {
    set m | m in mounts :: m.name
  }

  /** The mounts so far, none of them repeated, and their names. */
  ghost predicate Collected(soFar: seq<VolumeMount>, names: set<string>, mounts: seq<K8sMount>) {
    FirstRepeat(soFar).None? && mounts == MountsToK8s(soFar) && names == NamesOf(soFar)
  }

  lemma RepeatNext(soFar: seq<VolumeMount>, next: VolumeMount)
    requires FirstRepeat(soFar).None?
    ensures FirstRepeat(soFar + [next]) == if Named(soFar, next.name) then Some(|soFar|) else None
  {
    var longer := soFar + [next];
    assert longer[..|longer| - 1] == soFar && longer[|longer| - 1] == next;
  }

  lemma NamesNext(soFar: seq<VolumeMount>, next: VolumeMount)
    ensures next.name in NamesOf(soFar) <==> Named(soFar, next.name)
    ensures NamesOf(soFar + [next]) == NamesOf(soFar) + {next.name}
  {
  }

  lemma MountsNext(soFar: seq<VolumeMount>, next: VolumeMount)
    ensures MountsToK8s(soFar + [next]) == MountsToK8s(soFar) + [K8sMount(next.name, next.mountPath, "")]
  {
  }

  /** The next mount either repeats a name or adds one. */
  lemma CollectNext(soFar: seq<VolumeMount>, next: VolumeMount, names: set<string>, mounts: seq<K8sMount>)
    requires Collected(soFar, names, mounts)
    ensures next.name in names ==> FirstRepeat(soFar + [next]) == Some(|soFar|)
    ensures next.name !in names ==> Collected(soFar + [next], names + {next.name}, mounts + [K8sMount(next.name, next.mountPath, "")])
  {
    RepeatNext(soFar, next);
    NamesNext(soFar, next);
    MountsNext(soFar, next);
  }

  lemma AppendStops(front: seq<VolumeMount>, back: seq<VolumeMount>)
    requires FirstRepeat(front).Some?
    ensures FirstRepeat(front + back) == FirstRepeat(front)
  {
    assert (front + back)[..|front|] == front;
    FirstRepeatStops(front + back, |front|);
  }

  lemma OneMore(front: seq<VolumeMount>, more: seq<VolumeMount>, i: nat)
    requires i < |more|
    ensures front + more[..i + 1] == front + more[..i] + [more[i]]
  {
    assert more[..i + 1] == more[..i] + [more[i]];
  }

  lemma {:induction false} RepeatStops(front: seq<VolumeMount>, more: seq<VolumeMount>, i: nat)
    requires i < |more| && FirstRepeat(front + more[..i + 1]).Some?
    ensures FirstRepeat(front + more) == FirstRepeat(front + more[..i + 1])
  {
    AppendStops(front + more[..i + 1], more[i + 1..]);
    assert front + more[..i + 1] + more[i + 1..] == front + more;
  }

  /** The loop over one list of volumes, whose mounts come after those in front. */
  method AddMounts(ghost front: seq<VolumeMount>, more: seq<VolumeMount>, names: set<string>, mounts: seq<K8sMount>)
    returns (repeat: Option<nat>, volumeNames: set<string>, extended: seq<K8sMount>)
    requires Collected(front, names, mounts)
    ensures repeat.None? ==> Collected(front + more, volumeNames, extended)
    ensures repeat.Some? ==> FirstRepeat(front + more) == Some(|front| + repeat.value)
  {
    volumeNames, extended := names, mounts;
    assert front + more[..0] == front;
    for i := 0 to |more|
      invariant Collected(front + more[..i], volumeNames, extended)
    {
      CollectNext(front + more[..i], more[i], volumeNames, extended);
      OneMore(front, more, i);
      if more[i].name in volumeNames {
        RepeatStops(front, more, i);
        return Some(i), volumeNames, extended;
      }
      volumeNames := volumeNames + {more[i].name};
      extended := extended + [K8sMount(more[i].name, more[i].mountPath, "")];
    }
    assert more[..|more|] == more;
    return None, volumeNames, extended;
  }

  lemma MountsAt(req: CappRequest)
    ensures var all, n, m := AllMounts(req), |req.volumeMounts|, |req.secretVolumes|;
      && |all| == n + m + |req.configMapVolumes|
      && (forall i | 0 <= i < n :: all[i] == req.volumeMounts[i])
      && (forall i | 0 <= i < m :: all[n + i] == SecretMounts(req.secretVolumes)[i])
      && (forall i | 0 <= i < |req.configMapVolumes| :: all[n + m + i] == ConfigMapMounts(req.configMapVolumes)[i])
  {
  }

  /** The loops over the three lists of volumes, which share one set of names; k is where they stop at a repeated name. */
  method CollectMounts(plain: seq<VolumeMount>, secrets: seq<VolumeMount>, configMaps: seq<VolumeMount>)
    returns (k: Option<nat>, mounts: seq<K8sMount>)
    ensures k == FirstRepeat(plain + secrets + configMaps)
    ensures k.None? ==> mounts == MountsToK8s(plain + secrets + configMaps)
  {
    var names;
    assert [] + plain == plain;
    k, names, mounts := AddMounts([], plain, {}, []);
    if k.Some? {
      AppendStops(plain, secrets);
      AppendStops(plain + secrets, configMaps);
      return;
    }
    k, names, mounts := AddMounts(plain, secrets, names, mounts);
    if k.Some? {
      AppendStops(plain + secrets, configMaps);
      return Some(|plain| + k.value), mounts;
    }
    k, names, mounts := AddMounts(plain + secrets, configMaps, names, mounts);
    if k.Some? {
      return Some(|plain + secrets| + k.value), mounts;
    }
  }

  method CollectVolumes(req: CappRequest) returns (err: Option<Error>, mounts: seq<K8sMount>, volumes: seq<Volume>)
    ensures FirstRepeat(AllMounts(req)).Some? ==>
      FirstRepeat(AllMounts(req)).value < |AllMounts(req)| && err == Some(RepeatError(req, FirstRepeat(AllMounts(req)).value))
    ensures FirstRepeat(AllMounts(req)).None? ==>
      && err.None? && mounts == MountsToK8s(AllMounts(req))
      && volumes == SecretVolumesToK8s(req.secretVolumes) + ConfigMapVolumesToK8s(req.configMapVolumes)
  {
    FirstRepeatExact(AllMounts(req));
    volumes := SecretVolumesToK8s(req.secretVolumes) + ConfigMapVolumesToK8s(req.configMapVolumes);
    var k;
    k, mounts := CollectMounts(req.volumeMounts, SecretMounts(req.secretVolumes), ConfigMapMounts(req.configMapVolumes));
    err := if k.Some? then Some(RepeatError(req, k.value)) else None;
  }

  method ToK8s(codec: Codec, sizes: Sizes, req: CappRequest, existing: Option<Capp>, namespace: string)
    returns (r: Result<Capp, Error>)
    ensures r == Built(codec, sizes, req, existing, namespace)
  {
    var meta := Meta(req.name, namespace, map[], map[], "");
    var spec := EMPTY_SPEC;
    if existing.Some? {
      meta := existing.value.meta.(name := req.name, namespace := namespace);
      spec := existing.value.spec;
    }
    spec := spec.(state := req.state, scaleSpec := req.scaleSpec);
    var container := EMPTY_CONTAINER;
    if |spec.pod.containers| > 0 {
      container := spec.pod.containers[0];
    }
    container := container.(name := req.containerName, image := req.image);
    var env := EnvVarsToK8s(req.env);
    if env.Err? {
      return Err(env.error);
    }
    var err, mounts, volumes := CollectVolumes(req);
    if err.Some? {
      return Err(err.value);
    }
    container := container.(env := env.value, mounts := mounts);
    var pullSecrets := ImagePullSecretsToK8s(codec, req.imagePullSecrets);
    if pullSecrets.Err? {
      return Err(pullSecrets.error);
    }
    spec := spec.(pod := spec.pod.(containers := [container], volumes := volumes, imagePullSecrets := pullSecrets.value));
    spec := spec.(route := K8sRoute(NO_ROUTE, ""), log := NO_LOG);
    if req.routeSpec.Some? {
      spec := spec.(route := K8sRoute(req.routeSpec.value, ""));
    }
    if req.logSpec.Some? {
      spec := spec.(log := req.logSpec.value);
    }
    var nfs := NFSVolumesToK8s(codec, req.nfsVolumes);
    if nfs.Err? {
      return Err(nfs.error);
    }
    var sources := EventSourcesToK8s(codec, req.eventSources);
    if sources.Err? {
      return Err(sources.error);
    }
    spec := spec.(nfs := nfs.value, sources := sources.value);
    var resources := ResourcesOf(codec, sizes, req, container.resources);
    if resources.Err? {
      return Err(resources.error);
    }
    spec := spec.(pod := spec.pod.(containers := [container.(resources := resources.value)]));
    return Ok(Capp(meta, spec));
  }
}
