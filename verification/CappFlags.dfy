/** The flags of the update command, laid over the seed, and what they change in the Capp. */
module CappFlags {
  import opened Prelude
  import opened CappTypes
  import opened Traversal
  import opened CappConvert
  import opened CappRead
  import opened CappRoundTrip
  import opened CappUpdate
  import CappFaithful

  /** The flags that were set. */
  datatype Flags = Flags(
    image: Option<string>, state: Option<string>, containerName: Option<string>, metric: Option<string>,
    minReplicas: Option<int>, maxReplicas: Option<int>, scaleDelaySeconds: Option<int>, env: Option<seq<string>>,
    size: Option<string>, cpuRequest: Option<string>, memoryRequest: Option<string>, cpuLimit: Option<string>, memoryLimit: Option<string>,
    hostname: Option<string>, tlsEnabled: Option<bool>, timeoutSeconds: Option<int>)

  datatype FlagError = SizeAndResources | EmptyKey(pair: string) | HostnameRequired

  function Or<T>(flag: Option<T>, current: T): T {
    if flag.Some? then flag.value else current
  }

  /** The conversion to 32 bits wraps around. */
  function Int32(v: int): int {
    (v + 0x8000_0000) % 0x1_0000_0000 - 0x8000_0000
  }

  function OrInt32(flag: Option<int>, current: Option<int>): Option<int> {
    if flag.Some? then Some(Int32(flag.value)) else current
  }

  // ---- Environment variables -----------------------------------------------

  /** Where the key of KEY=VALUE ends. */
  function KeyEnd(pair: string): (end: nat)
    ensures end <= |pair| && (forall i | 0 <= i < end :: pair[i] != '=') && (end < |pair| ==> pair[end] == '=')
  {
    if pair == "" || pair[0] == '=' then 0 else 1 + KeyEnd(pair[1..])
  }

  function ParsePair(pair: string): Result<EnvVar, FlagError> {
    var end := KeyEnd(pair);
    if end == 0 then Err(EmptyKey(pair))
    else Ok(EnvVar(pair[..end], if end == |pair| then "" else pair[end + 1..], None))
  }

  method ParseEnvPair(p: string) returns (r: Result<EnvVar, FlagError>)
    ensures r == ParsePair(p)
  {
    var end := 0;
    while end < |p| && p[end] != '='
      invariant end <= |p| && forall j | 0 <= j < end :: p[j] != '='
    {
      end := end + 1;
    }
    assert end == KeyEnd(p);
    if end == 0 {
      return Err(EmptyKey(p));
    }
    if end == |p| {
      assert p[..end] == p;
      return Ok(EnvVar(p, "", None));
    }
    return Ok(EnvVar(p[..end], p[end + 1..], None));
  }

  method ParseEnvPairs(pairs: seq<string>) returns (r: Result<seq<EnvVar>, FlagError>)
    ensures r == Traverse(ParsePair, pairs)
  {
    hide ParsePair, KeyEnd;
    var result: seq<EnvVar> := [];
    for i := 0 to |pairs|
      invariant Traverse(ParsePair, pairs[..i]) == Ok(result)
    {
      TraverseNext(ParsePair, pairs, i, result);
      var parsed := ParseEnvPair(pairs[i]);
      if parsed.Err? {
        return Err(parsed.error);
      }
      result := result + [parsed.value];
    }
    assert pairs[..|pairs|] == pairs;
    return Ok(result);
  }

  /** The first equals sign separates: a value may hold any number of them, a key none. */
  lemma PairParses(name: string, value: string)
    ensures ParsePair(name + "=" + value) == Ok(EnvVar(name, value, None)) <==> name != "" && '=' !in name
  {
    var pair := name + "=" + value;
    var end := KeyEnd(pair);
    assert pair[|name|] == '=';
    assert pair[..|name|] == name && pair[|name| + 1..] == value;
    if '=' !in name {
      forall i | 0 <= i < |name|
        ensures pair[i] != '='
      {
        assert pair[i] == name[i] && name[i] in name;
      }
      assert end == |name|;
    } else {
      var i :| 0 <= i < |name| && name[i] == '=';
      assert pair[i] == '=';
      assert |pair[..end]| < |name|;
    }
  }

  // ---- Resources and route -------------------------------------------------

  predicate HasCustom(flags: Flags) {
    flags.cpuRequest.Some? || flags.cpuLimit.Some? || flags.memoryRequest.Some? || flags.memoryLimit.Some?
  }

  /** A flag that was not set counts as empty; nothing at all when every text is empty. */
  function CustomOf(flags: Flags): Option<ResourceSpec> {
    var requests := Quantities(Or(flags.cpuRequest, ""), Or(flags.memoryRequest, ""));
    var limits := Quantities(Or(flags.cpuLimit, ""), Or(flags.memoryLimit, ""));
    var none := Quantities("", "");
    if requests == none && limits == none then None
    else Some(ResourceSpec(if requests == none then None else Some(requests), if limits == none then None else Some(limits)))
  }

  predicate HasRoute(flags: Flags) {
    flags.hostname.Some? || flags.tlsEnabled.Some? || flags.timeoutSeconds.Some?
  }

  function RouteOf(flags: Flags, route: RouteSpec): RouteSpec {
    RouteSpec(Or(flags.hostname, route.hostname), Or(flags.tlsEnabled, route.tlsEnabled),
              if flags.timeoutSeconds.Some? then flags.timeoutSeconds else route.routeTimeoutSeconds)
  }

  function OverlayRoute(flags: Flags, route: Option<RouteSpec>): Result<Option<RouteSpec>, FlagError> {
    if !HasRoute(flags) then Ok(route)
    else
      var rs := RouteOf(flags, Or(route, NO_ROUTE));
      if rs.tlsEnabled && rs.hostname == "" then Err(HostnameRequired) else Ok(Some(rs))
  }

  method ApplyRouteFlags(flags: Flags, req: CappRequest) returns (r: Result<CappRequest, FlagError>)
    ensures r == match OverlayRoute(flags, req.routeSpec) case Err(e) => Err(e) case Ok(route) => Ok(req.(routeSpec := route))
  {
    if flags.hostname.None? && flags.tlsEnabled.None? && flags.timeoutSeconds.None? {
      return Ok(req);
    }
    var rs := NO_ROUTE;
    if req.routeSpec.Some? {
      rs := req.routeSpec.value;
    }
    if flags.hostname.Some? {
      rs := rs.(hostname := flags.hostname.value);
    }
    if flags.tlsEnabled.Some? {
      rs := rs.(tlsEnabled := flags.tlsEnabled.value);
    }
    if flags.timeoutSeconds.Some? {
      rs := rs.(routeTimeoutSeconds := flags.timeoutSeconds);
    }
    if rs.tlsEnabled && rs.hostname == "" {
      return Err(HostnameRequired);
    }
    return Ok(req.(routeSpec := Some(rs)));
  }

  // ---- The command ---------------------------------------------------------

  function OverlayScale(flags: Flags, scale: ScaleSpec): ScaleSpec {
    ScaleSpec(Or(flags.metric, scale.metric), OrInt32(flags.minReplicas, scale.minReplicas),
              OrInt32(flags.maxReplicas, scale.maxReplicas), OrInt32(flags.scaleDelaySeconds, scale.scaleDelaySeconds))
  }

  function OverlayEnv(flags: Flags, env: seq<EnvVar>): Result<seq<EnvVar>, FlagError> {
    if flags.env.Some? then Traverse(ParsePair, flags.env.value) else Ok(env)
  }

  function Overlay(seed: CappRequest, flags: Flags): Result<CappRequest, FlagError> {
    if flags.size.Some? && HasCustom(flags) then Err(SizeAndResources)
    else if OverlayEnv(flags, seed.env).Err? then Err(OverlayEnv(flags, seed.env).error)
    else if OverlayRoute(flags, seed.routeSpec).Err? then Err(OverlayRoute(flags, seed.routeSpec).error)
    else Ok(seed.(
      image := Or(flags.image, seed.image), state := Or(flags.state, seed.state),
      containerName := Or(flags.containerName, seed.containerName), scaleSpec := OverlayScale(flags, seed.scaleSpec),
      env := OverlayEnv(flags, seed.env).value, routeSpec := OverlayRoute(flags, seed.routeSpec).value,
      size := if HasCustom(flags) then "" else Or(flags.size, seed.size),
      customResources := if HasCustom(flags) then CustomOf(flags) else if flags.size.Some? then None else seed.customResources))
  }

  method ApplyTextFlags(flags: Flags, seed: CappRequest) returns (req: CappRequest)
    ensures req == seed.(image := Or(flags.image, seed.image), state := Or(flags.state, seed.state),
                         containerName := Or(flags.containerName, seed.containerName))
  {
    req := seed;
    if flags.image.Some? {
      req := req.(image := flags.image.value);
    }
    if flags.state.Some? {
      req := req.(state := flags.state.value);
    }
    if flags.containerName.Some? {
      req := req.(containerName := flags.containerName.value);
    }
  }

  method ApplyScaleFlags(flags: Flags, current: ScaleSpec) returns (scale: ScaleSpec)
    ensures scale == OverlayScale(flags, current)
  {
    scale := current;
    if flags.metric.Some? {
      scale := scale.(metric := flags.metric.value);
    }
    if flags.minReplicas.Some? {
      scale := scale.(minReplicas := Some(Int32(flags.minReplicas.value)));
    }
    if flags.maxReplicas.Some? {
      scale := scale.(maxReplicas := Some(Int32(flags.maxReplicas.value)));
    }
    if flags.scaleDelaySeconds.Some? {
      scale := scale.(scaleDelaySeconds := Some(Int32(flags.scaleDelaySeconds.value)));
    }
  }

  method Update(current: CappResponse, name: string, flags: Flags) returns (r: Result<CappRequest, FlagError>)
    ensures r == Overlay(Seed(current, name), flags)
  {
    var hasCustom := HasCustom(flags);
    if flags.size.Some? && hasCustom {
      return Err(SizeAndResources);
    }
    var req := Seed(current, name);
    req := ApplyTextFlags(flags, req);
    var scale := ApplyScaleFlags(flags, req.scaleSpec);
    req := req.(scaleSpec := scale);
    if flags.env.Some? {
      var env := ParseEnvPairs(flags.env.value);
      if env.Err? {
        return Err(env.error);
      }
      req := req.(env := env.value);
    }
    if flags.size.Some? {
      req := req.(size := flags.size.value, customResources := None);
    }
    if hasCustom {
      req := req.(size := "", customResources := CustomOf(flags));
    }
    r := ApplyRouteFlags(flags, req);
  }

  // ---- What an update changes ----------------------------------------------

  /** The resources the flags ask for; the container's own when they ask for none. */
  function FlaggedResources(codec: Codec, sizes: Sizes, flags: Flags, current: Resources): Result<Resources, Error> {
    if HasCustom(flags) then (if CustomOf(flags).None? then Ok(current) else ParseCustom(codec, CustomOf(flags).value))
    else if flags.size.None? || flags.size.value == "" then Ok(current)
    else match SizeNamed(sizes, flags.size.value)
      case None => Err(InvalidSize(flags.size.value))
      case Some(spec) => ParseSize(codec, spec)
  }

  /** The Capp with the flagged fields replaced and nothing else. */
  function Flagged(capp: Capp, flags: Flags, env: seq<K8sEnvVar>, resources: Resources): Capp
    requires |capp.spec.pod.containers| == 1
  {
    var spec, c := capp.spec, capp.spec.pod.containers[0];
    capp.(spec := spec.(
      state := Or(flags.state, spec.state), scaleSpec := OverlayScale(flags, spec.scaleSpec),
      route := if HasRoute(flags) then K8sRoute(RouteOf(flags, spec.route.route), "") else spec.route,
      pod := spec.pod.(containers := [c.(
        image := Or(flags.image, c.image), name := Or(flags.containerName, c.name), env := env, resources := resources)])))
  }

  /** A pair never has a reference, so it always converts. */
  lemma PairsConvert(pairs: seq<string>)
    requires Traverse(ParsePair, pairs).Ok?
    ensures Traverse(EnvVarToK8s, Traverse(ParsePair, pairs).value).Ok?
  {
    TraverseOk(ParsePair, pairs);
    var env := Traverse(ParsePair, pairs).value;
    forall i | 0 <= i < |env|
      ensures EnvVarToK8s(env[i]).Ok?
    {
      assert ParsePair(pairs[i]) == Ok(env[i]);
    }
    TraverseOk(EnvVarToK8s, env);
  }

  /** What the server makes of the parts of an overlaid seed: those of the seed, with another environment and route. */
  lemma OverlaidParts(codec: Codec, seed: CappRequest, flags: Flags, parts: Parts) returns (env: seq<K8sEnvVar>)
    requires PartsOf(codec, seed) == Ok(parts) && Overlay(seed, flags).Ok?
    ensures flags.env.None? ==> env == parts.env
    ensures flags.env.Some? ==> Traverse(EnvVarToK8s, OverlayEnv(flags, seed.env).value) == Ok(env)
    ensures PartsOf(codec, Overlay(seed, flags).value)
      == Ok(parts.(env := env, route := if HasRoute(flags) then K8sRoute(RouteOf(flags, parts.route.route), "") else parts.route))
  {
    if flags.env.Some? {
      PairsConvert(flags.env.value);
    }
    var changed := Overlay(seed, flags).value;
    assert AllMounts(changed) == AllMounts(seed) && SourcesOf(changed) == SourcesOf(seed);
    env := Traverse(EnvVarToK8s, changed.env).value;
  }

  lemma ResourcesAsFlagged(codec: Codec, sizes: Sizes, seed: CappRequest, flags: Flags, current: Resources)
    requires Overlay(seed, flags).Ok? && seed.customResources == None
    requires seed.size == SizeFromResources(codec, sizes, current) && SizeFaithful(codec, sizes, current)
    ensures ResourcesOf(codec, sizes, Overlay(seed, flags).value, current) == FlaggedResources(codec, sizes, flags, current)
  {
    SizesAreNamed(codec, sizes, current);
  }

  /** Laying an overlaid seed over the Capp changes what the flags name. */
  lemma FlagsAssemble(
      seed: CappRequest, changed: CappRequest, capp: Capp, parts: Parts, env: seq<K8sEnvVar>, resources: Resources, flags: Flags)
    requires |capp.spec.pod.containers| == 1 && Overlay(seed, flags) == Ok(changed)
    requires Assemble(seed, capp, parts, capp.spec.pod.containers[0].resources) == capp
    ensures var route := if HasRoute(flags) then K8sRoute(RouteOf(flags, parts.route.route), "") else parts.route;
      Assemble(changed, capp, parts.(env := env, route := route), resources) == Flagged(capp, flags, env, resources)
  {
    var own := Assemble(seed, capp, parts, capp.spec.pod.containers[0].resources);
    assert own.spec.pod.containers[0] == capp.spec.pod.containers[0];
  }

  lemma FlaggedBuilds(codec: Codec, sizes: Sizes, seed: CappRequest, capp: Capp, namespace: string, flags: Flags)
    returns (changed: CappRequest, env: seq<K8sEnvVar>)
    requires |capp.spec.pod.containers| == 1 && Overlay(seed, flags).Ok?
    requires seed.name == capp.meta.name && namespace == capp.meta.namespace && seed.customResources == None
    requires var current := capp.spec.pod.containers[0].resources;
      seed.size == SizeFromResources(codec, sizes, current) && SizeFaithful(codec, sizes, current)
    requires Built(codec, sizes, seed, Some(capp), namespace) == Ok(capp)
    ensures Overlay(seed, flags) == Ok(changed)
    ensures flags.env.None? ==> env == capp.spec.pod.containers[0].env
    ensures flags.env.Some? ==> Traverse(ParsePair, flags.env.value).Ok? && Traverse(EnvVarToK8s, changed.env) == Ok(env)
    ensures var resources := FlaggedResources(codec, sizes, flags, capp.spec.pod.containers[0].resources);
      Built(codec, sizes, changed, Some(capp), namespace)
        == if resources.Err? then Err(resources.error) else Ok(Flagged(capp, flags, env, resources.value))
  {
    changed := Overlay(seed, flags).value;
    var current := capp.spec.pod.containers[0].resources;
    var parts := PartsOf(codec, seed).value;
    assert Base(seed, Some(capp), namespace) == capp && Base(changed, Some(capp), namespace) == capp;
    SizesAreNamed(codec, sizes, current);
    assert Assemble(seed, capp, parts, current) == capp;
    assert parts.env == capp.spec.pod.containers[0].env by {
      assert Assemble(seed, capp, parts, current).spec.pod.containers[0] == capp.spec.pod.containers[0];
    }
    env := OverlaidParts(codec, seed, flags, parts);
    ResourcesAsFlagged(codec, sizes, seed, flags, current);
    var resources := FlaggedResources(codec, sizes, flags, current);
    if resources.Ok? {
      FlagsAssemble(seed, changed, capp, parts, env, resources.value, flags);
    }
  }

  lemma SeedShape(codec: Codec, sizes: Sizes, req: CappRequest, existing: Option<Capp>, namespace: string)
    returns (capp: Capp, seed: CappRequest)
    requires Built(codec, sizes, req, existing, namespace).Ok?
    ensures capp == Built(codec, sizes, req, existing, namespace).value
    ensures seed == Seed(Response(codec, sizes, capp), capp.meta.name)
    ensures |capp.spec.pod.containers| == 1 && capp.meta.namespace == namespace
    ensures seed.name == capp.meta.name && seed.customResources == None
    ensures seed.size == SizeFromResources(codec, sizes, capp.spec.pod.containers[0].resources)
  {
    capp := Built(codec, sizes, req, existing, namespace).value;
    seed := Seed(Response(codec, sizes, capp), capp.meta.name);
  }

  /**
   An update without mounted Secret and ConfigMap volumes changes the flagged fields and no other, resources included:
   the size the seed carries along stands for the resources the container has.
   */
  lemma UpdateChangesFlagged(
      codec: Codec, sizes: Sizes, req: CappRequest, existing: Option<Capp>, namespace: string, flags: Flags)
    returns (capp: Capp, changed: CappRequest, env: seq<K8sEnvVar>)
    requires Built(codec, sizes, req, existing, namespace).Ok? && Canonical(codec, Built(codec, sizes, req, existing, namespace).value)
    requires req.secretVolumes == [] && req.configMapVolumes == []
    requires var built := Built(codec, sizes, req, existing, namespace).value;
      && Overlay(Seed(Response(codec, sizes, built), built.meta.name), flags).Ok?
      && SizeFaithful(codec, sizes, built.spec.pod.containers[0].resources) && LogTyped(built)
    ensures capp == Built(codec, sizes, req, existing, namespace).value && |capp.spec.pod.containers| == 1
    ensures Overlay(Seed(Response(codec, sizes, capp), capp.meta.name), flags) == Ok(changed)
    ensures flags.env.None? ==> env == capp.spec.pod.containers[0].env
    ensures flags.env.Some? ==> Traverse(ParsePair, flags.env.value).Ok? && Traverse(EnvVarToK8s, changed.env) == Ok(env)
    ensures var resources := FlaggedResources(codec, sizes, flags, capp.spec.pod.containers[0].resources);
      Built(codec, sizes, changed, Some(capp), namespace)
        == if resources.Err? then Err(resources.error) else Ok(Flagged(capp, flags, env, resources.value))
  {
    var seed;
    capp, seed := SeedShape(codec, sizes, req, existing, namespace);
    assert Built(codec, sizes, seed, Some(capp), namespace) == Ok(capp) by {
      var _, _ := UpdateRoundTrip(codec, sizes, req, existing, namespace);
      KeepsPlain(seed.volumeMounts, [], []);
      assert Cleaned(seed) == seed;
    }
    changed, env := FlaggedBuilds(codec, sizes, seed, capp, namespace, flags);
  }

  // ---- The same, field by field ---------------------------------------------

  /** A 32-bit integer that differs by a multiple of 2^32. */
  predicate Wrapped(v: int, r: int) {
    -0x8000_0000 <= r < 0x8000_0000 && (v - r) % 0x1_0000_0000 == 0
  }

  predicate CountFlagged(flag: Option<int>, current: Option<int>, count: Option<int>) {
    if flag.Some? then count.Some? && Wrapped(flag.value, count.value) else count == current
  }

  /** A nonempty name without an equals sign, then nothing, or an equals sign and the value. */
  predicate PairShown(pair: string, k: K8sEnvVar) {
    && k.name != "" && '=' !in k.name && k.valueFrom.None?
    && (pair == k.name + "=" + k.value || (pair == k.name && k.value == ""))
  }

  predicate TextFlagged(flag: Option<string>, current: string, text: string) {
    text == if flag.Some? then flag.value else current
  }

  predicate RouteFlagged(flags: Flags, current: RouteSpec, route: RouteSpec) {
    && TextFlagged(flags.hostname, current.hostname, route.hostname)
    && route.tlsEnabled == (if flags.tlsEnabled.Some? then flags.tlsEnabled.value else current.tlsEnabled)
    && route.routeTimeoutSeconds == (if flags.timeoutSeconds.Some? then flags.timeoutSeconds else current.routeTimeoutSeconds)
  }

  /** Some quantity was flagged, and not as the empty text. */
  predicate Quantified(flags: Flags) {
    exists flag | flag in [flags.cpuRequest, flags.memoryRequest, flags.cpuLimit, flags.memoryLimit] :: flag.Some? && flag.value != ""
  }

  predicate QuantityFlagged(codec: Codec, flag: Option<string>, list: ResourceList, name: string) {
    && (name in list <==> flag.Some? && flag.value != "")
    && (name in list ==> codec.parseQuantity(flag.value) == Some(list[name]))
  }

  /** Flagged quantities replace all others; a flagged size brings its own; without either the container's stay. */
  predicate ResourcesFlagged(codec: Codec, sizes: Sizes, flags: Flags, current: Resources, res: Resources) {
    if Quantified(flags) then
      && res.requests.Keys + res.limits.Keys <= {CPU, MEMORY} && res.claims == ""
      && QuantityFlagged(codec, flags.cpuRequest, res.requests, CPU) && QuantityFlagged(codec, flags.memoryRequest, res.requests, MEMORY)
      && QuantityFlagged(codec, flags.cpuLimit, res.limits, CPU) && QuantityFlagged(codec, flags.memoryLimit, res.limits, MEMORY)
    else if flags.size.Some? && flags.size.value != "" then
      && (flags.size.value == "small" ==> CappFaithful.SizeIs(codec, sizes.small, res))
      && (flags.size.value == "medium" ==> CappFaithful.SizeIs(codec, sizes.medium, res))
      && (flags.size.value == "large" ==> CappFaithful.SizeIs(codec, sizes.large, res))
      && flags.size.value in {"small", "medium", "large"}
    else res == current
  }

  lemma CountIsFlagged(flag: Option<int>, current: Option<int>)
    ensures CountFlagged(flag, current, OrInt32(flag, current))
  {
  }

  lemma ResourcesAreFlagged(codec: Codec, sizes: Sizes, flags: Flags, current: Resources)
    requires FlaggedResources(codec, sizes, flags, current).Ok? && !(flags.size.Some? && HasCustom(flags))
    ensures ResourcesFlagged(codec, sizes, flags, current, FlaggedResources(codec, sizes, flags, current).value)
  {
    assert Quantified(flags) <==> HasCustom(flags) && CustomOf(flags).Some?;
    if HasCustom(flags) && CustomOf(flags).Some? {
      CappFaithful.ParsedList(codec, CustomOf(flags).value.requests);
      CappFaithful.ParsedList(codec, CustomOf(flags).value.limits);
    } else if flags.size.Some? {
      CappFaithful.ParsedSize(codec, sizes.small);
      CappFaithful.ParsedSize(codec, sizes.medium);
      CappFaithful.ParsedSize(codec, sizes.large);
    }
  }

  lemma PairIsShown(pair: string)
    requires ParsePair(pair).Ok?
    ensures var e := ParsePair(pair).value;
      EnvVarToK8s(e).Ok? && PairShown(pair, EnvVarToK8s(e).value)
  {
    var end := KeyEnd(pair);
    if end < |pair| {
      assert pair == pair[..end] + "=" + pair[end + 1..];
    } else {
      assert pair == pair[..end];
    }
  }

  predicate SizeAndQuantities(flags: Flags) {
    flags.size.Some? && (flags.cpuRequest.Some? || flags.cpuLimit.Some? || flags.memoryRequest.Some? || flags.memoryLimit.Some?)
  }

  predicate Keyless(pair: string) {
    pair == "" || pair[0] == '='
  }

  /** The first pair without a key. */
  predicate FirstKeyless(pairs: seq<string>, i: int) {
    0 <= i < |pairs| && Keyless(pairs[i]) && forall j | 0 <= j < i :: !Keyless(pairs[j])
  }

  /** TLS is on, and no hostname is flagged or there. */
  predicate TLSWithoutHost(flags: Flags, current: RouteSpec) {
    && (flags.hostname.Some? || flags.tlsEnabled.Some? || flags.timeoutSeconds.Some?)
    && (if flags.tlsEnabled.Some? then flags.tlsEnabled.value else current.tlsEnabled)
    && (if flags.hostname.Some? then flags.hostname.value == "" else current.hostname == "")
  }

  /** The flags are refused for a size beside quantities, else for the first pair without a key, else for TLS without a hostname. */
  lemma RefusedExactly(seed: CappRequest, flags: Flags)
    ensures var r := Overlay(seed, flags);
      var current := if seed.routeSpec.Some? then seed.routeSpec.value else RouteSpec("", false, None);
      var keyless := flags.env.Some? && exists i :: FirstKeyless(flags.env.value, i);
      && (r == Err(SizeAndResources) <==> SizeAndQuantities(flags))
      && (r.Err? && r.error.EmptyKey? <==> !SizeAndQuantities(flags) && keyless)
      && (r.Err? && r.error.EmptyKey? ==> exists i :: FirstKeyless(flags.env.value, i) && r.error.pair == flags.env.value[i])
      && (r == Err(HostnameRequired) <==> !SizeAndQuantities(flags) && !keyless && TLSWithoutHost(flags, current))
  {
    if flags.env.Some? {
      KeylessExactly(flags.env.value);
    }
  }

  lemma {:induction false} KeylessExactly(pairs: seq<string>)
    ensures Traverse(ParsePair, pairs).Err? <==> exists i :: FirstKeyless(pairs, i)
    ensures Traverse(ParsePair, pairs).Err? ==>
      exists i :: FirstKeyless(pairs, i) && Traverse(ParsePair, pairs).error == EmptyKey(pairs[i])
  {
    hide ParsePair;
    if pairs != [] {
      var front, last := pairs[..|pairs| - 1], pairs[|pairs| - 1];
      KeylessExactly(front);
      PairKeyless(last);
      if Traverse(ParsePair, front).Err? {
        var i :| FirstKeyless(front, i) && Traverse(ParsePair, front).error == EmptyKey(front[i]);
        assert FirstKeyless(pairs, i);
      } else if Keyless(last) {
        NoneBefore(front);
        assert FirstKeyless(pairs, |front|);
      } else {
        assert forall i :: FirstKeyless(pairs, i) && i < |front| ==> FirstKeyless(front, i);
      }
    }
  }

  lemma PairKeyless(pair: string)
    ensures ParsePair(pair) == Err(EmptyKey(pair)) <==> Keyless(pair)
    ensures ParsePair(pair).Err? ==> Keyless(pair)
  {
  }

  lemma {:induction false} NoneBefore(pairs: seq<string>)
    requires forall i :: !FirstKeyless(pairs, i)
    ensures forall i | 0 <= i < |pairs| :: !Keyless(pairs[i])
  {
    if pairs != [] {
      var front := pairs[..|pairs| - 1];
      forall i
        ensures !FirstKeyless(front, i)
      {
        assert !FirstKeyless(pairs, i);
      }
      NoneBefore(front);
      assert !FirstKeyless(pairs, |front|);
    }
  }

  /** Each flag lands in its own field; apart from the environment and the resources nothing else is different. */
  predicate FlagsLand(flags: Flags, capp: Capp, updated: Capp) {
    && |capp.spec.pod.containers| == |updated.spec.pod.containers| == 1
    && updated.meta == capp.meta && TextFlagged(flags.state, capp.spec.state, updated.spec.state)
    && var before, after := capp.spec.scaleSpec, updated.spec.scaleSpec;
    && TextFlagged(flags.metric, before.metric, after.metric) && CountFlagged(flags.minReplicas, before.minReplicas, after.minReplicas)
    && CountFlagged(flags.maxReplicas, before.maxReplicas, after.maxReplicas)
    && CountFlagged(flags.scaleDelaySeconds, before.scaleDelaySeconds, after.scaleDelaySeconds)
    && RouteFlagged(flags, capp.spec.route.route, updated.spec.route.route)
    && var c, d := capp.spec.pod.containers[0], updated.spec.pod.containers[0];
    && TextFlagged(flags.image, c.image, d.image) && TextFlagged(flags.containerName, c.name, d.name)
    && d.mounts == c.mounts && d.other == c.other
    && updated.spec.log == capp.spec.log && updated.spec.nfs == capp.spec.nfs && updated.spec.sources == capp.spec.sources
    && updated.spec.templateMeta == capp.spec.templateMeta && updated.spec.other == capp.spec.other
    && updated.spec.pod.volumes == capp.spec.pod.volumes && updated.spec.pod.imagePullSecrets == capp.spec.pod.imagePullSecrets
    && updated.spec.pod.other == capp.spec.pod.other
  }

  lemma FlaggedLands(capp: Capp, flags: Flags, env: seq<K8sEnvVar>, resources: Resources)
    requires |capp.spec.pod.containers| == 1
    ensures FlagsLand(flags, capp, Flagged(capp, flags, env, resources))
    ensures var updated := Flagged(capp, flags, env, resources);
      |updated.spec.pod.containers| == 1 && updated.spec.pod.containers[0].env == env && updated.spec.pod.containers[0].resources == resources
  {
    hide OrInt32, CountFlagged;
    CountIsFlagged(flags.minReplicas, capp.spec.scaleSpec.minReplicas);
    CountIsFlagged(flags.maxReplicas, capp.spec.scaleSpec.maxReplicas);
    CountIsFlagged(flags.scaleDelaySeconds, capp.spec.scaleSpec.scaleDelaySeconds);
  }

  /** What an accepted update makes of a Capp without mounted volumes, flag by flag. */
  lemma UpdateShows(
      codec: Codec, sizes: Sizes, req: CappRequest, existing: Option<Capp>, namespace: string, flags: Flags)
    returns (capp: Capp, sent: CappRequest, updated: Capp)
    requires Built(codec, sizes, req, existing, namespace).Ok? && Canonical(codec, Built(codec, sizes, req, existing, namespace).value)
    requires req.secretVolumes == [] && req.configMapVolumes == []
    requires var built := Built(codec, sizes, req, existing, namespace).value;
      var overlaid := Overlay(Seed(Response(codec, sizes, built), built.meta.name), flags);
      && overlaid.Ok? && Built(codec, sizes, overlaid.value, Some(built), namespace).Ok?
      && SizeFaithful(codec, sizes, built.spec.pod.containers[0].resources) && LogTyped(built)
    ensures capp == Built(codec, sizes, req, existing, namespace).value
    ensures Overlay(Seed(Response(codec, sizes, capp), capp.meta.name), flags) == Ok(sent)
    ensures Built(codec, sizes, sent, Some(capp), namespace) == Ok(updated) && FlagsLand(flags, capp, updated)
    ensures var c, d := capp.spec.pod.containers[0], updated.spec.pod.containers[0];
      && (flags.env.None? ==> d.env == c.env)
      && (flags.env.Some? ==> |d.env| == |flags.env.value| && forall i | 0 <= i < |d.env| :: PairShown(flags.env.value[i], d.env[i]))
      && ResourcesFlagged(codec, sizes, flags, c.resources, d.resources)
  {
    hide *;
    var env;
    capp, sent, env := UpdateChangesFlagged(codec, sizes, req, existing, namespace, flags);
    var current := capp.spec.pod.containers[0].resources;
    OverlayFine(Seed(Response(codec, sizes, capp), capp.meta.name), flags);
    updated := Built(codec, sizes, sent, Some(capp), namespace).value;
    ResourcesAreFlagged(codec, sizes, flags, current);
    FlaggedLands(capp, flags, env, FlaggedResources(codec, sizes, flags, current).value);
    if flags.env.Some? {
      EnvIsShown(flags.env.value, sent.env, env);
    }
  }

  lemma OverlayFine(seed: CappRequest, flags: Flags)
    requires Overlay(seed, flags).Ok?
    ensures !(flags.size.Some? && HasCustom(flags))
    ensures flags.env.Some? ==> Traverse(ParsePair, flags.env.value) == Ok(Overlay(seed, flags).value.env)
  {
  }

  lemma EnvIsShown(pairs: seq<string>, sent: seq<EnvVar>, env: seq<K8sEnvVar>)
    requires Traverse(ParsePair, pairs) == Ok(sent) && Traverse(EnvVarToK8s, sent) == Ok(env)
    ensures |env| == |pairs| && forall i | 0 <= i < |env| :: PairShown(pairs[i], env[i])
  {
    hide PairShown;
    TraverseOk(ParsePair, pairs);
    TraverseOk(EnvVarToK8s, sent);
    forall i | 0 <= i < |env|
      ensures PairShown(pairs[i], env[i])
    {
      assert ParsePair(pairs[i]) == Ok(sent[i]) && EnvVarToK8s(sent[i]) == Ok(env[i]);
      PairIsShown(pairs[i]);
    }
  }
}
