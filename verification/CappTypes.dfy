/** The request and response of the API, and the Capp resource they stand for. */
module CappTypes {
  import opened Prelude

  // ---- Quantities, URLs and names ------------------------------------------

  /** A Kubernetes quantity: its amount in thousandths, and the notation it is printed in. */
  datatype Quantity = Quantity(milli: int, format: nat)
  datatype URL = URL(text: string)

  /** The parsers and printers of the libraries, and the DNS-1123 subdomain check. */
  datatype Codec = Codec(
    parseQuantity: string -> Option<Quantity>, printQuantity: Quantity -> string,
    parseURL: string -> Option<URL>, printURL: URL -> string,
    validName: string -> bool)

  // ---- What requests and responses share -----------------------------------

  datatype KeySelector = KeySelector(name: string, key: string)
  datatype EnvVarSource = EnvVarSource(secretKeyRef: Option<KeySelector>, configMapKeyRef: Option<KeySelector>)
  datatype EnvVar = EnvVar(name: string, value: string, valueFrom: Option<EnvVarSource>)
  datatype VolumeMount = VolumeMount(name: string, mountPath: string)
  datatype RouteSpec = RouteSpec(hostname: string, tlsEnabled: bool, routeTimeoutSeconds: Option<int>)
  datatype LogSpec = LogSpec(
    logType: string, host: string, target: string, user: string, passwordSecret: string, passwordKey: string)
  datatype NFSVolume = NFSVolume(name: string, server: string, path: string, capacity: string)
  datatype SecretVolume = SecretVolume(name: string, secretName: string, mountPath: string)
  datatype ConfigMapVolume = ConfigMapVolume(name: string, configMapName: string, mountPath: string)
  datatype ScaleSpec = ScaleSpec(
    metric: string, minReplicas: Option<int>, maxReplicas: Option<int>, scaleDelaySeconds: Option<int>)
  datatype Quantities = Quantities(cpu: string, memory: string)
  datatype ResourceSpec = ResourceSpec(requests: Option<Quantities>, limits: Option<Quantities>)
  datatype PingSource = PingSource(schedule: string, data: string)
  datatype KafkaSource = KafkaSource(
    bootstrapServers: seq<string>, topics: seq<string>, consumerGroup: string, consumers: Option<int>, secretRef: string)
  datatype SourceConfig = SourceConfig(name: string, uri: string, ping: Option<PingSource>, kafka: Option<KafkaSource>)

  datatype CappRequest = CappRequest(
    name: string, scaleSpec: ScaleSpec, state: string, image: string, containerName: string,
    size: string, customResources: Option<ResourceSpec>,
    env: seq<EnvVar>, volumeMounts: seq<VolumeMount>,
    routeSpec: Option<RouteSpec>, logSpec: Option<LogSpec>, nfsVolumes: seq<NFSVolume>,
    secretVolumes: seq<SecretVolume>, configMapVolumes: seq<ConfigMapVolume>,
    imagePullSecrets: seq<string>, eventSources: Option<seq<SourceConfig>>)

  datatype CappResponse = CappResponse(
    name: string, namespace: string, labels: map<string, string>,
    scaleSpec: ScaleSpec, state: string, image: string, containerName: string,
    size: string, resources: Option<ResourceSpec>,
    env: seq<EnvVar>, volumeMounts: seq<VolumeMount>,
    routeSpec: Option<RouteSpec>, logSpec: Option<LogSpec>, nfsVolumes: seq<NFSVolume>,
    secretVolumes: seq<SecretVolume>, configMapVolumes: seq<ConfigMapVolume>,
    imagePullSecrets: seq<string>, eventSources: Option<seq<SourceConfig>>)

  datatype SizeSpec = SizeSpec(requests: Quantities, limits: Quantities)
  datatype Sizes = Sizes(small: SizeSpec, medium: SizeSpec, large: SizeSpec)

  // ---- The Capp resource ---------------------------------------------------
  // Every record has one field for all it holds that the conversion never looks at.

  type ResourceList = map<string, Quantity>

  const CPU := "cpu"
  const MEMORY := "memory"
  const STORAGE := "storage"

  datatype Resources = Resources(requests: ResourceList, limits: ResourceList, claims: string)
  datatype K8sEnvSource = K8sEnvSource(secretKeyRef: Option<KeySelector>, configMapKeyRef: Option<KeySelector>, other: string)
  datatype K8sEnvVar = K8sEnvVar(name: string, value: string, valueFrom: Option<K8sEnvSource>)
  datatype K8sMount = K8sMount(name: string, mountPath: string, other: string)
  datatype Container = Container(
    name: string, image: string, env: seq<K8sEnvVar>, mounts: seq<K8sMount>, resources: Resources, other: string)
  datatype VolumeSource = Secret(secretName: string, secretOther: string) | ConfigMap(name: string, configMapOther: string) | OtherSource(other: string)
  datatype Volume = Volume(name: string, source: VolumeSource)
  datatype PodSpec = PodSpec(containers: seq<Container>, volumes: seq<Volume>, imagePullSecrets: seq<string>, other: string)
  datatype K8sRoute = K8sRoute(route: RouteSpec, other: string)
  datatype K8sNFS = K8sNFS(name: string, server: string, path: string, capacity: ResourceList)
  datatype K8sSource = K8sSource(name: string, uri: Option<URL>, ping: Option<PingSource>, kafka: Option<KafkaSource>)
  datatype CappSpec = CappSpec(
    state: string, scaleSpec: ScaleSpec, pod: PodSpec, templateMeta: string,
    route: K8sRoute, log: LogSpec, nfs: seq<K8sNFS>, sources: seq<K8sSource>, other: string)
  datatype Meta = Meta(name: string, namespace: string, labels: map<string, string>, annotations: map<string, string>, other: string)

  /** Metadata and spec; the status is the operator's. */
  datatype Capp = Capp(meta: Meta, spec: CappSpec)

  const NO_RESOURCES := Resources(map[], map[], "")
  const EMPTY_CONTAINER := Container("", "", [], [], NO_RESOURCES, "")
  const NO_ROUTE := RouteSpec("", false, None)
  const NO_LOG := LogSpec("", "", "", "", "", "")
  const EMPTY_SPEC := CappSpec("", ScaleSpec("", None, None, None), PodSpec([EMPTY_CONTAINER], [], [], ""), "",
                               K8sRoute(NO_ROUTE, ""), NO_LOG, [], [], "")

  datatype Error =
    | InvalidEnvVar(name: string)
    | DuplicateMount(name: string) | DuplicateSecretVolume(name: string) | DuplicateConfigMapVolume(name: string)
    | InvalidPullSecret(name: string) | DuplicatePullSecret(name: string)
    | InvalidCapacity(text: string) | InvalidEventSource(name: string) | InvalidURI(text: string)
    | SizeAndCustomResources | InvalidSize(size: string) | InvalidQuantity(text: string)
}
