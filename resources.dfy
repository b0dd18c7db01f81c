/** The Kubernetes objects the configuration files hold, reduced to the
    fields the details extractors and the configuration generator read.
    Every field may be absent from the JSON, so each is optional. */
module Resources {
  import opened Wrappers

  datatype Metadata = Metadata(
    name: Option<string>,
    namespace: Option<string>,
    labels: Option<map<string, string>>,
    annotations: Option<map<string, string>>)

  /** `spec.to` of a Route: the object it forwards to. */
  datatype RouteTarget = RouteTarget(kind: Option<string>, name: Option<string>)

  datatype Tls = Tls(termination: Option<string>)

  datatype Spec = Spec(host: Option<string>, to: Option<RouteTarget>, tls: Option<Tls>)

  datatype Resource = Resource(
    kind: Option<string>,
    metadata: Option<Metadata>,
    spec: Option<Spec>,
    data: Option<map<string, string>>)

  /** How a template literal shows an optional string: an absent value
      prints as `undefined`. */
  function Shown(s: Option<string>): string {
    match s
    case Some(v) => v
    case None => "undefined"
  }
}
