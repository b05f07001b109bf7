/** The functional options of the tracing facade (options.go): each option
    is a setter closure that writes one field of the options record in place
    when it is applied. */
module TracingOptions {
  import opened Tracing

  /** The caller's error callback, known to the model only by its identity;
      NoHandler is the nil function of a fresh record. */
  datatype Handler = NoHandler | Handler(id: nat)

  /** A snapshot of every field of the options record. */
  datatype OptionsRecord = OptionsRecord(
    otelGrpcEndpoint: string,
    serviceName: string,
    serviceVersion: string,
    deploymentEnvironment: string,
    attributes: seq<KeyValue>,
    errorHandler: Handler,
    stdoutTrace: bool)

  /** The zero value of the record. */
  const ZeroOptions: OptionsRecord := OptionsRecord("", "", "", "", [], NoHandler, false)

  /** An option, named after the closure its With* constructor returns and
      carrying the value that closure captured. */
  datatype Option =
    | SetOtelGrpcEndpoint(endpoint: string)
    | SetServiceName(name: string)
    | SetServiceVersion(version: string)
    | SetDeploymentEnvironment(env: string)
    | SetAttributes(attrs: seq<string>)
    | SetErrorHandler(handler: Handler)
    | SetStdoutTrace

  function WithOtelGrpcEndpoint(endpoint: string): (r: Option) { SetOtelGrpcEndpoint(endpoint) }
  /** Spelled as the facade spells it. */
  function WithSerivceName(name: string): (r: Option) { SetServiceName(name) }
  function WithServiceVersion(version: string): (r: Option) { SetServiceVersion(version) }
  function WithDeploymentEnvironment(env: string): (r: Option) { SetDeploymentEnvironment(env) }
  function WithAttributes(attrs: seq<string>): (r: Option) { SetAttributes(attrs) }
  function WithErrorHandler(handler: Handler): (r: Option) { SetErrorHandler(handler) }
  function WithStdoutTrace(): (r: Option) { SetStdoutTrace }

  /** A flat list read as key, value, key, value, ...; a trailing unpaired
      string is ignored. */
  function Paired(attrs: seq<string>): (r: seq<KeyValue>) {
    if |attrs| < 2 then [] else [String(attrs[0], attrs[1])] + Paired(attrs[2..])
  }

  /** Pair k of the flat list is (attrs[2k], attrs[2k+1]); there are exactly
      |attrs| / 2 pairs and none is dropped, empty strings included. */
  lemma {:induction false} PairedAt(attrs: seq<string>)
    ensures |Paired(attrs)| == |attrs| / 2
    ensures forall k :: 0 <= k < |Paired(attrs)| ==> Paired(attrs)[k] == KeyValue(attrs[2 * k], attrs[2 * k + 1])
  {
    if |attrs| >= 2 {
      var rest := attrs[2..];
      PairedAt(rest);
      forall k | 1 <= k < |Paired(attrs)|
        ensures Paired(attrs)[k] == KeyValue(attrs[2 * k], attrs[2 * k + 1])
      {
        assert Paired(attrs)[k] == Paired(rest)[k - 1];
        assert rest[2 * (k - 1)] == attrs[2 * k];
        assert rest[2 * (k - 1) + 1] == attrs[2 * k + 1];
      }
    }
  }

  /** What applying an option does to the record. */
  function Applied(o: OptionsRecord, opt: Option): (r: OptionsRecord) {
    match opt
    case SetOtelGrpcEndpoint(endpoint) => o.(otelGrpcEndpoint := endpoint)
    case SetServiceName(name) => o.(serviceName := name)
    case SetServiceVersion(version) => o.(serviceVersion := version)
    case SetDeploymentEnvironment(env) => o.(deploymentEnvironment := env)
    case SetAttributes(attrs) =>
      if |attrs| < 2 then o
      else if |attrs| % 2 != 0 then o
      else o.(attributes := Paired(attrs))
    case SetErrorHandler(handler) => o.(errorHandler := handler)
    case SetStdoutTrace => o.(stdoutTrace := true)
  }

  /** The pairing loop of WithAttributes: walks the flat list two strings at
      a time and appends one pair per step. */
  method PairAttributes(attrs: seq<string>) returns (attributes: seq<KeyValue>)
    ensures |attributes| == |attrs| / 2
    ensures forall k :: 0 <= k < |attributes| ==> attributes[k] == KeyValue(attrs[2 * k], attrs[2 * k + 1])
    ensures attributes == Paired(attrs)
  {
    attributes := [];
    var i := 0;
    while i < |attrs| - 1
      invariant i == 2 * |attributes| <= |attrs|
      invariant forall k :: 0 <= k < |attributes| ==> attributes[k] == KeyValue(attrs[2 * k], attrs[2 * k + 1])
      decreases |attrs| - i
    {
      var key := attrs[i];
      var val := attrs[i + 1];
      attributes := attributes + [String(key, val)];
      i := i + 2;
    }
    PairedAt(attrs);
  }

  /** The options record, updated in place by the options applied to it. */
  class Options {
    var otelGrpcEndpoint: string
    var serviceName: string
    var serviceVersion: string
    var deploymentEnvironment: string
    var attributes: seq<KeyValue>
    var errorHandler: Handler
    var stdoutTrace: bool

    function Record(): (r: OptionsRecord)
      reads this
    {
      OptionsRecord(otelGrpcEndpoint, serviceName, serviceVersion, deploymentEnvironment,
                    attributes, errorHandler, stdoutTrace)
    }

    /** A record with every field at its zero value. */
    constructor ()
      ensures Record() == ZeroOptions
    {
      otelGrpcEndpoint, serviceName, serviceVersion, deploymentEnvironment := "", "", "", "";
      attributes, errorHandler, stdoutTrace := [], NoHandler, false;
    }

    /** Runs the option's setter on this record. */
    method Apply(opt: Option)
      modifies this
      ensures Record() == Applied(old(Record()), opt)
    {
      match opt
      case SetOtelGrpcEndpoint(endpoint) => otelGrpcEndpoint := endpoint;
      case SetServiceName(name) => serviceName := name;
      case SetServiceVersion(version) => serviceVersion := version;
      case SetDeploymentEnvironment(env) => deploymentEnvironment := env;
      case SetAttributes(attrs) =>
        if |attrs| < 2 {
          return;
        }
        if |attrs| % 2 != 0 {
          return;
        }
        var paired := PairAttributes(attrs);
        attributes := paired;
      case SetErrorHandler(handler) => errorHandler := handler;
      case SetStdoutTrace => stdoutTrace := true;
    }
  }

  /** The endpoint option writes the endpoint and nothing else. */
  lemma EndpointSetsOnlyEndpoint(o: OptionsRecord, endpoint: string)
    ensures Applied(o, WithOtelGrpcEndpoint(endpoint)) == o.(otelGrpcEndpoint := endpoint)
  {
  }

  /** The service-name, service-version and deployment-environment options
      each write their own field and nothing else. */
  lemma ServiceSettersSetOnlyTheirField(o: OptionsRecord, v: string)
    ensures Applied(o, WithSerivceName(v)) == o.(serviceName := v)
    ensures Applied(o, WithServiceVersion(v)) == o.(serviceVersion := v)
    ensures Applied(o, WithDeploymentEnvironment(v)) == o.(deploymentEnvironment := v)
  {
  }

  /** The error-handler option installs the handler and nothing else. */
  lemma ErrorHandlerSetsOnlyHandler(o: OptionsRecord, handler: Handler)
    ensures Applied(o, WithErrorHandler(handler)) == o.(errorHandler := handler)
  {
  }

  /** The stdout option switches stdout tracing on, touches nothing else,
      and applying it again changes nothing. */
  lemma StdoutTraceSetsOnlyFlag(o: OptionsRecord)
    ensures Applied(o, WithStdoutTrace()) == o.(stdoutTrace := true)
    ensures Applied(Applied(o, WithStdoutTrace()), WithStdoutTrace()) == Applied(o, WithStdoutTrace())
  {
  }

  /** Fewer than two strings: the record, existing attributes included, is
      left as it was. */
  lemma AttributesTooShortIgnored(o: OptionsRecord, attrs: seq<string>)
    requires |attrs| < 2
    ensures Applied(o, WithAttributes(attrs)) == o
  {
  }

  /** An odd number of strings: the record is left as it was. */
  lemma AttributesOddIgnored(o: OptionsRecord, attrs: seq<string>)
    requires |attrs| % 2 != 0
    ensures Applied(o, WithAttributes(attrs)) == o
  {
  }

  /** An even list of at least two strings replaces the attributes (whatever
      they were) by exactly its pairs, in input order, without filtering out
      empty keys or values; no other field changes. */
  lemma AttributesReplacedByPairs(o: OptionsRecord, attrs: seq<string>)
    requires |attrs| >= 2 && |attrs| % 2 == 0
    ensures Applied(o, WithAttributes(attrs)) == o.(attributes := Applied(o, WithAttributes(attrs)).attributes)
    ensures |Applied(o, WithAttributes(attrs)).attributes| == |attrs| / 2
    ensures forall k :: 0 <= k < |attrs| / 2 ==>
      Applied(o, WithAttributes(attrs)).attributes[k] == KeyValue(attrs[2 * k], attrs[2 * k + 1])
  {
    PairedAt(attrs);
  }

  /** Every option is idempotent: it writes a value that does not depend on
      the record, so applying it twice is the same as applying it once. */
  lemma AppliedIdempotent(o: OptionsRecord, opt: Option)
    ensures Applied(Applied(o, opt), opt) == Applied(o, opt)
  {
  }
}
