/** Key/value attributes of the tracing facade and the assembly of the
    resource attribute list that tags every exported span
    (tracing.go: KeyValue, String, and the attribute loop of
    InitOtlpTracerProvider). */
module Tracing {

  /** A string key/value pair. Both the facade's own KeyValue and the
      SDK's attribute.KeyValue built from string values are modelled by it. */
  datatype KeyValue = KeyValue(Key: string, Value: string)

  /** Semantic-convention key of the service-name resource attribute. */
  const ServiceNameKey: string := "service.name"
  /** Semantic-convention key of the service-version resource attribute. */
  const ServiceVersionKey: string := "service.version"

  /** The pair constructor: the key and the value are stored as given. */
  function String(k: string, v: string): (r: KeyValue)
    ensures r.Key == k && r.Value == v
  {
    KeyValue(k, v)
  }

  /** A caller attribute takes part in the resource only when neither its
      key nor its value is empty. */
  predicate Keep(kv: KeyValue) {
    kv.Key != "" && kv.Value != ""
  }

  /** The caller attributes that survive the filter, in input order. */
  function Kept(attributes: seq<KeyValue>): (r: seq<KeyValue>)
    ensures |r| <= |attributes|
    ensures forall kv :: kv in r ==> kv in attributes && Keep(kv)
  {
    if attributes == [] then []
    else if Keep(attributes[0]) then [attributes[0]] + Kept(attributes[1..])
    else Kept(attributes[1..])
  }

  /** Filtering distributes over concatenation: the surviving attributes of
      an earlier part all come before those of a later part. */
  lemma {:induction false} KeptAppend(a: seq<KeyValue>, b: seq<KeyValue>)
    ensures Kept(a + b) == Kept(a) + Kept(b)
  {
    if a == [] {
      assert a + b == b;
    } else {
      assert (a + b)[0] == a[0];
      assert (a + b)[1..] == a[1..] + b;
      KeptAppend(a[1..], b);
    }
  }

  /** Every caller attribute with a non-empty key and value survives. */
  lemma {:induction false} KeptComplete(attributes: seq<KeyValue>, kv: KeyValue)
    requires kv in attributes && Keep(kv)
    ensures kv in Kept(attributes)
  {
    if attributes[0] != kv {
      KeptComplete(attributes[1..], kv);
    }
  }

  /** Nothing is dropped exactly when every caller attribute has a non-empty
      key and value; then the list is passed on unchanged. */
  lemma {:induction false} KeptAllIff(attributes: seq<KeyValue>)
    ensures Kept(attributes) == attributes <==> forall i :: 0 <= i < |attributes| ==> Keep(attributes[i])
  {
    if attributes != [] {
      KeptAllIff(attributes[1..]);
      if !Keep(attributes[0]) {
        assert |Kept(attributes)| < |attributes|;
      }
    }
  }

  /** The resource attribute list: the service-name and service-version
      entries first (even when empty), then the surviving caller attributes
      in input order. */
  method ResourceAttributes(service: string, version: string, attributes: seq<KeyValue>)
    returns (attrs: seq<KeyValue>)
    ensures attrs == [String(ServiceNameKey, service), String(ServiceVersionKey, version)] + Kept(attributes)
    ensures |attrs| == 2 + |Kept(attributes)| <= 2 + |attributes|
    ensures attrs[0] == KeyValue(ServiceNameKey, service) && attrs[1] == KeyValue(ServiceVersionKey, version)
    ensures forall i :: 2 <= i < |attrs| ==> attrs[i] in attributes && Keep(attrs[i])
  {
    attrs := [String(ServiceNameKey, service), String(ServiceVersionKey, version)];
    for i := 0 to |attributes|
      invariant attrs == [String(ServiceNameKey, service), String(ServiceVersionKey, version)] + Kept(attributes[..i])
    {
      var attr := attributes[i];
      if attr.Key != "" && attr.Value != "" {
        attrs := attrs + [String(attr.Key, attr.Value)];
      }
      assert attributes[..i + 1] == attributes[..i] + [attr];
      KeptAppend(attributes[..i], [attr]);
    }
    assert attributes[..|attributes|] == attributes;
  }
}
