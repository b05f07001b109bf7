# tracing-go core in Dafny

This project models the core of `tracing`, a small Go facade over the
OpenTelemetry SDK. It has three modules, one per core file:

- `Filter` (`filter.dfy`) models `filter/duration_filter.go`. `DurationFilter`
  is a span processor placed in front of a downstream processor `Next`.
  `OnStart`, `Shutdown` and `ForceFlush` pass straight through to `Next`.
  `OnEnd` measures the span's lifetime (end time minus start time) and drops
  the span when a positive `Min` is not reached or a positive `Max` is
  exceeded. Otherwise it forwards the span to `Next.OnEnd`. The downstream
  processor is modelled by `Recorder`, a class that appends every call it
  receives to a `seq<Event>`. It reports fixed statuses for shutdown and
  flush. The contracts therefore say exactly which calls reach the downstream
  processor and that nothing else does. The drop rule is the predicate
  `Admit`. `Forwarded` is the run of end events delivered for a sequence
  of ended spans. `ForwardedSnoc` is the one-step equation of that run.
  Together with `OnEnd`'s contract, it shows that successive `OnEnd` calls
  deliver exactly `Forwarded` to the downstream processor.
- `TracingOptions` (`options.dfy`) models `options.go`. The `options` record
  is the class `Options`. Each `With*` constructor returns an `Option` value
  that stands for the setter closure it builds. `Options.Apply` runs that
  setter on the record in place. The pure function `Applied` specifies what
  each setter does to an `OptionsRecord` snapshot. The pairing loop of
  `WithAttributes` is the method `PairAttributes`. Its specification is the
  function `Paired`.
- `Tracing` (`tracing.dfy`) models `KeyValue` and `String` from `tracing.go`.
  It also models the loop of `InitOtlpTracerProvider` that assembles the
  resource attributes, as the method `ResourceAttributes`. That list is the
  `service.name` and `service.version` entries followed by every caller
  attribute whose key and value are both non-empty (`Kept`).

The comment at `tracing.go:94-95` describes the filter as keeping spans
"longer than a second". The filter is installed with `Min` set to 10 ms
(`tracing.go:98`). The model follows the filter's code: the bounds are
whatever the filter is constructed with.

The filter's code also decides spans whose end time precedes their start
time (a negative lifetime). Such a span is below any positive `Min`, so
`filter/duration_filter.go:26` drops it whenever `Min > 0`. It passes only
when `Min` is zero or negative. The model follows the code here and does
not let every negative lifetime pass through.

## Model

| member | source | states |
|---|---|---|
| `Filter.DurationFilter.constructor` | filter/duration_filter.go:10-18 | the filter holds exactly the given next processor and bounds, and no other state |
| `Filter.DurationFilter.OnStart` | filter/duration_filter.go:20-22 | whatever the bounds, the next processor receives exactly one start event, with the same parent and span, and nothing else |
| `Filter.DurationFilter.Shutdown` | filter/duration_filter.go:23 | the next processor receives exactly one shutdown call with the same context, and the status it reports is returned unchanged |
| `Filter.DurationFilter.ForceFlush` | filter/duration_filter.go:24 | the next processor receives exactly one flush call with the same context, and the status it reports is returned unchanged |
| `Filter.DurationFilter.OnEnd` | filter/duration_filter.go:25-35 | an admitted span reaches the next processor once and unmodified; for any other span the next processor receives nothing |
| `Filter.Lifetime` | filter/duration_filter.go:26 | the span's lifetime `EndTime().Sub(StartTime())`: end time minus start time, in nanoseconds, with no saturation |
| `Filter.Admit` | filter/duration_filter.go:26-33 | true if and only if neither the Min test at line 26 nor the Max test at line 30 drops the span |
| `Filter.AdmitIffInBand` | filter/duration_filter.go:26-33 | a span is admitted if and only if its lifetime lies in the closed band [Min, Max], where a bound that is not positive removes that side |
| `Filter.ShortSpanDropped` | filter/duration_filter.go:26-29 | with a positive Min, a span shorter than Min is dropped whatever Max is |
| `Filter.LongSpanDropped` | filter/duration_filter.go:30-33 | with a positive Max, a span longer than Max is dropped whatever Min is |
| `Filter.BoundsInclusive` | filter/duration_filter.go:26-33 | a lifetime equal to a positive Min is admitted when Max is not positive or Min ≤ Max; a lifetime equal to a positive Max is admitted when Min is not positive or Min ≤ Max (the comparisons are strict); a positive Min - 1 and a positive Max + 1 are dropped |
| `Filter.ZeroBoundsAdmitAll` | filter/duration_filter.go:26-34 | with Min = Max = 0 every span is admitted, including zero-length spans |
| `Filter.ZeroBoundDisablesSide` | filter/duration_filter.go:26-34 | a zero Min leaves only the Max test, and a zero Max leaves only the Min test |
| `Filter.InvertedBandDropsAll` | filter/duration_filter.go:26-33 | when Min > Max > 0, every span is dropped |
| `Filter.ForwardedSnoc` | filter/duration_filter.go:25-35 | one more OnEnd call extends the delivered run by exactly that span's event if it is admitted, and by nothing otherwise |
| `Filter.ForwardedExactly` | filter/duration_filter.go:25-35 | over a run of ended spans, an event reaches the next processor if and only if it ends an admitted span of the run; each admitted span's end event is delivered exactly as many times as that span was ended, a dropped span's never, so no end is forwarded twice; the run has at most as many events as spans ended |
| `TracingOptions.WithOtelGrpcEndpoint` | options.go:27-31 | the option whose setter writes the given endpoint |
| `TracingOptions.WithSerivceName` | options.go:33-37 | the option whose setter writes the given service name |
| `TracingOptions.WithServiceVersion` | options.go:39-43 | the option whose setter writes the given service version |
| `TracingOptions.WithDeploymentEnvironment` | options.go:45-49 | the option whose setter writes the given deployment environment |
| `TracingOptions.WithAttributes` | options.go:51-67 | the option whose setter pairs the given flat string list into attributes |
| `TracingOptions.WithErrorHandler` | options.go:69-73 | the option whose setter installs the given error handler |
| `TracingOptions.WithStdoutTrace` | options.go:75-79 | the option whose setter switches stdout tracing on |
| `TracingOptions.Applied` | options.go:23-79 | the record after a setter runs: the one field the option names is written; for attributes, the record is unchanged on fewer than two or an odd number of strings, and otherwise its attributes become `Paired` |
| `TracingOptions.Paired` | options.go:59-64 | the flat list read as key, value, key, value, ..., one pair per two strings in input order; a trailing unpaired string is ignored |
| `TracingOptions.Options.constructor` | options.go:7-15 | a fresh record has every field at its zero value |
| `TracingOptions.Options.Apply` | options.go:23-25 | applying an option updates the record in place to exactly what its setter prescribes (`Applied`) |
| `TracingOptions.PairAttributes` | options.go:59-64 | the loop yields exactly len/2 pairs, with pair k = (attrs[2k], attrs[2k+1]) in input order, and agrees with `Paired` |
| `TracingOptions.PairedAt` | options.go:59-64 | the flat list's pairing has len/2 entries, with entry k = (attrs[2k], attrs[2k+1]), so no entry is dropped or filtered |
| `TracingOptions.EndpointSetsOnlyEndpoint` | options.go:27-31 | WithOtelGrpcEndpoint sets otelGrpcEndpoint and leaves every other field unchanged |
| `TracingOptions.ServiceSettersSetOnlyTheirField` | options.go:33-49 | WithSerivceName, WithServiceVersion and WithDeploymentEnvironment each set exactly their own field |
| `TracingOptions.ErrorHandlerSetsOnlyHandler` | options.go:69-73 | WithErrorHandler sets errorHandler and nothing else |
| `TracingOptions.StdoutTraceSetsOnlyFlag` | options.go:75-79 | WithStdoutTrace sets stdoutTrace to true and nothing else; applying it twice equals applying it once |
| `TracingOptions.AttributesTooShortIgnored` | options.go:53-55 | WithAttributes with fewer than two strings leaves the whole record, existing attributes included, unchanged |
| `TracingOptions.AttributesOddIgnored` | options.go:56-58 | WithAttributes with an odd number of strings leaves the whole record unchanged |
| `TracingOptions.AttributesReplacedByPairs` | options.go:59-65 | an even list of at least two strings replaces the attributes, whatever they were, by exactly its len/2 pairs in order; empty keys and values are kept and no other field changes |
| `TracingOptions.AppliedIdempotent` | options.go:27-79 | every option writes a value that does not depend on the record, so applying it twice equals applying it once |
| `Tracing.String` | tracing.go:33-38 | the pair carries exactly the given key and value |
| `Tracing.Keep` | tracing.go:76 | a caller attribute is kept if and only if its key and its value are both non-empty |
| `Tracing.Kept` | tracing.go:75-78 | the caller attributes that are kept are at most as many as those given; each kept one is one given, with a non-empty key and value |
| `Tracing.KeptComplete` | tracing.go:75-78 | every caller attribute with a non-empty key and value is kept |
| `Tracing.KeptAppend` | tracing.go:75-79 | filtering distributes over concatenation, so kept attributes keep their input order |
| `Tracing.KeptAllIff` | tracing.go:75-78 | the caller list passes unchanged if and only if every entry has a non-empty key and value |
| `Tracing.ResourceAttributes` | tracing.go:71-79 | the list is the service-name entry, then the service-version entry (even when empty), then the kept caller attributes in order; its length is 2 + the number kept, which is at most 2 + the number given |

## Left out

- Timestamps and durations are unbounded integers of nanoseconds. The model does not capture the difference between wall-clock and monotonic readings, the int64 width of `time.Duration`, or how `time.Time.Sub` saturates on overflow.
- The downstream processor is modelled by `Recorder` only. The SDK's batching span processor and its exporter are not part of this model. The same goes for the SDK's `ReadWriteSpan`/`ReadOnlySpan` beyond an identity and two timestamps.
- Concurrent calls of the processor hooks are left out: thread safety belongs to the SDK's processors. The "active" and "shut down" phases after `Shutdown` are left out too: the filter code keeps no such state.
- The error callback that `WithErrorHandler` installs is a Go function value. Here it is an identity (`Handler`) and is never called.
- The `service.name` and `service.version` keys are the OpenTelemetry semantic-convention constants. The SDK's `attribute.KeyValue` and the facade's `KeyValue` are both modelled by `Tracing.KeyValue`.
- The rest of `InitOtlpTracerProvider` and all of `InitStdoutTracerProvider` (tracing.go:53-70, 80-133) are left out. They create the gRPC exporter, the resource, the batch processor and the provider, and register global OpenTelemetry state. That is network I/O and SDK calls.
- `SpanStart`, `TraceID`, `SpanID`, `Span`, `CtxWithSpan`, `NewSpanFromB3` and `TracerProviderShutdown` (tracing.go:135-186) are left out. They are thin wrappers over the SDK and its B3 propagator.
- `otelErrorHandler.Handle` (tracing.go:44-46) is left out: it only logs.
- `without_cancel.go` is not part of this model. It strips cancellation from a Go context, which is concurrency signalling.
- The demo command `cmd/tracingman/main.go` is not part of this model.
