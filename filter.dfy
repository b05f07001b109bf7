/** The duration-bounded span processor (filter/duration_filter.go): a link
    in a span-processing chain that passes start, shutdown and flush straight
    to the next processor and forwards a finished span only when its lifetime
    lies within the configured band. */
module Filter {

  /** A request context, known to the model only by its identity. */
  datatype Context = Context(id: nat)

  /** The part of a span the filter can see: an identity (standing for every
      field the filter never reads) and the start and end timestamps the
      runtime recorded, in nanoseconds. */
  datatype Span = Span(id: nat, startTime: int, endTime: int)

  /** What a processor's shutdown or flush reports: nil or an error. */
  datatype Status = Ok | Failed(reason: string)

  /** One call received by a processor. */
  datatype Event =
    | Started(parent: Context, span: Span)
    | Ended(span: Span)
    | ShutDown(ctx: Context)
    | Flushed(ctx: Context)

  /** The span's lifetime: end time minus start time, in nanoseconds. */
  function Lifetime(s: Span): (d: int) {
    s.endTime - s.startTime
  }

  /** The drop rule of OnEnd: a positive minimum drops spans shorter than it,
      a positive maximum drops spans longer than it; a bound of zero or less
      is switched off. */
  predicate Admit(min: int, max: int, s: Span) {
    !(min > 0 && Lifetime(s) < min) && !(max > 0 && Lifetime(s) > max)
  }

  /** The rule admits exactly the lifetimes in the closed band
      [min, max], each side present only when its bound is positive. */
  lemma AdmitIffInBand(min: int, max: int, s: Span)
    ensures Admit(min, max, s) <==>
      (min <= 0 || min <= Lifetime(s)) && (max <= 0 || Lifetime(s) <= max)
  {
  }

  /** A span shorter than a positive minimum is dropped. */
  lemma ShortSpanDropped(min: int, max: int, s: Span)
    requires min > 0 && Lifetime(s) < min
    ensures !Admit(min, max, s)
  {
  }

  /** A span longer than a positive maximum is dropped. */
  lemma LongSpanDropped(min: int, max: int, s: Span)
    requires max > 0 && Lifetime(s) > max
    ensures !Admit(min, max, s)
  {
  }

  /** Both bounds are inclusive: a lifetime equal to a positive minimum or
      to a positive maximum is admitted whenever the other bound admits it,
      and one nanosecond past either positive bound is not. */
  lemma BoundsInclusive(min: int, max: int, s: Span)
    ensures min > 0 && Lifetime(s) == min && (max <= 0 || min <= max) ==> Admit(min, max, s)
    ensures max > 0 && Lifetime(s) == max && (min <= 0 || min <= max) ==> Admit(min, max, s)
    ensures min > 0 && Lifetime(s) == min - 1 ==> !Admit(min, max, s)
    ensures max > 0 && Lifetime(s) == max + 1 ==> !Admit(min, max, s)
  {
  }

  /** With both bounds zero every span is admitted, zero-length spans and
      spans whose end precedes their start included. */
  lemma ZeroBoundsAdmitAll(s: Span)
    ensures Admit(0, 0, s)
  {
  }

  /** A zero bound switches its side off: only the other bound decides. */
  lemma ZeroBoundDisablesSide(min: int, max: int, s: Span)
    ensures Admit(0, max, s) <==> (max <= 0 || Lifetime(s) <= max)
    ensures Admit(min, 0, s) <==> (min <= 0 || min <= Lifetime(s))
  {
  }

  /** A band whose positive minimum exceeds its positive maximum admits
      nothing. */
  lemma InvertedBandDropsAll(min: int, max: int, s: Span)
    requires min > max > 0
    ensures !Admit(min, max, s)
  {
  }

  /** A downstream processor that records, in order, every call it receives
      and reports fixed statuses for shutdown and flush. */
  class Recorder {
    var events: seq<Event>
    const shutdownStatus: Status
    const flushStatus: Status

    constructor (shutdownStatus: Status, flushStatus: Status)
      ensures events == []
      ensures this.shutdownStatus == shutdownStatus && this.flushStatus == flushStatus
    {
      events := [];
      this.shutdownStatus := shutdownStatus;
      this.flushStatus := flushStatus;
    }

    method OnStart(parent: Context, s: Span)
      modifies this
      ensures events == old(events) + [Started(parent, s)]
    {
      events := events + [Started(parent, s)];
    }

    method OnEnd(s: Span)
      modifies this
      ensures events == old(events) + [Ended(s)]
    {
      events := events + [Ended(s)];
    }

    method Shutdown(ctx: Context) returns (err: Status)
      modifies this
      ensures events == old(events) + [ShutDown(ctx)]
      ensures err == shutdownStatus
    {
      events := events + [ShutDown(ctx)];
      err := shutdownStatus;
    }

    method ForceFlush(ctx: Context) returns (err: Status)
      modifies this
      ensures events == old(events) + [Flushed(ctx)]
      ensures err == flushStatus
    {
      events := events + [Flushed(ctx)];
      err := flushStatus;
    }
  }

  /** The filter: an immutable pair of bounds (nanoseconds) and the next
      processor. It keeps no state of its own, so it never remembers a span. */
  class DurationFilter {
    const Next: Recorder
    const Min: int
    const Max: int

    constructor (next: Recorder, min: int, max: int)
      ensures Next == next && Min == min && Max == max
    {
      Next := next;
      Min := min;
      Max := max;
    }

    /** Passes the start on unchanged, whatever the bounds. */
    method OnStart(parent: Context, s: Span)
      modifies Next
      ensures Next.events == old(Next.events) + [Started(parent, s)]
    {
      Next.OnStart(parent, s);
    }

    /** Delegates shutdown once and reports the next processor's status. */
    method Shutdown(ctx: Context) returns (err: Status)
      modifies Next
      ensures Next.events == old(Next.events) + [ShutDown(ctx)]
      ensures err == Next.shutdownStatus
    {
      err := Next.Shutdown(ctx);
    }

    /** Delegates a flush once and reports the next processor's status. */
    method ForceFlush(ctx: Context) returns (err: Status)
      modifies Next
      ensures Next.events == old(Next.events) + [Flushed(ctx)]
      ensures err == Next.flushStatus
    {
      err := Next.ForceFlush(ctx);
    }

    /** Forwards the span, unmodified and once, exactly when its lifetime is
      in the band; otherwise the next processor receives nothing. */
    method OnEnd(s: Span)
      modifies Next
      ensures Admit(Min, Max, s) ==> Next.events == old(Next.events) + [Ended(s)]
      ensures !Admit(Min, Max, s) ==> Next.events == old(Next.events)
    {
      if Min > 0 && s.endTime - s.startTime < Min {
        // too short
        return;
      }
      if Max > 0 && s.endTime - s.startTime > Max {
        // too long
        return;
      }
      Next.OnEnd(s);
    }
  }

  /** What the next processor receives when the runtime ends the given spans
      one after another: the admitted ones, in order. */
  function Forwarded(min: int, max: int, spans: seq<Span>): (r: seq<Event>) {
    if spans == [] then []
    else (if Admit(min, max, spans[0]) then [Ended(spans[0])] else []) + Forwarded(min, max, spans[1..])
  }

  /** Over a run of ends, an event reaches the next processor exactly when it
      ends an admitted span of the run; an admitted span's end is delivered
      exactly as often as the span was ended, a dropped span's never; and no
      more events are delivered than spans were ended. */
  lemma {:induction false} ForwardedExactly(min: int, max: int, spans: seq<Span>, e: Event, s: Span)
    ensures e in Forwarded(min, max, spans) <==> e.Ended? && e.span in spans && Admit(min, max, e.span)
    ensures multiset(Forwarded(min, max, spans))[Ended(s)] ==
      (if Admit(min, max, s) then multiset(spans)[s] else 0)
    ensures |Forwarded(min, max, spans)| <= |spans|
  {
    if spans != [] {
      ForwardedExactly(min, max, spans[1..], e, s);
      assert spans == [spans[0]] + spans[1..];
    }
  }

  /** Ending one more span extends the forwarded run by exactly the events
      that OnEnd's contract delivers for that span: the per-call step that
      links Forwarded to successive OnEnd calls. */
  lemma {:induction false} ForwardedSnoc(min: int, max: int, spans: seq<Span>, s: Span)
    ensures Forwarded(min, max, spans + [s]) ==
      Forwarded(min, max, spans) + (if Admit(min, max, s) then [Ended(s)] else [])
  {
    if spans != [] {
      assert (spans + [s])[1..] == spans[1..] + [s];
      ForwardedSnoc(min, max, spans[1..], s);
    } else {
      assert spans + [s] == [s];
    }
  }
}
