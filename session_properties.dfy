/** What a session does over a sequence of calls of its two entry points. */
module SessionProperties {
  import opened ImageOps
  import opened ImageStreamer

  /** One call into a started session: a frame from the transport, or a tick
      of the watchdog timer. Each carries what the clock and the hooks do. */
  datatype Event =
    | ImageArrived(msg: Message, initResult: Outcome, sendResult: Outcome, now: Time)
    | WatchdogFired(maxAge: int, now: Time, sendResult: Outcome)

  function Step(s: Session, e: Event, decode: Decoder, timeOfDay: nat -> string): (r: Session)
    requires s.inactive || s.options.skip != -1 || e.WatchdogFired?
    ensures r.options == s.options
    ensures s.inactive ==> r.inactive
  {
    match e
    case ImageArrived(msg, initResult, sendResult, now) =>
      AfterCallback(s, msg, decode, initResult, sendResult, now, timeOfDay)
    case WatchdogFired(maxAge, now, sendResult) =>
      AfterRestream(s, maxAge, now, sendResult)
  }

  /** Only an active session with skip = -1 takes a remainder by zero, on its
      first frame; a run of watchdog ticks alone never divides. */
  predicate CanRun(s: Session, events: seq<Event>) {
    s.inactive || s.options.skip != -1 || forall i :: 0 <= i < |events| ==> events[i].WatchdogFired?
  }

  /** The session after the events, in order. */
  function Run(s: Session, events: seq<Event>, decode: Decoder, timeOfDay: nat -> string): (r: Session)
    requires CanRun(s, events)
    ensures r.options == s.options
    decreases |events|
  {
    if events == [] then s
    else
      assert forall i :: 0 <= i < |events| - 1 ==> events[1..][i] == events[i + 1];
      Run(Step(s, events[0], decode, timeOfDay), events[1..], decode, timeOfDay)
  }

  // ------------------------------------------------------- liveness

  /** Inactive is final: once inactive, frames and watchdog ticks change nothing
      and write nothing. */
  lemma {:induction false} InactiveIsFinal(s: Session, events: seq<Event>, decode: Decoder,
                                           timeOfDay: nat -> string)
    requires s.inactive
    ensures Run(s, events, decode, timeOfDay) == s
    decreases |events|
  {
    if events != [] {
      InactiveIsFinal(Step(s, events[0], decode, timeOfDay), events[1..], decode, timeOfDay);
    }
  }

  /** A session whose topic is not advertised at start never writes a frame. */
  lemma AbsentTopicNeverWrites(request: Request, names: seq<string>, events: seq<Event>,
                               decode: Decoder, timeOfDay: nat -> string)
    requires !Advertised(names, ValueOr(request.topic, ""))
    ensures var s := AfterStart(Created(request), names);
      s.inactive && Run(s, events, decode, timeOfDay) == s && s.sent == []
  {
    InactiveIsFinal(AfterStart(Created(request), names), events, decode, timeOfDay);
  }

  /** A failed write (the viewer went away) deactivates the session, and no
      write is attempted after it. */
  lemma FailedWriteIsLastWrite(s: Session, e: Event, rest: seq<Event>, decode: Decoder,
                               timeOfDay: nat -> string)
    requires s.inactive || s.options.skip != -1
    requires |Step(s, e, decode, timeOfDay).sent| > |s.sent| && e.sendResult.Threw?
    ensures Step(s, e, decode, timeOfDay).inactive
    ensures Run(s, [e] + rest, decode, timeOfDay).sent == Step(s, e, decode, timeOfDay).sent
  {
    var s1 := Step(s, e, decode, timeOfDay);
    assert ([e] + rest)[1..] == rest;
    InactiveIsFinal(s1, rest, decode, timeOfDay);
  }

  /** Once a frame has been ingested the session stays initialised. */
  lemma {:induction false} InitializedIsKept(s: Session, events: seq<Event>, decode: Decoder,
                                             timeOfDay: nat -> string)
    requires CanRun(s, events) && s.initialized
    ensures Run(s, events, decode, timeOfDay).initialized
    decreases |events|
  {
    if events != [] {
      InitializedIsKept(Step(s, events[0], decode, timeOfDay), events[1..], decode, timeOfDay);
    }
  }

  /** The cache always has the output size once initialised: the output size
      is overwritten with the size of every decoded frame, so nothing is ever
      resized to a requested width or height. */
  predicate OutputSizeIsCacheSize(s: Session) {
    s.initialized ==> s.outputWidth == Cols(s.cache.pixels) && s.outputHeight == Rows(s.cache.pixels)
  }

  lemma {:induction false} OutputSizeIsCacheSizeKept(s: Session, events: seq<Event>, decode: Decoder,
                                                     timeOfDay: nat -> string)
    requires CanRun(s, events) && OutputSizeIsCacheSize(s)
    ensures OutputSizeIsCacheSize(Run(s, events, decode, timeOfDay))
    decreases |events|
  {
    if events != [] {
      var s1 := Step(s, events[0], decode, timeOfDay);
      assert OutputSizeIsCacheSize(s1);
      OutputSizeIsCacheSizeKept(s1, events[1..], decode, timeOfDay);
    }
  }

  // ------------------------------------------------------- frame skip

  /** How many of the frame numbers from + 1 .. from + k pass the skip rule. */
  function ProceedCount(from: nat, k: nat, skip: int): nat
    requires skip != -1
    decreases k
  {
    if k == 0 then 0
    else (if Proceeds(from + 1, skip) then 1 else 0) + ProceedCount(from + 1, k - 1, skip)
  }

  lemma MulAtLeast(d: int, k: int)
    requires d >= 1 && k >= 1
    ensures d * k >= d
  {
  }

  lemma DivUnique(n: int, d: int, q: int, r: int)
    requires d >= 1 && 0 <= r < d && n == d * q + r
    ensures n / d == q && n % d == r
  {
    var q', r' := n / d, n % d;
    var k := q - q';
    assert d * q == d * q' + d * k;
    if k >= 1 {
      MulAtLeast(d, k);
    } else if k <= -1 {
      MulAtLeast(d, -k);
    }
  }

  lemma QuotientStep(c: nat, d: nat)
    requires d >= 1
    ensures (c + 1) / d == c / d + (if (c + 1) % d == 0 then 1 else 0)
  {
    var q, r := c / d, c % d;
    if r + 1 == d {
      assert c + 1 == d * (q + 1) + 0;
      DivUnique(c + 1, d, q + 1, 0);
    } else {
      DivUnique(c + 1, d, q, r + 1);
    }
  }

  /** Of the frame numbers from + 1 .. from + k, exactly the multiples of
      skip + 1 pass. */
  lemma {:induction false} ProceedCountIsQuotient(from: nat, k: nat, skip: int)
    requires skip >= 0
    ensures ProceedCount(from, k, skip) == (from + k) / (skip + 1) - from / (skip + 1)
    decreases k
  {
    if k > 0 {
      ProceedCountIsQuotient(from + 1, k - 1, skip);
      QuotientStep(from, skip + 1);
    }
  }

  /** Every event is a frame that decodes, and both hooks succeed. */
  predicate AllFramesGoThrough(events: seq<Event>, decode: Decoder) {
    forall i :: 0 <= i < |events| ==>
      && events[i].ImageArrived?
      && decode(events[i].msg, DecodePathFor(events[i].msg.encoding)).Success?
      && events[i].initResult == Done && events[i].sendResult == Done
  }

  /** The stamps the sends went out with, in order. */
  function SentStamps(sends: seq<Send>): (r: seq<Time>)
    ensures |r| == |sends|
    ensures forall i :: 0 <= i < |sends| ==> r[i] == sends[i].stamp
  {
    seq(|sends|, i requires 0 <= i < |sends| => sends[i].stamp)
  }

  /** The capture stamps of those frames, numbered from + 1 on, that pass the
      skip rule, in order. */
  function PassingStamps(from: nat, events: seq<Event>, skip: int): (r: seq<Time>)
    requires skip != -1
    requires forall i :: 0 <= i < |events| ==> events[i].ImageArrived?
    ensures |r| == ProceedCount(from, |events|, skip)
    decreases |events|
  {
    if events == [] then []
    else
      assert forall i :: 0 <= i < |events| - 1 ==> events[1..][i] == events[i + 1];
      (if Proceeds(from + 1, skip) then [events[0].msg.stamp] else [])
        + PassingStamps(from + 1, events[1..], skip)
  }

  /** While nothing fails, every frame advances the counter and exactly the
      frames that pass the skip rule are sent, each with its capture stamp. */
  lemma {:induction false} SkipRuleDecidesSends(s: Session, events: seq<Event>, decode: Decoder,
                                                timeOfDay: nat -> string)
    requires s.options.skip != -1 && !s.inactive
    requires AllFramesGoThrough(events, decode)
    ensures var r := Run(s, events, decode, timeOfDay);
      && !r.inactive
      && r.nFrame == s.nFrame + |events|
      && |r.sent| == |s.sent| + ProceedCount(s.nFrame, |events|, s.options.skip)
      && SentStamps(r.sent) == SentStamps(s.sent) + PassingStamps(s.nFrame, events, s.options.skip)
    decreases |events|
  {
    if events != [] {
      var e := events[0];
      var s1 := Step(s, e, decode, timeOfDay);
      assert AllFramesGoThrough(events[1..], decode) by {
        forall i | 0 <= i < |events| - 1
          ensures events[1..][i] == events[i + 1]
        {
        }
      }
      FrameGoesThrough(s, e, decode, timeOfDay);
      SkipRuleDecidesSends(s1, events[1..], decode, timeOfDay);
      var first := if Proceeds(s.nFrame + 1, s.options.skip) then [e.msg.stamp] else [];
      assert PassingStamps(s.nFrame, events, s.options.skip)
          == first + PassingStamps(s1.nFrame, events[1..], s.options.skip);
    }
  }

  /** One frame that decodes, with both hooks succeeding: the counter advances,
      the session stays active, and it is sent with its capture stamp iff its
      number passes the skip rule. */
  lemma FrameGoesThrough(s: Session, e: Event, decode: Decoder, timeOfDay: nat -> string)
    requires s.options.skip != -1 && !s.inactive
    requires AllFramesGoThrough([e], decode)
    ensures var r := Step(s, e, decode, timeOfDay);
      && !r.inactive && r.nFrame == s.nFrame + 1
      && SentStamps(r.sent)
         == SentStamps(s.sent) + (if Proceeds(s.nFrame + 1, s.options.skip) then [e.msg.stamp] else [])
  {
    assert [e][0] == e;
    var r := Step(s, e, decode, timeOfDay);
    if Proceeds(s.nFrame + 1, s.options.skip) {
      assert r.sent == s.sent + [Send(r.cache, e.msg.stamp)];
    } else {
      assert r.sent == s.sent;
    }
  }

  /** Over N frames of a fresh, started session exactly N / (skip + 1) are
      sent; with skip 0 every frame is. */
  lemma FramesSentFromFreshSession(request: Request, names: seq<string>, events: seq<Event>,
                                   decode: Decoder, timeOfDay: nat -> string)
    requires ValueOr(request.skip, 0) >= 0
    requires Advertised(names, ValueOr(request.topic, ""))
    requires AllFramesGoThrough(events, decode)
    ensures var skip := ValueOr(request.skip, 0);
      var r := Run(AfterStart(Created(request), names), events, decode, timeOfDay);
      |r.sent| == |events| / (skip + 1) && (skip == 0 ==> |r.sent| == |events|)
  {
    var s := AfterStart(Created(request), names);
    SkipRuleDecidesSends(s, events, decode, timeOfDay);
    ProceedCountIsQuotient(0, |events|, s.options.skip);
  }

  // ------------------------------------------------------- watchdog

  /** The frames the watchdog sends for the ticks: the cached frame, stamped
      with each tick's time. */
  function Resends(cache: Frame, ticks: seq<Event>): (r: seq<Send>)
    requires forall i :: 0 <= i < |ticks| ==> ticks[i].WatchdogFired?
    ensures |r| == |ticks|
  {
    seq(|ticks|, i requires 0 <= i < |ticks| => Send(cache, ticks[i].now))
  }

  /** Every tick finds the frame stale and every write succeeds. */
  predicate SourceSilent(lastFrame: Time, ticks: seq<Event>) {
    forall i :: 0 <= i < |ticks| ==>
      && ticks[i].WatchdogFired?
      && IsStale(lastFrame, ticks[i].maxAge, ticks[i].now)
      && ticks[i].sendResult == Done
  }

  /** While the source is silent the watchdog re-sends the same cached frame
      on every tick, each time with the tick's time, because the time of the
      last ingested frame is never advanced by a re-send. */
  lemma {:induction false} SilentSourceKeepsResending(s: Session, ticks: seq<Event>, decode: Decoder,
                                                      timeOfDay: nat -> string)
    requires !s.inactive && s.initialized
    requires SourceSilent(s.lastFrame, ticks)
    ensures var r := Run(s, ticks, decode, timeOfDay);
      && r.sent == s.sent + Resends(s.cache, ticks)
      && r.lastFrame == s.lastFrame && r.cache == s.cache && !r.inactive
    decreases |ticks|
  {
    if ticks != [] {
      var s1 := Step(s, ticks[0], decode, timeOfDay);
      assert s1 == s.(sent := s.sent + [Send(s.cache, ticks[0].now)]);
      assert SourceSilent(s.lastFrame, ticks[1..]) by {
        forall i | 0 <= i < |ticks| - 1
          ensures ticks[1..][i] == ticks[i + 1]
        {
        }
      }
      SilentSourceKeepsResending(s1, ticks[1..], decode, timeOfDay);
      assert s.sent + Resends(s.cache, ticks)
          == s1.sent + Resends(s.cache, ticks[1..]);
    }
  }
}
