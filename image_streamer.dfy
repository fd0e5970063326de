/** The per-viewer stream session of `ImageTransportImageStreamer`.

    A session is created from an HTTP request, started once, and then driven by
    two entry points: `imageCallback`, called by the image transport for every
    frame published on the topic, and `restreamFrame`, called by a timer so that
    a viewer of a silent topic keeps receiving the last frame.

    The state of a session is the value `Session`; the functions `Created`,
    `AfterStart`, `AfterCallback` and `AfterRestream` say what each operation
    does to it, and the class `ImageTransportImageStreamer` implements the
    operations step by step on its fields, each method proved to agree with
    its function. Everything outside the session is a parameter: the topic list
    of the ROS master, the decoder, the outcome of the `initialize` and
    `sendImage` hooks, the wall clock and the time-zone dependent time of day. */
module ImageStreamer {
  import opened ImageOps
  import opened StampFormat

  /** A `ros::Time`, in nanoseconds since the epoch. */
  type Time = nat

  const NanosPerSecond: nat := 1_000_000_000

  /** The image transport keeps only the newest undelivered frame. */
  const SubscriberQueueSize: nat := 1

  datatype Option<T> = None | Some(value: T)

  /** The exceptions the two entry points catch, one per `catch` clause. */
  datatype Failure =
    | BridgeException      // cv_bridge::Exception
    | OpenCvException      // cv::Exception
    | SystemError          // boost::system::system_error: the viewer disconnected
    | StdException         // any other std::exception
    | UnknownException     // catch (...)

  datatype Result<T> = Success(value: T) | Failure(failure: Failure)

  /** What a call of an external hook (`initialize`, `sendImage`) did. */
  datatype Outcome = Done | Threw(failure: Failure)

  /** A `sensor_msgs::Image` as delivered by the transport. */
  datatype Message = Message(encoding: string, stamp: Time, data: seq<Byte>)

  /** The two decoding routes of `imageCallback`: a floating-point encoding is
      decoded as is and rescaled so that its maximum maps to 255; any other
      encoding is converted to "bgr8". */
  datatype DecodePath = FloatRescaled | ToBgr8

  /** `cv_bridge::toCvCopy` followed by the work on the decoded matrix. */
  type Decoder = (Message, DecodePath) -> Result<Image>

  /** The query parameters of the request that created the session. */
  datatype Request = Request(
    topic: Option<string>,
    width: Option<int>,
    height: Option<int>,
    invert: bool,
    defaultTransport: Option<string>,
    timestamp: bool,
    skip: Option<int>)

  /** The options read from the request, never changed afterwards. */
  datatype Options = Options(
    topic: string,
    invert: bool,
    defaultTransport: string,
    timestamp: bool,
    skip: int)

  /** The subscription made by `start`. */
  datatype Subscription = Subscription(topic: string, queueSize: nat, transport: string)

  /** The cached `output_size_image`: the pixels and the text `cv::putText`
      drew on them, if any. */
  datatype Frame = Frame(pixels: Image, caption: Option<string>)

  /** One call of `sendImage`: the frame and the stamp it was sent with. */
  datatype Send = Send(frame: Frame, stamp: Time)

  datatype Session = Session(
    options: Options,
    nFrame: nat,
    inactive: bool,
    initialized: bool,
    lastFrame: Time,
    outputWidth: int,
    outputHeight: int,
    cache: Frame,
    subscription: Option<Subscription>,
    sent: seq<Send>)

  function ValueOr<T>(o: Option<T>, default: T): T {
    match o
    case Some(v) => v
    case None => default
  }

  /** The state right after the two constructors (src/image_streamer.cpp:9-31). */
  function Created(request: Request): (s: Session)
    ensures s.options.topic == ValueOr(request.topic, "")
    ensures s.outputWidth == ValueOr(request.width, -1) && s.outputHeight == ValueOr(request.height, -1)
    ensures s.options.defaultTransport == ValueOr(request.defaultTransport, "raw")
    ensures s.options.skip == ValueOr(request.skip, 0)
    ensures s.options.invert == request.invert && s.options.timestamp == request.timestamp
    ensures s.nFrame == 0 && !s.inactive && !s.initialized
    ensures s.subscription == None && s.sent == []
  {
    Session(
      Options(ValueOr(request.topic, ""), request.invert, ValueOr(request.defaultTransport, "raw"),
              request.timestamp, ValueOr(request.skip, 0)),
      0, false, false, 0,
      ValueOr(request.width, -1), ValueOr(request.height, -1),
      Frame([], None), None, [])
  }

  // ---------------------------------------------------------------- start

  /** An advertised topic name serves the requested topic when it is the same
      string, or when it starts with '/' and the rest is the same string. */
  predicate Serves(advertised: string, topic: string) {
    advertised == topic || (|advertised| > 0 && advertised[0] == '/' && advertised[1..] == topic)
  }

  predicate Advertised(names: seq<string>, topic: string) {
    exists i :: 0 <= i < |names| && Serves(names[i], topic)
  }

  lemma ServesExactlyWithOptionalSlash(advertised: string, topic: string)
    ensures Serves(advertised, topic) <==> advertised == topic || advertised == "/" + topic
  {
    if |advertised| > 0 && advertised[0] == '/' {
      assert advertised == "/" + advertised[1..];
    }
    if advertised == "/" + topic {
      assert advertised[1..] == topic;
    }
  }

  /** `start`: the session is live iff the topic is advertised; the
      subscription is made either way. */
  function AfterStart(s: Session, names: seq<string>): (r: Session)
    ensures !r.inactive <==> Advertised(names, s.options.topic)
    ensures r.subscription == Some(Subscription(s.options.topic, SubscriberQueueSize, s.options.defaultTransport))
    ensures r.(inactive := s.inactive, subscription := s.subscription) == s
  {
    s.(inactive := !Advertised(names, s.options.topic),
       subscription := Some(Subscription(s.options.topic, SubscriberQueueSize, s.options.defaultTransport)))
  }

  // -------------------------------------------------------- imageCallback

  /** The frame-skip rule: the n-th frame goes on iff n is a multiple of
      skip + 1. For the non-negative counter the remainder of C++ (truncating)
      and of Dafny (Euclidean) agree, also for a negative divisor; skip = -1
      would divide by zero. */
  predicate Proceeds(n: nat, skip: int)
    requires skip != -1
  {
    n % (skip + 1) == 0
  }

  /** The decoding route is chosen by whether the encoding contains 'F'
      ("32FC1", "64FC1", ...). */
  function DecodePathFor(encoding: string): (p: DecodePath)
    ensures p == FloatRescaled <==> 'F' in encoding
  {
    if 'F' in encoding then FloatRescaled else ToBgr8
  }

  /** The orientation of a decoded frame: rotated by 180 degrees iff invert. */
  function Oriented(img: Image, invert: bool): (r: Image)
    ensures Rows(r) == Rows(img) && Cols(r) == Cols(img)
    ensures !invert ==> r == img
  {
    if invert then Rotate180(img) else img
  }

  /** Orienting an oriented frame again gives back the decoded frame. */
  lemma OrientedTwice(img: Image, invert: bool)
    ensures Oriented(Oriented(img, invert), invert) == img
  {
    if invert {
      Rotate180Twice(img);
    }
  }

  /** The overlay text for time t. */
  function StampText(t: Time, timeOfDay: nat -> string): string {
    StampToString(t / NanosPerSecond, t % NanosPerSecond, timeOfDay)
  }

  /** The `try` block of `imageCallback` (src/image_streamer.cpp:114-217), run
      for a frame that passed the skip rule. */
  function AfterFrame(s: Session, msg: Message, decode: Decoder, initResult: Outcome,
                      sendResult: Outcome, now: Time, timeOfDay: nat -> string): (r: Session)
    ensures r.options == s.options && r.subscription == s.subscription && r.nFrame == s.nFrame
    ensures s.inactive ==> r.inactive
    ensures s.initialized ==> r.initialized
    // a failed decode deactivates the session and changes nothing else
    ensures var img := decode(msg, DecodePathFor(msg.encoding));
      img.Failure? ==> r == s.(inactive := true)
    // a decoded frame is cached at its own size, rotated iff invert
    ensures var img := decode(msg, DecodePathFor(msg.encoding));
      img.Success? ==>
        && r.cache.pixels == Oriented(img.value, s.options.invert)
        && r.outputWidth == Cols(img.value) && r.outputHeight == Rows(img.value)
        && (if !s.initialized && initResult.Threw? then
              // initialize threw: the cache has already been replaced, nothing is sent
              r.inactive && !r.initialized && r.lastFrame == s.lastFrame && r.sent == s.sent
              && r.cache.caption == None
            else
              // the overlay shows the ingestion time; the send carries the capture stamp
              && r.initialized && r.lastFrame == now
              && r.cache.caption == (if s.options.timestamp then Some(StampText(now, timeOfDay)) else None)
              && r.sent == s.sent + [Send(r.cache, msg.stamp)]
              && (r.inactive <==> s.inactive || sendResult.Threw?))
  {
    match decode(msg, DecodePathFor(msg.encoding))
    case Failure(_) => s.(inactive := true)
    case Success(img) =>
      var cached := s.(outputWidth := Cols(img), outputHeight := Rows(img),
                       cache := Frame(Oriented(img, s.options.invert), None));
      Delivered(cached, msg, initResult, sendResult, now, timeOfDay)
  }

  /** The second half of the `try` block (src/image_streamer.cpp:164-184): the
      first frame initialises the output, then the cached frame is captioned
      if asked and sent; a hook that throws deactivates the session
      (the `catch` clauses, lines 187-217). */
  function Delivered(s: Session, msg: Message, initResult: Outcome, sendResult: Outcome,
                     now: Time, timeOfDay: nat -> string): (r: Session)
    ensures r.options == s.options && r.subscription == s.subscription && r.nFrame == s.nFrame
    ensures r.outputWidth == s.outputWidth && r.outputHeight == s.outputHeight
    // the geometry of the cached frame is left alone; only its caption may change
    ensures r.cache.pixels == s.cache.pixels
    ensures s.inactive ==> r.inactive
    ensures s.initialized ==> r.initialized
  {
    if !s.initialized && initResult.Threw? then s.(inactive := true)
    else
      var frame := if s.options.timestamp then s.cache.(caption := Some(StampText(now, timeOfDay))) else s.cache;
      var sentFrame := s.(initialized := true, lastFrame := now, cache := frame,
                          sent := s.sent + [Send(frame, msg.stamp)]);
      if sendResult.Threw? then sentFrame.(inactive := true) else sentFrame
  }

  /** `imageCallback(msg)` (src/image_streamer.cpp:101-218). */
  function AfterCallback(s: Session, msg: Message, decode: Decoder, initResult: Outcome,
                         sendResult: Outcome, now: Time, timeOfDay: nat -> string): (r: Session)
    // the remainder at line 109 is only taken by an active session
    requires !s.inactive ==> s.options.skip != -1
    // a complete no-op while inactive
    ensures s.inactive ==> r == s
    // otherwise the frame is counted first; a skipped frame changes nothing else
    ensures !s.inactive ==> r.nFrame == s.nFrame + 1
    ensures !s.inactive && !Proceeds(s.nFrame + 1, s.options.skip) ==> r == s.(nFrame := s.nFrame + 1)
    ensures !s.inactive && Proceeds(s.nFrame + 1, s.options.skip) ==>
      r == AfterFrame(s.(nFrame := s.nFrame + 1), msg, decode, initResult, sendResult, now, timeOfDay)
    // nothing revives the session, nothing forgets the initialisation
    ensures s.inactive ==> r.inactive
    ensures s.initialized ==> r.initialized
    ensures r.options == s.options && r.subscription == s.subscription
  {
    if s.inactive then s
    else
      var counted := s.(nFrame := s.nFrame + 1);
      if !Proceeds(counted.nFrame, s.options.skip) then counted
      else AfterFrame(counted, msg, decode, initResult, sendResult, now, timeOfDay)
  }

  // -------------------------------------------------------- restreamFrame

  /** The cached frame is stale when more than maxAge has passed since the
      last ingested frame (a strict comparison). */
  predicate IsStale(lastFrame: Time, maxAge: int, now: Time) {
    lastFrame + maxAge < now
  }

  /** `restreamFrame(max_age)` (src/image_streamer.cpp:57-86). */
  function AfterRestream(s: Session, maxAge: int, now: Time, sendResult: Outcome): (r: Session)
    // it sends iff the session is live, has a frame and the frame is stale
    ensures |r.sent| > |s.sent| <==> !s.inactive && s.initialized && IsStale(s.lastFrame, maxAge, now)
    // the send re-uses the cached frame, stamped with the current time
    ensures |r.sent| > |s.sent| ==> r.sent == s.sent + [Send(s.cache, now)]
    ensures |r.sent| == |s.sent| ==> r == s
    // only a failed send changes the liveness, and only to inactive
    ensures r.inactive <==> s.inactive || (|r.sent| > |s.sent| && sendResult.Threw?)
    // the time of the last ingested frame and the cache stay as they were
    ensures r.(inactive := s.inactive, sent := s.sent) == s
  {
    if s.inactive || !s.initialized then s
    else if IsStale(s.lastFrame, maxAge, now) then
      s.(sent := s.sent + [Send(s.cache, now)], inactive := sendResult.Threw?)
    else s
  }

  // -------------------------------------------------------------- the class

  class ImageTransportImageStreamer {
    const topic: string
    const invert: bool
    const defaultTransport: string
    const timestamp: bool
    const skipN: int

    var outputWidth: int
    var outputHeight: int
    var nFrame: nat
    var inactive: bool
    var initialized: bool
    var lastFrame: Time
    var outputSizeImage: Frame
    var imageSub: Option<Subscription>
    /** Every call of `sendImage`, in order. */
    var sent: seq<Send>

    function State(): Session
      reads this
    {
      Session(Options(topic, invert, defaultTransport, timestamp, skipN),
              nFrame, inactive, initialized, lastFrame, outputWidth, outputHeight,
              outputSizeImage, imageSub, sent)
    }

    constructor (request: Request)
      ensures State() == Created(request)
    {
      topic := ValueOr(request.topic, "");
      inactive := false;
      initialized := false;
      outputWidth := ValueOr(request.width, -1);
      outputHeight := ValueOr(request.height, -1);
      invert := request.invert;
      defaultTransport := ValueOr(request.defaultTransport, "raw");
      timestamp := request.timestamp;
      skipN := ValueOr(request.skip, 0);
      nFrame := 0;
      lastFrame := 0;
      outputSizeImage := Frame([], None);
      imageSub := None;
      sent := [];
    }

    /** `start()`, given the topics the ROS master advertises. */
    method Start(availableTopics: seq<string>)
      modifies this
      ensures State() == AfterStart(old(State()), availableTopics)
      ensures !inactive <==> Advertised(availableTopics, topic)
    {
      inactive := true;
      var i := 0;
      while i < |availableTopics|
        invariant 0 <= i <= |availableTopics|
        invariant !inactive <==> Advertised(availableTopics[..i], topic)
        invariant State() == old(State()).(inactive := inactive)
      {
        var name := availableTopics[i];
        if name == topic || (|name| > 0 && name[0] == '/' && name[1..] == topic) {
          inactive := false;
        }
        assert availableTopics[..i + 1][i] == name;
        assert forall j :: 0 <= j < i ==> availableTopics[..i + 1][j] == availableTopics[..i][j];
        i := i + 1;
      }
      assert availableTopics[..i] == availableTopics;
      imageSub := Some(Subscription(topic, SubscriberQueueSize, defaultTransport));
    }

    /** `restreamFrame(max_age)`; `now` is the wall clock, `sendResult` what
        `sendImage` does if it is called. */
    method RestreamFrame(maxAge: int, now: Time, sendResult: Outcome)
      modifies this
      ensures State() == AfterRestream(old(State()), maxAge, now, sendResult)
    {
      if inactive || !initialized {
        return;
      }
      if lastFrame + maxAge < now {
        sent := sent + [Send(outputSizeImage, now)];
        if sendResult.Threw? {
          inactive := true;
          return;
        }
      }
    }

    /** `imageCallback(msg)`; `decode` stands for cv_bridge and OpenCV,
        `initResult` and `sendResult` for what the two hooks do if called. */
    method ImageCallback(msg: Message, decode: Decoder, initResult: Outcome, sendResult: Outcome,
                         now: Time, timeOfDay: nat -> string)
      requires !inactive ==> skipN != -1
      modifies this
      ensures State() == AfterCallback(old(State()), msg, decode, initResult, sendResult, now, timeOfDay)
    {
      if inactive {
        return;
      }
      nFrame := nFrame + 1;
      // only every (skip + 1)-th frame goes on
      if !Proceeds(nFrame, skipN) {
        return;
      }
      ProcessFrame(msg, decode, initResult, sendResult, now, timeOfDay);
    }

    /** The `try` block of `imageCallback`: decode, orient, cache, send; any
        exception deactivates the session. */
    method ProcessFrame(msg: Message, decode: Decoder, initResult: Outcome, sendResult: Outcome,
                        now: Time, timeOfDay: nat -> string)
      modifies this
      ensures State() == AfterFrame(old(State()), msg, decode, initResult, sendResult, now, timeOfDay)
    {
      var decoded := decode(msg, DecodePathFor(msg.encoding));
      if decoded.Failure? {
        inactive := true;
        return;
      }
      CacheDecoded(decoded.value);
      Deliver(msg, initResult, sendResult, now, timeOfDay);
    }

    /** Lines 137-162 of `imageCallback`: the output size becomes the input
        size, the frame is rotated if asked and copied into the cache, and the
        resize branch is unreachable. */
    method CacheDecoded(decoded: Image)
      modifies this
      ensures State() == old(State()).(outputWidth := Cols(decoded), outputHeight := Rows(decoded),
                                       cache := Frame(Oriented(decoded, invert), None))
    {
      var img := decoded;
      var inputWidth, inputHeight := Cols(img), Rows(img);
      outputWidth := inputWidth;
      outputHeight := inputHeight;
      if invert {
        img := Rotate180(img);
      }
      if outputWidth != inputWidth || outputHeight != inputHeight {
        // the output size was set to the input size just above: no resize
        assert false;
      } else {
        outputSizeImage := Frame(img, None);
      }
    }

    /** Lines 164-184 of `imageCallback`: initialise on the first frame, take
        the time, caption the cached frame if asked, send it. */
    method Deliver(msg: Message, initResult: Outcome, sendResult: Outcome, now: Time, timeOfDay: nat -> string)
      modifies this
      ensures State() == Delivered(old(State()), msg, initResult, sendResult, now, timeOfDay)
    {
      ghost var s0 := State();
      if !initialized {
        if initResult.Threw? {
          inactive := true;
          return;
        }
        initialized := true;
      }
      lastFrame := now;
      if timestamp {
        outputSizeImage := outputSizeImage.(caption := Some(StampText(lastFrame, timeOfDay)));
      }
      ghost var frame := if timestamp then s0.cache.(caption := Some(StampText(now, timeOfDay))) else s0.cache;
      assert State() == s0.(initialized := true, lastFrame := now, cache := frame);
      sent := sent + [Send(outputSizeImage, msg.stamp)];
      if sendResult.Threw? {
        inactive := true;
      }
    }
  }
}
