# Stream session of web_video_server's `ImageTransportImageStreamer`

This project models, in Dafny, the per-viewer stream session of
web_video_server (`src/image_streamer.cpp`). A session is created from the
query parameters of an HTTP request. `start` looks the requested topic up
among the topics the ROS master advertises and subscribes to it. From then on
two entry points drive it:

- `imageCallback` runs for every published frame. It applies the frame-skip
  rule, decodes the frame, rotates it by 180 degrees if asked, caches it as
  `output_size_image`, optionally burns the time into it, and sends it.
- `restreamFrame` is called by a timer. It re-sends the cached frame, stamped
  with the current time, when no frame has been ingested (decoded, cached and
  past `initialize`) for longer than `max_age`. Frames dropped by the skip rule do not count.

Any exception in either entry point makes the session inactive for good.

The model has four modules, one file each:

- `image_ops.dfy` (`ImageOps`): decoded images as rectangular pixel grids,
  the two `cv::flip` calls and the 180-degree rotation they make.
- `stamp_format.dfy` (`StampFormat`): `stampToString`. The nanoseconds are
  written in decimal, zero-padded to width 9, and cut to their first
  character.
- `image_streamer.dfy` (`ImageStreamer`): the session state as a value
  `Session`. Four functions say what the constructor, `start`,
  `imageCallback` and `restreamFrame` do to it: `Created`, `AfterStart`,
  `AfterCallback` and `AfterRestream`. The `try` block of `imageCallback` is
  `AfterFrame`, and its second half (initialise, caption, send) is
  `Delivered`. The class `ImageTransportImageStreamer` has the source's
  fields and updates them step by step. Each of its methods is proved to
  produce the state its function gives.
- `session_properties.dfy` (`SessionProperties`): runs of many calls. Inactive
  is final, the skip rule passes `N / (skip + 1)` of `N` frames, and the
  watchdog keeps re-sending while the source is silent.

Time is a natural number of nanoseconds, and `max_age` is an integer number
of nanoseconds. Everything outside the session becomes a parameter of the
operation that uses it:

- the topic list (`ros::master::getTopics`);
- the decoder (`cv_bridge` and OpenCV), a function from the message and the
  decoding route to an image or a failure;
- what the `initialize` and `sendImage` hooks do, given as an `Outcome`;
- the wall clock (`ros::Time::now()`);
- the time of day that `localtime`/`strftime` give for a whole second.

Every call of `sendImage` is recorded in the session's `sent` sequence: the
frame and the stamp it was sent with. A call that throws is recorded too.

In three places the code does something other than its option names suggest, and the model follows the code:

- Lines 141-142 overwrite the output size with the size of every decoded
  frame. So the requested `width`/`height` is never honoured. The resize
  branch at line 152 cannot run, and the model proves it dead with
  `assert false` in `CacheDecoded`.
- The overlay text at line 175 is made from `last_frame`, the time the frame
  was ingested (`ros::Time::now()`), not from the message's capture stamp.
  The frame itself is sent with the capture stamp (line 184).
- There is no separate "not started" state. `inactive_` starts false
  (line 11). Only `start` can set it back.

## Model

| member | source | states |
|---|---|---|
| `ImageOps.FlipAroundX` | src/image_streamer.cpp:147 | flip code 0 keeps the size and puts row `rows-1-i` at row `i` |
| `ImageOps.FlipAroundY` | src/image_streamer.cpp:148 | flip code 1 keeps the size and reverses every row |
| `ImageOps.Rotate180` | src/image_streamer.cpp:144-149 | the two flips keep the size and move pixel `(rows-1-i, cols-1-j)` to `(i, j)` |
| `ImageOps.Rotate180Twice` | src/image_streamer.cpp:144-149 | rotating twice gives back the original image |
| `StampFormat.Decimal` | src/image_streamer.cpp:96 | writing an unsigned number gives at least one digit, all decimal; a single digit exactly when the number is below 10 |
| `StampFormat.DecimalRoundTrip` | src/image_streamer.cpp:96 | reading the written digits back gives the number |
| `StampFormat.PadLeft` | src/image_streamer.cpp:96 | `setw` with a fill character right-aligns the text to the width, never truncates it, and fills only the added prefix |
| `StampFormat.PaddedLeadingDigit` | src/image_streamer.cpp:96-98 | for `n < 10^k`, the first character of `n` zero-padded to width `k` is the digit `d` with `d*10^(k-1) <= n < (d+1)*10^(k-1)` |
| `StampFormat.FractionDigits` | src/image_streamer.cpp:96-98 | the kept part of the nanoseconds is exactly one decimal digit |
| `StampFormat.FractionDigitBounds` | src/image_streamer.cpp:96-98 | for `nsec < 10^9` the kept digit `d` satisfies `d*10^8 <= nsec < (d+1)*10^8` |
| `StampFormat.FractionIsTruncatedTenths` | src/image_streamer.cpp:96-98 | for `nsec < 10^9` the kept digit is `nsec / 10^8`, truncated rather than rounded |
| `StampFormat.StampToString` | src/image_streamer.cpp:88-99 | the text is the time of day, then `.`, then one digit |
| `StampFormat.StampExample` | src/image_streamer.cpp:88-99 | any stamp from 0.2 s up to but not including 0.3 s past a whole second (250000000 ns, say) is written as its time of day followed by `.2` |
| `ImageStreamer.Created` | src/image_streamer.cpp:9-31 | the request's values, or the defaults: topic `""`, width and height -1, transport `raw`, skip 0; counter 0, active, not initialised, nothing subscribed or sent |
| `ImageStreamer.ServesExactlyWithOptionalSlash` | src/image_streamer.cpp:45-46 | an advertised name serves the topic iff it is the topic or `/` followed by the topic |
| `ImageStreamer.AfterStart` | src/image_streamer.cpp:37-51 | after start the session is active iff some advertised name serves the topic; it subscribes to the topic with queue size 1 and the transport hint either way; nothing else changes |
| `ImageStreamer.Oriented` | src/image_streamer.cpp:144-149 | the cached orientation keeps the size; without invert it is the decoded image itself |
| `ImageStreamer.OrientedTwice` | src/image_streamer.cpp:144-149 | orienting an oriented frame again gives back the decoded frame, with or without invert |
| `ImageStreamer.AfterFrame` | src/image_streamer.cpp:114-217 | the decoder is asked for the floating-point route iff the encoding contains `F` (line 117), for bgr8 otherwise. A failed decode only deactivates. A decoded frame is cached at its own size, rotated iff invert. If `initialize` throws, the session deactivates with nothing sent. Otherwise it becomes initialised, `last_frame` becomes now, the caption is the text for now iff timestamp, the frame is sent once with the message stamp, and the session is inactive iff it was or the send threw. Never reactivates, never un-initialises, never touches the counter |
| `ImageStreamer.Delivered` | src/image_streamer.cpp:164-217 | initialising, captioning and sending leave the options, the counter, the output size and the cached pixels alone; they never reactivate or un-initialise |
| `ImageStreamer.AfterCallback` | src/image_streamer.cpp:101-218 | a no-op while inactive. Otherwise it counts the frame; a skipped frame changes nothing else, and a frame that passes goes through `AfterFrame`. Never reactivates, never un-initialises |
| `ImageStreamer.AfterRestream` | src/image_streamer.cpp:57-86 | it sends iff the session is active, initialised and `last_frame + max_age < now` (strict). The send is the cached frame stamped `now`. Only a throwing send changes liveness, and only to inactive. `last_frame` and the cache never change |
| `ImageStreamer.ImageTransportImageStreamer.constructor` | src/image_streamer.cpp:20-31 | the fields hold `Created(request)` |
| `ImageStreamer.ImageTransportImageStreamer.Start` | src/image_streamer.cpp:37-51 | the loop over the advertised names leaves the object in `AfterStart` of its old state; active iff the topic is advertised |
| `ImageStreamer.ImageTransportImageStreamer.RestreamFrame` | src/image_streamer.cpp:57-86 | the object's new state is `AfterRestream` of its old state |
| `ImageStreamer.ImageTransportImageStreamer.ImageCallback` | src/image_streamer.cpp:101-112 | the object's new state is `AfterCallback` of its old state |
| `ImageStreamer.ImageTransportImageStreamer.ProcessFrame` | src/image_streamer.cpp:114-217 | the object's new state is `AfterFrame` of its old state |
| `ImageStreamer.ImageTransportImageStreamer.CacheDecoded` | src/image_streamer.cpp:137-162 | the output size becomes the decoded size and the cache the oriented frame without caption; the resize branch is unreachable |
| `ImageStreamer.ImageTransportImageStreamer.Deliver` | src/image_streamer.cpp:164-184 | the object's new state is `Delivered` of its old state |
| `SessionProperties.InactiveIsFinal` | src/image_streamer.cpp:101-104 | from an inactive session, whatever its skip value, any sequence of frames and watchdog ticks changes nothing and writes nothing |
| `SessionProperties.AbsentTopicNeverWrites` | src/image_streamer.cpp:42-50 | a session whose topic is not advertised at start is inactive and never sends anything, for every skip value |
| `SessionProperties.FailedWriteIsLastWrite` | src/image_streamer.cpp:199-205 | a write that throws (viewer disconnected) deactivates the session, and no write follows it |
| `SessionProperties.InitializedIsKept` | src/image_streamer.cpp:164-168 | once initialised, a session stays initialised over any run |
| `SessionProperties.OutputSizeIsCacheSizeKept` | src/image_streamer.cpp:137-162 | once initialised, the output size always equals the cached frame's size over any run, so no resize happens |
| `SessionProperties.ProceedCountIsQuotient` | src/image_streamer.cpp:106-112 | for skip >= 0, of the frame numbers `c+1 .. c+k` exactly `(c+k)/(skip+1) - c/(skip+1)` pass the skip rule |
| `SessionProperties.SkipRuleDecidesSends` | src/image_streamer.cpp:106-112 | while nothing fails, every frame advances the counter, and the sends made are exactly one per frame whose number passes the skip rule, in order, each carrying that frame's capture stamp; so their number is the number of passing frame numbers |
| `SessionProperties.FrameGoesThrough` | src/image_streamer.cpp:106-184 | one frame that decodes, with both hooks succeeding, advances the counter, keeps the session active, and is sent with its capture stamp iff its number passes the skip rule |
| `SessionProperties.PassingStamps` | src/image_streamer.cpp:106-112 | the capture stamps of the frames passing the skip rule are as many as the passing frame numbers |
| `SessionProperties.FramesSentFromFreshSession` | src/image_streamer.cpp:106-112 | a fresh, started session sends `N / (skip+1)` of `N` frames, and all of them when skip is 0 |
| `SessionProperties.SilentSourceKeepsResending` | src/image_streamer.cpp:59-64 | for any skip value, while every tick finds the frame stale, each tick re-sends the same cached frame stamped with the tick's time; `last_frame` and the cache stay unchanged |

## Left out

- The ROS master lookup and the image_transport subscription are I/O. The topic list is a parameter of `Start`. The subscription is recorded as a value (topic, queue size 1, transport hint) and never delivers anything by itself.
- `cv_bridge::toCvCopy` and the floating-point normalisation (`minMaxIdx`, scaling by `255/max_val`) belong to a foreign library and use floating point. They are the `decode` parameter. Only the choice between the two routes is modelled, and every decoded image is a grid of 3-channel 8-bit pixels. The source differs on the floating-point route: there the image stays a single-channel float matrix and is never converted to bgr8.
- `cv::resize` is never reached (see above). `cv::putText` rendering is a foreign call: the drawn text is recorded as the frame's caption, but the pixels are not changed. The internals of `cv::Mat` are not modelled.
- An exception from `cv::flip` or `cv::putText` is not modelled separately. The decoder's failure covers the OpenCV work before caching; `putText` is taken not to throw.
- `localtime`/`strftime` depend on the time zone. They are the `timeOfDay` parameter. A time-of-day text longer than the 100-byte buffer is not modelled. `stampToString` is only ever called with its default format, and its `format` parameter is left out.
- The `boost::mutex` lock is concurrency. The entry points are sequential method calls.
- `sendImage` and `initialize` are virtual hooks overridden elsewhere, and they write to a socket. They are outcome parameters. The image handed to `initialize` is not recorded.
- Logging (`ROS_ERROR_THROTTLE`, `ROS_DEBUG`) is left out. Each `catch` clause has its own `Failure` kind, and all of them lead to the same state change.
- Query-parameter parsing (a malformed integer) is left out. A `Request` holds the parsed values, or none where a parameter is absent.
- `max_age` is a `double` in seconds; here it is an integer number of nanoseconds. `ros::Time`/`ros::Duration` arithmetic throws when a result leaves its 32-bit range, and the model does not capture that.
- AfterRestream: `restreamFrame` reads `ros::Time::now()` twice, once for the comparison and once for the stamp. The model uses one reading for both.
- AfterCallback: does not model the 32-bit signed range of `n_frame_`. Overflowing it, after 2^31-1 frames, is undefined behaviour in C++.
- ImageCallback: requires `skip != -1` while the session is active, because an active session then takes a remainder by zero at line 109, which is undefined behaviour. `AfterCallback` and `Step` require the same. `Run` requires it unless every event is a watchdog tick. An inactive session returns before line 109 and may have any skip.
- The destructors and the members of the `ImageStreamer` base class other than `topic_` and `inactive_` are not part of this model.
