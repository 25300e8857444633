# Video image provider

A model of the media server's `VideoImageProvider`, the image provider that grabs one
still frame from a video to serve as the item's primary image when no artwork was found
elsewhere. It covers everything the provider decides and does:

- which items it applies to (`Supports`) and when an item has changed since its last
  refresh (`HasChanged`);
- the three checks with which `GetImage` turns a video away without an image (an HD-DVD or
  placeholder, an ISO image of unknown disc type, a video without a default video stream);
- where in the video the frame is taken (a tenth of the runtime, or ten seconds in for DVDs
  and videos without a positive runtime) and which protocol the encoder reads with (HTTP
  for remote items, the file system otherwise);
- the mount lifecycle of `GetVideoImage`: an ISO image is mounted before extraction and the
  mount is disposed afterwards whether the encoder returned a stream, raised an error or
  was cancelled; a failed mount propagates its error and nothing is released.

Files:

- `wrappers.dfy` — `Option` (C# nullable values) and `Result` (a value or a raised error).
- `entities.dfy` — the enumerations, the video and item records, the metadata status and
  the provider's response.
- `policy.dfy` — the pure decisions: `Supports`, `HasChanged`, `GetSupportedImages`, the
  gates (`GateOf`), the frame offset (`ImageOffset`, `RoundTenth`) and `ProtocolFor`, with
  the constants `Name` ("Screen Grabber"), `Order` (100) and the ten-second fallback offset
  (100,000,000 ticks).
- `services.dfy` — stand-ins for the ISO manager, its mounts and the media encoder. The
  manager records every mount request and every mount it hands out; the encoder records
  every request. Each of them also appends the step it takes (mount requested, mount
  acquired, extraction requested, mount released) to a ghost `Journal` they share, so the
  journal's order is the order in which the collaborators were actually called. What each answers is a function of the path or request, fixed at
  construction, so every statement about the provider holds for every such answer,
  cancellation included (the limits of this are listed under "Left out").
- `trace.dfy` — the discipline such a log of events must follow: `Track`, the automaton that
  replays a log and rejects taking a second mount while one is held or releasing one that
  is not held. `Closed` logs start and end with no mount held.
- `provider.dfy` — `VideoImageRun` and `ImageRun` state, for every collaborator answer,
  the result of `GetVideoImage` and `GetImage` and the events they cause; the class
  `VideoImageProvider` performs the calls step by step on the collaborator objects, and
  its methods are proved to produce exactly that result, to make the collaborators append
  exactly those events to their journal, in that order, and to leave every mount it
  obtained disposed exactly once. Mounts the ISO
  manager hands to other users are not the provider's concern.

## Model

| member | source | states |
|---|---|---|
| `Policy.GetSupportedImages` | MediaBrowser.Providers/MediaInfo/VideoImageProvider.cs:59-62 | the provider offers exactly one image kind, Primary, whatever the item |
| `Policy.Supports` | MediaBrowser.Providers/MediaInfo/VideoImageProvider.cs:132-143 | supported only for a video on the file system; never for remote, virtual or offline items or for placeholders, shortcuts and archives; always for a file-system video with none of those flags |
| `Policy.SupportsIgnoresVideoType` | MediaBrowser.Providers/MediaInfo/VideoImageProvider.cs:132-143 | changing only a video's type (file, ISO, DVD, Blu-ray, HD-DVD) never changes whether it is supported |
| `Policy.HasChanged` | MediaBrowser.Providers/MediaInfo/VideoImageProvider.cs:154-165 | false when no date was recorded; true exactly when a recorded date differs from the item's modification date; the directory service plays no part |
| `Policy.GateOf` | MediaBrowser.Providers/MediaInfo/VideoImageProvider.cs:68-85 | extraction goes ahead exactly when the video is no HD-DVD, no placeholder, not an ISO of unknown type, and has a default video stream; each rejection label holds exactly when its check is the first to fail, in the source's order (HD-DVD or placeholder, then unknown ISO type, then missing stream) |
| `Policy.RoundTenth` | MediaBrowser.Providers/MediaInfo/VideoImageProvider.cs:100 | the result lies within half a unit of t / 10 and, at an exact half, is even (round half to even, as `Convert.ToInt64` rounds) |
| `Policy.RoundedTenthUnique` | MediaBrowser.Providers/MediaInfo/VideoImageProvider.cs:100 | at most one integer is t / 10 rounded half to even |
| `Policy.RoundTenthIsNearest` | MediaBrowser.Providers/MediaInfo/VideoImageProvider.cs:100 | no integer is closer to t / 10 than `RoundTenth(t)` |
| `Policy.ImageOffset` | MediaBrowser.Providers/MediaInfo/VideoImageProvider.cs:96-101 | ten seconds for every DVD whatever its runtime and for a missing or non-positive runtime; otherwise the runtime / 10 rounded half to even, between 0 and the runtime |
| `Policy.ProtocolFor` | MediaBrowser.Providers/MediaInfo/VideoImageProvider.cs:103-105 | HTTP exactly for remote items, the file protocol for all others |
| `Services.IsoMount.Dispose` | MediaBrowser.Providers/MediaInfo/VideoImageProvider.cs:122 | disposing a mount counts one more release and journals the release of its ISO path |
| `Services.IsoManager.Mount` | MediaBrowser.Providers/MediaInfo/VideoImageProvider.cs:53 | every mount request is recorded, failed or not; it either raises the manager's error for that path and hands out nothing, or hands out one new, undisposed mount of that path that reports to the manager's journal; the journal receives the request and, on success, the acquisition, in that order |
| `Services.MediaEncoder.ExtractVideoImage` | MediaBrowser.Providers/MediaInfo/VideoImageProvider.cs:109 | the encoder records the request, journals it and answers with its outcome for it |
| `MountTrace.Track` | MediaBrowser.Providers/MediaInfo/VideoImageProvider.cs:92-124 | replaying a log from at most one held mount never ends holding more than one |
| `MountTrace.ClosedConcat` | MediaBrowser.Providers/MediaInfo/VideoImageProvider.cs:92-124 | two calls that each release what they mount, one after the other, still release everything they mount |
| `MountTrace.ClosedBalanced` | MediaBrowser.Providers/MediaInfo/VideoImageProvider.cs:118-124 | in a closed log every acquired mount is released: acquisitions equal releases |
| `MountTrace.ClosedPrefixHoldsAtMostOne` | MediaBrowser.Providers/MediaInfo/VideoImageProvider.cs:92-124 | at every point of a closed log the replay is legal and at most one mount is held |
| `VideoImage.Package` | MediaBrowser.Providers/MediaInfo/VideoImageProvider.cs:109-116 | an encoder stream becomes a response with an image, JPEG format and exactly that stream; an encoder error is passed on unchanged |
| `VideoImage.VideoImageRun` | MediaBrowser.Providers/MediaInfo/VideoImageProvider.cs:90-125 | a mount of the item's path is requested exactly for ISO images and held exactly when that request succeeds; a mount is acquired only immediately after the request and only for the item's path; the log is closed, a held mount is released exactly once and as the last step; the encoder is called while the mount is held, if one was taken; a failed mount propagates its error and the encoder is not called; otherwise the encoder is called once with the computed offset, protocol, 3D format and the input built from the path, the mounted path (for ISOs) and the playable file names, and its outcome becomes the result |
| `VideoImage.ImageRun` | MediaBrowser.Providers/MediaInfo/VideoImageProvider.cs:64-88 | a video turned away by the checks gets a response without an image and causes no mount and no extraction; any other is handed to `GetVideoImage`; the log is closed either way |
| `VideoImage.SessionClosed` | MediaBrowser.Providers/MediaInfo/VideoImageProvider.cs:90-125 | after any sequence of `GetImage` calls no mount is left held and acquisitions equal releases |
| `VideoImage.OneHourFileScenario` | MediaBrowser.Providers/MediaInfo/VideoImageProvider.cs:96-116 | a one-hour local video file is sampled 360 seconds in, read as a file, with no mount and one encoder call |
| `VideoImage.DvdScenario` | MediaBrowser.Providers/MediaInfo/VideoImageProvider.cs:96-101 | a two-hour DVD is sampled ten seconds in |
| `VideoImage.UnknownIsoScenario` | MediaBrowser.Providers/MediaInfo/VideoImageProvider.cs:74-78 | an ISO of unknown disc type gets no image, no mount and no extraction |
| `VideoImage.VideoImageProvider.constructor` | MediaBrowser.Providers/MediaInfo/VideoImageProvider.cs:28-36 | the provider accepts any ISO manager, encoder and input builder and keeps them; it starts with no mounts of its own; the manager and the encoder must report to one journal, which is an observation device of the model only |
| `VideoImage.VideoImageProvider.MountIsoIfNeeded` | MediaBrowser.Providers/MediaInfo/VideoImageProvider.cs:49-57 | no mount and no manager call unless the video is an ISO (the manager's request record grows by the video's path exactly for ISOs); for an ISO, the manager's error is passed on with nothing handed out, or a new undisposed mount of the video's path is returned; the journal receives exactly the manager's steps |
| `VideoImage.VideoImageProvider.GetVideoImage` | MediaBrowser.Providers/MediaInfo/VideoImageProvider.cs:90-125 | performs exactly `VideoImageRun`: the same result, and the collaborators' journal grows by exactly the run's events in the run's order (mount, then extraction, then release), the manager receives exactly the run's mount requests and hands out exactly the run's mounts, the encoder receives exactly the run's requests, the provider's own mounts grow by the new ones, and every mount the provider obtained ends disposed exactly once |
| `VideoImage.VideoImageProvider.GetImage` | MediaBrowser.Providers/MediaInfo/VideoImageProvider.cs:64-88 | performs exactly `ImageRun`, with the same accounting of mount requests, mounts and encoder requests as `GetVideoImage`; a rejected video leaves the ISO manager and the encoder untouched |

## Left out

- Asynchrony and cancellation tokens: `Task`, `ConfigureAwait` and `CancellationToken` are not modelled. Cancellation appears only as the `Cancelled` failure a mount or an extraction may answer with, which the model propagates like any other error.
- `IIsoManager.Mount`, `IMediaEncoder.ExtractVideoImage` and `MediaEncoderHelpers.GetInputArgument` are foreign code: their answers are functions given to the model (`Services.IsoManager`, `Services.MediaEncoder`, the provider's `inputArgument`), not specified further. `GetInputArgument` receives the mount's mounted path instead of the mount object, and is assumed not to raise.
- Policy.RoundTenth: computes the exact t / 10 rounded half to even; the source multiplies by the double 0.1, so for tick counts beyond about 2^53 the double product can differ from t / 10 and the rounding can differ by one tick.
- Integer widths: ticks and dates are unbounded integers; `RunTimeTicks` is a 64-bit value in the source, and a tenth of it always fits, so no wrap-around arises.
- The diagnostic log message for a video without a default video stream has no effect on the result and is not modelled; `GateOf` still tells that case apart as `MissingVideoStream`.
- The `(Video)` cast in `GetImage`: an item that is not a video would raise an invalid-cast error; `GetImage` requires a video item instead.
- The unused constructor dependencies (`_config`, `_libraryManager`, `_logger` as a log sink, `_fileSystem` other than through the input builder) are not kept by the model's provider.
- Mount disposal is modelled as never raising. In the source an exception from `isoMount.Dispose()` in the `finally` block would replace the stream result or the encoder's error; the model always returns the encoder's outcome.
- Collaborator answers depend only on the path (mount) or the request (encoder), never on history: a manager or encoder whose answer changes between calls, such as a path whose mount fails once and then succeeds, is outside the model.
- A successful mount is always a new, undisposed object; a manager that hands back a mount it handed out before, or one already disposed, is outside the model.
- A rejected response leaves `Format` at its enum default in the source; the model's response without an image carries no format at all.
- Calls on one provider are modelled one after another. The source's `GetImage` is asynchronous, and overlapping calls could each hold a mount at the same moment; "at most one mount held" is proved per call and for calls in sequence (`SessionClosed`), not across overlapping calls.
- `Name` and `Order` are constants of the model (`Policy.Name`, `Policy.Order`) and carry no contract of their own.
