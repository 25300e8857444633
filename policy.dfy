/** The pure decisions of the video image provider: which items it applies to, when an
    item has changed, which requests it turns away, where in a video it grabs the frame
    and which protocol the encoder reads with. */
module Policy {
  import opened Wrappers
  import opened Entities

  /** The provider's display name. */
  const Name := "Screen Grabber"

  /** The provider's position among image providers: it runs after the providers that
      fetch artwork from the internet. */
  const Order := 100

  /** Ticks (100 ns units) in one second. */
  const TicksPerSecond := 10_000_000

  /** The offset used when the runtime cannot be trusted: ten seconds, in ticks. */
  const FallbackOffset := 10 * TicksPerSecond

  /** The image kinds the provider can produce for any item: the primary image only. */
  function GetSupportedImages(item: Item): (r: seq<ImageType>)
    ensures |r| == 1 && Primary in r
  {
    [Primary]
  }

  /** Whether the provider applies to an item: a video stored on the file system that is
      neither a placeholder, a shortcut nor an archive. */
  function Supports(item: Item): (r: bool)
    ensures r ==> item.VideoItem? && item.Location() == FileSystem
    ensures item.Location() in {Remote, Virtual, Offline} ==> !r
    ensures item.VideoItem? && (item.video.isPlaceHolder || item.video.isShortcut || item.video.isArchive) ==> !r
    ensures (item.VideoItem? && item.Location() == FileSystem &&
             !item.video.isPlaceHolder && !item.video.isShortcut && !item.video.isArchive) ==> r
  {
    match item
    case OtherItem(_, _) => false
    case VideoItem(v) =>
      v.locationType == FileSystem && !v.isPlaceHolder && !v.isShortcut && !v.isArchive
  }

  /** Supports never looks at the kind of video: a file-system ISO, DVD or HD-DVD
      qualifies exactly when a plain video file with the same flags does. */
  lemma SupportsIgnoresVideoType(v: Video, t: VideoType)
    ensures Supports(VideoItem(v.(videoType := t))) == Supports(VideoItem(v))
  {
  }

  /** Whether an item changed since its last refresh: only when a date was recorded and it
      differs from the item's current one. The directory service is not consulted. */
  function HasChanged<D>(item: Item, status: MetadataStatus, directoryService: D): (r: bool)
    ensures status.itemDateModified.None? ==> !r
    ensures r <==> status.itemDateModified.Some? && status.itemDateModified.value != item.DateModified()
  {
    if status.itemDateModified.Some? then
      status.itemDateModified.value != item.DateModified()
    else
      false
  }

  /** The outcome of GetImage's fast-reject checks, in the order the source makes them. */
  datatype Gate =
    | NotSupported         // an HD-DVD or a placeholder
    | UnknownIsoType       // an ISO image whose disc type is unknown
    | MissingVideoStream   // no default video stream (the one case that is logged)
    | Extract              // all checks passed: grab a frame

  function GateOf(v: Video): (g: Gate)
    ensures g == Extract <==>
              (v.videoType != HdDvd && !v.isPlaceHolder &&
               (v.videoType == Iso ==> v.isoType.Some?) &&
               v.defaultVideoStreamIndex.Some?)
    ensures g == NotSupported <==> (v.videoType == HdDvd || v.isPlaceHolder)
    ensures g == UnknownIsoType <==>
              (v.videoType != HdDvd && !v.isPlaceHolder && v.videoType == Iso && v.isoType.None?)
    ensures g == MissingVideoStream <==>
              (v.videoType != HdDvd && !v.isPlaceHolder &&
               !(v.videoType == Iso && v.isoType.None?) && v.defaultVideoStreamIndex.None?)
  {
    if v.videoType == HdDvd || v.isPlaceHolder then NotSupported
    else if v.videoType == Iso && v.isoType.None? then UnknownIsoType
    else if v.defaultVideoStreamIndex.None? then MissingVideoStream
    else Extract
  }

  function Abs(x: int): nat {
    if x < 0 then -x else x
  }

  /** r is t / 10 rounded to the nearest integer, with halves going to the even neighbour. */
  ghost predicate IsRoundedTenth(t: int, r: int) {
    Abs(10 * r - t) <= 5 && (Abs(10 * r - t) == 5 ==> r % 2 == 0)
  }

  /** t / 10 rounded half to even: what `Convert.ToInt64(t * .1)` computes when the product
      is exact. */
  function RoundTenth(t: int): (r: int)
    ensures IsRoundedTenth(t, r)
  {
    var q := t / 10;
    var m := t % 10;
    if m > 5 || (m == 5 && q % 2 == 1) then q + 1 else q
  }

  /** At most one integer is t / 10 rounded half to even. */
  lemma RoundedTenthUnique(t: int, r1: int, r2: int)
    requires IsRoundedTenth(t, r1) && IsRoundedTenth(t, r2)
    ensures r1 == r2
  {
  }

  /** No integer lies nearer to t / 10 than RoundTenth(t). */
  lemma RoundTenthIsNearest(t: int, k: int)
    ensures Abs(10 * RoundTenth(t) - t) <= Abs(10 * k - t)
  {
  }

  /** The position, in ticks, of the frame to grab: a tenth into the video when its
      runtime is known and positive, except for DVDs, whose runtime is not trusted;
      otherwise ten seconds in. */
  function ImageOffset(v: Video): (offset: int)
    ensures v.videoType == Dvd ==> offset == FallbackOffset
    ensures v.runTimeTicks.None? || v.runTimeTicks.value <= 0 ==> offset == FallbackOffset
    ensures (v.videoType != Dvd && v.runTimeTicks.Some? && v.runTimeTicks.value > 0) ==>
              IsRoundedTenth(v.runTimeTicks.value, offset) && 0 <= offset <= v.runTimeTicks.value
  {
    if v.videoType != Dvd && v.runTimeTicks.Some? && v.runTimeTicks.value > 0 then
      RoundTenth(v.runTimeTicks.value)
    else
      FallbackOffset
  }

  /** The protocol the encoder reads the video with: HTTP for remote items, the local
      file system for everything else. */
  function ProtocolFor(location: LocationType): (p: MediaProtocol)
    ensures p == Http <==> location == Remote
    ensures p != Http ==> p == File
  {
    if location == Remote then Http else File
  }
}
