/** The parts of the media library's entities that the video image provider reads,
    and the response it produces. */
module Entities {
  import opened Wrappers

  /** Where an item's media lives. */
  datatype LocationType = FileSystem | Remote | Virtual | Offline

  /** The physical form of a video. */
  datatype VideoType = VideoFile | Iso | Dvd | BluRay | HdDvd

  /** What kind of disc an ISO image holds, when it could be determined. */
  datatype IsoType = IsoDvd | IsoBluRay

  /** The stereoscopic layout of a 3D video. */
  datatype Video3DFormat = HalfSideBySide | FullSideBySide | FullTopAndBottom | HalfTopAndBottom

  /** The kinds of image an item can carry. */
  datatype ImageType = Primary | Art | Backdrop | Banner | Logo | Thumb | Disc | Box | Screenshot | Menu | Chapter | BoxRear

  /** The encodings an image stream can be in. */
  datatype ImageFormat = Jpg | Png | Gif | Bmp | Webp

  /** The transport the encoder uses to read its input. */
  datatype MediaProtocol = File | Http | Rtmp | Rtsp | Udp | Ftp

  /** The bytes of an encoded image. */
  type Stream = seq<bv8>

  /** A video as the provider sees it. Durations and dates are counted in 100-nanosecond
      ticks, the unit of .NET's `TimeSpan` and `DateTime`. */
  datatype Video = Video(
    path: string,
    locationType: LocationType,
    videoType: VideoType,
    isoType: Option<IsoType>,
    isPlaceHolder: bool,
    isShortcut: bool,
    isArchive: bool,
    runTimeTicks: Option<int>,
    defaultVideoStreamIndex: Option<int>,
    video3DFormat: Option<Video3DFormat>,
    playableStreamFileNames: seq<string>,
    dateModified: int)

  /** An item with images: either a video or some other kind of item. */
  datatype Item =
    | VideoItem(video: Video)
    | OtherItem(otherLocationType: LocationType, otherDateModified: int)
  {
    function Location(): LocationType {
      match this
      case VideoItem(v) => v.locationType
      case OtherItem(l, _) => l
    }

    function DateModified(): int {
      match this
      case VideoItem(v) => v.dateModified
      case OtherItem(_, d) => d
    }
  }

  /** What the metadata store remembers about an item: its modification date at the
      time of the last refresh, if any was recorded. */
  datatype MetadataStatus = MetadataStatus(itemDateModified: Option<int>)

  /** The answer of a dynamic image provider. */
  datatype DynamicImageResponse = DynamicImageResponse(
    hasImage: bool,
    format: Option<ImageFormat>,
    stream: Option<Stream>)

  /** The response meaning "this provider has no image for the item". */
  const NoImage := DynamicImageResponse(false, None, None)

  /** The response carrying a JPEG frame grabbed from a video. */
  function JpgImage(s: Stream): DynamicImageResponse {
    DynamicImageResponse(true, Some(Jpg), Some(s))
  }
}
