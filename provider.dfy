/** The video image provider: grabs one still frame from a video as a fallback primary
    image. The pure part states what one GetImage call does for every answer its
    collaborators may give; the class performs the call step by step against the
    collaborator objects and is proved to do exactly that. */
module VideoImage {
  import opened Wrappers
  import opened Entities
  import opened Policy
  import opened Services
  import opened MountTrace

  /** What the collaborators answer: which mounts fail, where successful mounts are
      exposed, how the encoder's input argument is built from the item's path, protocol,
      mounted path and playable file names, and what each extraction yields. */
  datatype Collaborators = Collaborators(
    mountFailure: string -> Option<Failure>,
    mountRoot: string -> string,
    inputArgument: (string, MediaProtocol, Option<string>, seq<string>) -> string,
    respond: ExtractRequest -> Result<Stream, Failure>)

  /** The result of one call and the events it caused, in order. */
  datatype Run = Run(result: Result<DynamicImageResponse, Failure>, events: seq<Event>)

  /** The encoder request for a video, given the mounted path of its ISO image if one
      was mounted. */
  function RequestFor(v: Video, c: Collaborators, mountedPath: Option<string>): ExtractRequest {
    var protocol := ProtocolFor(v.locationType);
    ExtractRequest(
      c.inputArgument(v.path, protocol, mountedPath, v.playableStreamFileNames),
      protocol, v.video3DFormat, ImageOffset(v))
  }

  /** Turns the encoder's outcome into the provider's: a stream becomes a JPEG image
      response, an error is passed on unchanged. */
  function Package(outcome: Result<Stream, Failure>): (r: Result<DynamicImageResponse, Failure>)
    ensures r.Ok? <==> outcome.Ok?
    ensures outcome.Ok? ==>
              r.value.hasImage && r.value.format == Some(Jpg) && r.value.stream == Some(outcome.value)
    ensures outcome.Err? ==> r.error == outcome.error
  {
    match outcome
    case Ok(s) => Ok(JpgImage(s))
    case Err(e) => Err(e)
  }

  /** GetVideoImage: mount the image if the video is an ISO, ask the encoder for one frame,
      and release the mount whatever the encoder did. */
  function VideoImageRun(v: Video, c: Collaborators): (o: Run)
    // a mount is requested, for the item's path, exactly when the video is an ISO image
    ensures MountRequests(o.events) == (if v.videoType == Iso then [v.path] else [])
    // a mount is held only when the request succeeded
    ensures Acquisitions(o.events) == 1 <==> v.videoType == Iso && c.mountFailure(v.path).None?
    // every mount taken is released exactly once, as the last step of the call
    ensures Closed(o.events) && Acquisitions(o.events) == Releases(o.events) <= 1
    ensures Acquisitions(o.events) == 1 ==> o.events[|o.events| - 1] == MountReleased(v.path)
    // the mount held is the item's, acquired right after it was requested
    ensures forall j :: 0 <= j < |o.events| && o.events[j].MountAcquired? ==>
              0 < j && o.events[j - 1] == MountRequested(v.path) && o.events[j].path == v.path
    // the encoder is called while the mount is held, if one was taken
    ensures ExtractsHolding(o.events, Acquisitions(o.events))
    // a failed mount propagates its error, and the encoder is never called
    ensures (v.videoType == Iso && c.mountFailure(v.path).Some?) ==>
              o.result == Err(c.mountFailure(v.path).value) && Extractions(o.events) == []
    // otherwise the encoder is called once, with the computed offset, protocol and input
    ensures !(v.videoType == Iso && c.mountFailure(v.path).Some?) ==> |Extractions(o.events)| == 1
    ensures forall r :: r in Extractions(o.events) ==>
              r.offset == ImageOffset(v) && r.protocol == ProtocolFor(v.locationType) &&
              r.threeD == v.video3DFormat &&
              r.inputPath == c.inputArgument(v.path, r.protocol,
                                             if v.videoType == Iso then Some(c.mountRoot(v.path)) else None,
                                             v.playableStreamFileNames)
    // and its outcome, stream or error, becomes the call's result
    ensures |Extractions(o.events)| == 1 ==> o.result == Package(c.respond(Extractions(o.events)[0]))
  {
    if v.videoType != Iso then
      var request := RequestFor(v, c, None);
      UnmountedCallEvents(request);
      Run(Package(c.respond(request)), [ExtractRequested(request)])
    else
      match c.mountFailure(v.path)
      case Some(e) =>
        FailedMountEvents(v.path);
        Run(Err(e), [MountRequested(v.path)])
      case None =>
        var request := RequestFor(v, c, Some(c.mountRoot(v.path)));
        MountedCallEvents(v.path, request);
        Run(Package(c.respond(request)),
            [MountRequested(v.path), MountAcquired(v.path), ExtractRequested(request), MountReleased(v.path)])
  }

  /** The three shapes a GetVideoImage run takes: no mount, a failed mount, a held mount. */
  lemma VideoImageRunShape(v: Video, c: Collaborators)
    ensures v.videoType != Iso ==>
              VideoImageRun(v, c).events == [ExtractRequested(RequestFor(v, c, None))] &&
              VideoImageRun(v, c).result == Package(c.respond(RequestFor(v, c, None)))
    ensures v.videoType == Iso && c.mountFailure(v.path).Some? ==>
              VideoImageRun(v, c) == Run(Err(c.mountFailure(v.path).value), [MountRequested(v.path)])
    ensures v.videoType == Iso && c.mountFailure(v.path).None? ==>
              var request := RequestFor(v, c, Some(c.mountRoot(v.path)));
              VideoImageRun(v, c).events ==
                [MountRequested(v.path), MountAcquired(v.path), ExtractRequested(request), MountReleased(v.path)] &&
              VideoImageRun(v, c).result == Package(c.respond(request))
  {
  }

  /** GetImage: the fast-reject checks, then GetVideoImage. A rejected video gets a
      response without an image and causes no event at all. */
  function ImageRun(v: Video, c: Collaborators): (o: Run)
    ensures GateOf(v) != Extract ==> o.result == Ok(NoImage) && o.events == []
    ensures GateOf(v) == Extract ==> o == VideoImageRun(v, c)
    ensures Closed(o.events)
  {
    if GateOf(v) != Extract then Run(Ok(NoImage), []) else VideoImageRun(v, c)
  }

  /** The events of GetImage calls made one after another. */
  function Session(vs: seq<Video>, c: Collaborators): seq<Event> {
    if vs == [] then [] else ImageRun(vs[0], c).events + Session(vs[1..], c)
  }

  /** However many GetImage calls are made, no mount is ever held twice, none is released
      unheld, and none is left mounted. */
  lemma {:induction false} SessionClosed(vs: seq<Video>, c: Collaborators)
    ensures Closed(Session(vs, c))
    ensures Acquisitions(Session(vs, c)) == Releases(Session(vs, c))
  {
    if vs != [] {
      SessionClosed(vs[1..], c);
      ClosedConcat(ImageRun(vs[0], c).events, Session(vs[1..], c));
    }
    ClosedBalanced(Session(vs, c));
  }

  /** A video file on disk, one hour long: the frame is taken 360 seconds in, read as a
      local file, with no mount. */
  lemma OneHourFileScenario(c: Collaborators, path: string)
    ensures var v := Video(path, FileSystem, VideoFile, None, false, false, false,
                           Some(3600 * TicksPerSecond), Some(0), None, [], 0);
            var request := ExtractRequest(c.inputArgument(path, File, None, []), File, None,
                                          360 * TicksPerSecond);
            ImageRun(v, c) == Run(Package(c.respond(request)), [ExtractRequested(request)])
  {
  }

  /** A DVD two hours long is still sampled ten seconds in. */
  lemma DvdScenario(c: Collaborators, path: string)
    ensures var v := Video(path, FileSystem, Dvd, None, false, false, false,
                           Some(7200 * TicksPerSecond), Some(0), None, [], 0);
            Extractions(ImageRun(v, c).events) == [RequestFor(v, c, None)] &&
            RequestFor(v, c, None).offset == 10 * TicksPerSecond
  {
  }

  /** An ISO image of unknown disc type: no image, no mount, no extraction. */
  lemma UnknownIsoScenario(c: Collaborators, path: string)
    ensures var v := Video(path, FileSystem, Iso, None, false, false, false,
                           Some(3600 * TicksPerSecond), Some(0), None, [], 0);
            ImageRun(v, c) == Run(Ok(NoImage), [])
  {
  }

  class VideoImageProvider {
    const isoManager: IsoManager
    const mediaEncoder: MediaEncoder
    const inputArgument: (string, MediaProtocol, Option<string>, seq<string>) -> string
    /** The mounts this provider has obtained from the ISO manager. */
    ghost var mounts: set<IsoMount>

    /** The ISO manager and the encoder report their steps to one journal, and every
        mount the provider obtained has been released exactly once. */
    ghost predicate Valid()
      reads this, mounts
    {
      mediaEncoder.journal == isoManager.journal &&
      forall m :: m in mounts ==> m.disposeCount == 1
    }

    function Injected(): Collaborators {
      Collaborators(isoManager.mountFailure, isoManager.mountRoot, inputArgument, mediaEncoder.respond)
    }

    constructor (isoManager: IsoManager, mediaEncoder: MediaEncoder,
                 inputArgument: (string, MediaProtocol, Option<string>, seq<string>) -> string)
      requires mediaEncoder.journal == isoManager.journal
      ensures this.isoManager == isoManager && this.mediaEncoder == mediaEncoder
      ensures this.inputArgument == inputArgument
      ensures mounts == {} && Valid()
    {
      this.isoManager := isoManager;
      this.mediaEncoder := mediaEncoder;
      this.inputArgument := inputArgument;
      mounts := {};
    }

    /** Mounts the video's image when it is an ISO; otherwise yields "no mount" without
        touching the ISO manager. A failed mount is passed on. */
    method MountIsoIfNeeded(v: Video) returns (r: Result<Option<IsoMount>, Failure>)
      modifies isoManager, isoManager.journal
      ensures isoManager.requested ==
                old(isoManager.requested) + (if v.videoType == Iso then [v.path] else [])
      ensures v.videoType != Iso ==>
                r == Ok(None) && isoManager.issued == old(isoManager.issued) &&
                isoManager.journal.events == old(isoManager.journal.events)
      ensures v.videoType == Iso && isoManager.mountFailure(v.path).Some? ==>
                r == Err(isoManager.mountFailure(v.path).value) &&
                isoManager.issued == old(isoManager.issued) &&
                isoManager.journal.events ==
                  old(isoManager.journal.events) + [MountRequested(v.path)]
      ensures v.videoType == Iso && isoManager.mountFailure(v.path).None? ==>
                r.Ok? && r.value.Some? && fresh(r.value.value) &&
                r.value.value.isoPath == v.path &&
                r.value.value.mountedPath == isoManager.mountRoot(v.path) &&
                r.value.value.journal == isoManager.journal &&
                r.value.value.disposeCount == 0 &&
                isoManager.issued == old(isoManager.issued) + [r.value.value] &&
                isoManager.journal.events ==
                  old(isoManager.journal.events) + [MountRequested(v.path), MountAcquired(v.path)]
    {
      if v.videoType == Iso {
        var mount := isoManager.Mount(v.path);
        match mount
        case Err(e) =>
          r := Err(e);
        case Ok(m) =>
          r := Ok(Some(m));
      } else {
        r := Ok(None);
      }
    }

    method GetVideoImage(v: Video) returns (r: Result<DynamicImageResponse, Failure>)
      requires Valid()
      modifies this, isoManager, mediaEncoder, isoManager.journal
      ensures Valid()
      ensures r == VideoImageRun(v, Injected()).result
      ensures isoManager.journal.events ==
                old(isoManager.journal.events) + VideoImageRun(v, Injected()).events
      ensures isoManager.requested ==
                old(isoManager.requested) + MountRequests(VideoImageRun(v, Injected()).events)
      ensures mediaEncoder.requests ==
                old(mediaEncoder.requests) + Extractions(VideoImageRun(v, Injected()).events)
      ensures |isoManager.issued| ==
                |old(isoManager.issued)| + Acquisitions(VideoImageRun(v, Injected()).events)
      ensures isoManager.issued[..|old(isoManager.issued)|] == old(isoManager.issued)
      ensures mounts == old(mounts) + set m | m in isoManager.issued[|old(isoManager.issued)|..]
      ensures fresh(mounts - old(mounts))
    {
      ghost var c := Injected();
      ghost var run := VideoImageRun(v, c);
      ghost var journal := isoManager.journal;
      VideoImageRunShape(v, c);
      var mounted := MountIsoIfNeeded(v);
      if mounted.Err? {
        r := Err(mounted.error);
        FailedMountEvents(v.path);
        assert isoManager.issued[|old(isoManager.issued)|..] == [];
        return;
      }
      var isoMount := mounted.value;
      var mountedPath := if isoMount.Some? then Some(isoMount.value.mountedPath) else None;
      var request := RequestFor(v, Injected(), mountedPath);
      var stream := mediaEncoder.ExtractVideoImage(request);
      // The finally block: runs whether the extraction returned a stream or raised.
      if isoMount.Some? {
        isoMount.value.Dispose();
        mounts := mounts + {isoMount.value};
        MountedCallEvents(v.path, request);
        assert isoManager.issued[|old(isoManager.issued)|..] == [isoMount.value];
      } else {
        UnmountedCallEvents(request);
        assert isoManager.issued[|old(isoManager.issued)|..] == [];
      }
      assert journal.events == old(journal.events) + run.events;
      match stream {
        case Ok(s) => r := Ok(JpgImage(s));
        case Err(e) => r := Err(e);
      }
    }

    method GetImage(item: Item, imageType: ImageType) returns (r: Result<DynamicImageResponse, Failure>)
      requires item.VideoItem?
      requires Valid()
      modifies this, isoManager, mediaEncoder, isoManager.journal
      ensures Valid()
      ensures r == ImageRun(item.video, Injected()).result
      ensures isoManager.journal.events ==
                old(isoManager.journal.events) + ImageRun(item.video, Injected()).events
      ensures GateOf(item.video) != Extract ==>
                unchanged(isoManager, mediaEncoder, isoManager.journal)
      ensures isoManager.requested ==
                old(isoManager.requested) + MountRequests(ImageRun(item.video, Injected()).events)
      ensures mediaEncoder.requests ==
                old(mediaEncoder.requests) + Extractions(ImageRun(item.video, Injected()).events)
      ensures |isoManager.issued| ==
                |old(isoManager.issued)| + Acquisitions(ImageRun(item.video, Injected()).events)
      ensures isoManager.issued[..|old(isoManager.issued)|] == old(isoManager.issued)
      ensures mounts == old(mounts) + set m | m in isoManager.issued[|old(isoManager.issued)|..]
      ensures fresh(mounts - old(mounts))
    {
      var video := item.video;
      if GateOf(video) != Extract {
        r := Ok(NoImage);
        assert isoManager.issued[|old(isoManager.issued)|..] == [];
        return;
      }
      r := GetVideoImage(video);
    }
  }
}
