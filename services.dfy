/** Stand-ins for the collaborators the provider calls but whose code is not part of this
    model: the ISO manager, the mounts it hands out, and the media encoder. What a
    collaborator answers is fixed by a function given at construction, so the provider's
    behaviour can be stated for every possible answer. */
module Services {
  import opened Wrappers
  import opened Entities

  /** Why a collaborator call did not return normally: the caller's cancellation token
      fired, or the call raised some other error. */
  datatype Failure = Cancelled | Faulted(reason: string)

  /** The arguments of one call to the encoder's frame extraction. */
  datatype ExtractRequest = ExtractRequest(
    inputPath: string,
    protocol: MediaProtocol,
    threeD: Option<Video3DFormat>,
    offset: int)

  /** One step a collaborator takes on the provider's behalf. */
  datatype Event =
    | MountRequested(path: string)
    | MountAcquired(path: string)
    | ExtractRequested(request: ExtractRequest)
    | MountReleased(path: string)

  /** The steps the collaborators take, in the order they take them. It exists for
      stating the provider's contracts only: every collaborator call appends its own
      step here as part of its postcondition, so the order of the journal is the order
      of the calls. */
  class Journal {
    ghost var events: seq<Event>

    constructor ()
      ensures events == []
    {
      events := [];
    }
  }

  /** A mounted ISO image. Disposing it unmounts the image; disposeCount records how
      often that happened. */
  class IsoMount {
    const isoPath: string
    const mountedPath: string
    const journal: Journal
    var disposeCount: nat

    constructor (isoPath: string, mountedPath: string, journal: Journal)
      ensures this.isoPath == isoPath && this.mountedPath == mountedPath
      ensures this.journal == journal
      ensures disposeCount == 0
    {
      this.isoPath := isoPath;
      this.mountedPath := mountedPath;
      this.journal := journal;
      disposeCount := 0;
    }

    method Dispose()
      modifies this, journal
      ensures disposeCount == old(disposeCount) + 1
      ensures journal.events == old(journal.events) + [MountReleased(isoPath)]
    {
      disposeCount := disposeCount + 1;
      journal.events := journal.events + [MountReleased(isoPath)];
    }
  }

  /** Mounts ISO images. mountFailure says which mount requests fail and how;
      mountRoot says where a successful mount exposes the image's files. */
  class IsoManager {
    const mountFailure: string -> Option<Failure>
    const mountRoot: string -> string
    const journal: Journal
    /** The path of every mount request received so far, failed or not, in order. */
    var requested: seq<string>
    /** Every mount handed out so far, in order. */
    var issued: seq<IsoMount>

    constructor (mountFailure: string -> Option<Failure>, mountRoot: string -> string,
                 journal: Journal)
      ensures this.mountFailure == mountFailure && this.mountRoot == mountRoot
      ensures this.journal == journal
      ensures requested == [] && issued == []
    {
      this.mountFailure := mountFailure;
      this.mountRoot := mountRoot;
      this.journal := journal;
      requested := [];
      issued := [];
    }

    method Mount(path: string) returns (r: Result<IsoMount, Failure>)
      modifies this, journal
      ensures requested == old(requested) + [path]
      ensures mountFailure(path).Some? ==>
                r == Err(mountFailure(path).value) && issued == old(issued) &&
                journal.events == old(journal.events) + [MountRequested(path)]
      ensures mountFailure(path).None? ==>
                r.Ok? && fresh(r.value) &&
                r.value.isoPath == path && r.value.mountedPath == mountRoot(path) &&
                r.value.journal == journal && r.value.disposeCount == 0 &&
                issued == old(issued) + [r.value] &&
                journal.events == old(journal.events) + [MountRequested(path), MountAcquired(path)]
    {
      requested := requested + [path];
      journal.events := journal.events + [MountRequested(path)];
      match mountFailure(path)
      case Some(e) =>
        r := Err(e);
      case None =>
        var m := new IsoMount(path, mountRoot(path), journal);
        issued := issued + [m];
        journal.events := journal.events + [MountAcquired(path)];
        r := Ok(m);
    }
  }

  /** Extracts still frames from videos. respond says what each request yields. */
  class MediaEncoder {
    const respond: ExtractRequest -> Result<Stream, Failure>
    const journal: Journal
    /** Every extraction request received so far, in order. */
    var requests: seq<ExtractRequest>

    constructor (respond: ExtractRequest -> Result<Stream, Failure>, journal: Journal)
      ensures this.respond == respond && this.journal == journal && requests == []
    {
      this.respond := respond;
      this.journal := journal;
      requests := [];
    }

    method ExtractVideoImage(request: ExtractRequest) returns (r: Result<Stream, Failure>)
      modifies this, journal
      ensures requests == old(requests) + [request]
      ensures journal.events == old(journal.events) + [ExtractRequested(request)]
      ensures r == respond(request)
    {
      requests := requests + [request];
      journal.events := journal.events + [ExtractRequested(request)];
      r := respond(request);
    }
  }
}
