/** The discipline the collaborator steps of a provider call must follow, stated over a
    log of events: a mount is released only while held, a second one is never taken
    while one is held, and a finished call holds none. */
module MountTrace {
  import opened Wrappers
  import opened Services

  /** Replays log starting with held mounts held; the number held at the end, or None
      when the log takes a mount while one is held or releases one that is not held. */
  function Track(log: seq<Event>, held: nat): (r: Option<nat>)
    ensures held <= 1 && r.Some? ==> r.value <= 1
    decreases |log|
  {
    if log == [] then Some(held)
    else match log[0]
      case MountAcquired(_) => if held == 0 then Track(log[1..], 1) else None
      case MountReleased(_) => if held == 1 then Track(log[1..], 0) else None
      case _ => Track(log[1..], held)
  }

  /** A log that follows the mount discipline from an idle start and ends idle. */
  predicate Closed(log: seq<Event>) {
    Track(log, 0) == Some(0)
  }

  function Acquisitions(log: seq<Event>): nat {
    if log == [] then 0 else (if log[0].MountAcquired? then 1 else 0) + Acquisitions(log[1..])
  }

  function Releases(log: seq<Event>): nat {
    if log == [] then 0 else (if log[0].MountReleased? then 1 else 0) + Releases(log[1..])
  }

  /** The paths the log asks to mount, in order. */
  function MountRequests(log: seq<Event>): seq<string> {
    if log == [] then []
    else if log[0].MountRequested? then [log[0].path] + MountRequests(log[1..])
    else MountRequests(log[1..])
  }

  /** The encoder requests in the log, in order. */
  function Extractions(log: seq<Event>): seq<ExtractRequest> {
    if log == [] then []
    else if log[0].ExtractRequested? then [log[0].request] + Extractions(log[1..])
    else Extractions(log[1..])
  }

  /** Replaying a concatenation replays the first part, then the second from where the
      first left off. */
  lemma {:induction false} TrackConcat(a: seq<Event>, b: seq<Event>, held: nat)
    ensures Track(a + b, held) ==
              match Track(a, held)
              case None => None
              case Some(h) => Track(b, h)
    decreases |a|
  {
    if a == [] {
      assert a + b == b;
    } else {
      assert (a + b)[1..] == a[1..] + b;
      match a[0]
      case MountAcquired(_) => if held == 0 { TrackConcat(a[1..], b, 1); }
      case MountReleased(_) => if held == 1 { TrackConcat(a[1..], b, 0); }
      case MountRequested(_) => TrackConcat(a[1..], b, held);
      case ExtractRequested(_) => TrackConcat(a[1..], b, held);
    }
  }

  /** Two closed logs, one after the other, form a closed log. */
  lemma ClosedConcat(a: seq<Event>, b: seq<Event>)
    requires Closed(a) && Closed(b)
    ensures Closed(a + b)
  {
    TrackConcat(a, b, 0);
  }

  /** A replay that succeeds balances acquisitions against releases. */
  lemma {:induction false} TrackCounts(log: seq<Event>, held: nat)
    requires Track(log, held).Some?
    ensures held + Acquisitions(log) == Track(log, held).value + Releases(log)
    decreases |log|
  {
    if log != [] {
      match log[0]
      case MountAcquired(_) => TrackCounts(log[1..], 1);
      case MountReleased(_) => TrackCounts(log[1..], 0);
      case MountRequested(_) => TrackCounts(log[1..], held);
      case ExtractRequested(_) => TrackCounts(log[1..], held);
    }
  }

  /** Every mount acquired in a closed log is released in it. */
  lemma ClosedBalanced(log: seq<Event>)
    requires Closed(log)
    ensures Acquisitions(log) == Releases(log)
  {
    TrackCounts(log, 0);
  }

  /** At every point of a closed log at most one mount is held. */
  lemma ClosedPrefixHoldsAtMostOne(log: seq<Event>, k: nat)
    requires Closed(log) && k <= |log|
    ensures Track(log[..k], 0).Some? && Track(log[..k], 0).value <= 1
  {
    assert log == log[..k] + log[k..];
    TrackConcat(log[..k], log[k..], 0);
  }

  /** Every encoder request in the log is made while exactly held mounts are held. */
  ghost predicate ExtractsHolding(log: seq<Event>, held: nat) {
    forall j :: 0 <= j < |log| && log[j].ExtractRequested? ==> Track(log[..j], 0) == Some(held)
  }

  /** The events of a call that does not mount: one encoder request. */
  lemma UnmountedCallEvents(request: ExtractRequest)
    ensures var log := [ExtractRequested(request)];
            Closed(log) && Acquisitions(log) == 0 && Releases(log) == 0 &&
            MountRequests(log) == [] && Extractions(log) == [request] &&
            ExtractsHolding(log, 0)
  {
    var log := [ExtractRequested(request)];
    assert log[..0] == [];
  }

  /** The events of a call whose mount request fails: the request alone. */
  lemma FailedMountEvents(path: string)
    ensures var log := [MountRequested(path)];
            Closed(log) && Acquisitions(log) == 0 && Releases(log) == 0 &&
            MountRequests(log) == [path] && Extractions(log) == []
  {
  }

  /** The events of a call that mounts: request, acquire, extract, release. */
  lemma MountedCallEvents(path: string, request: ExtractRequest)
    ensures var log := [MountRequested(path), MountAcquired(path), ExtractRequested(request), MountReleased(path)];
            Closed(log) && Acquisitions(log) == 1 && Releases(log) == 1 &&
            MountRequests(log) == [path] && Extractions(log) == [request] &&
            ExtractsHolding(log, 1)
  {
    var tail3 := [MountReleased(path)];
    var tail2 := [ExtractRequested(request)] + tail3;
    var tail1 := [MountAcquired(path)] + tail2;
    var log := [MountRequested(path)] + tail1;
    assert tail3[1..] == [] && tail2[1..] == tail3 && tail1[1..] == tail2 && log[1..] == tail1;
    assert Track(tail3, 1) == Some(0);
    assert Track(tail2, 1) == Some(0);
    assert Track(tail1, 0) == Some(0);
    assert Track(log, 0) == Some(0);
    assert Releases(tail3) == 1 + Releases(tail3[1..]) && Extractions(tail3) == Extractions(tail3[1..]);
    assert Acquisitions(tail3) == 0 && Releases(tail3) == 1;
    assert Acquisitions(tail2) == 0 && Releases(tail2) == 1;
    assert Acquisitions(tail1) == 1 && Releases(tail1) == 1;
    assert MountRequests(tail3) == [] && Extractions(tail3) == [];
    assert MountRequests(tail2) == [] && Extractions(tail2) == [request];
    assert MountRequests(tail1) == [] && Extractions(tail1) == [request];
    assert log == [MountRequested(path), MountAcquired(path), ExtractRequested(request), MountReleased(path)];
    var held := [MountAcquired(path)];
    assert held[1..] == [] && Track(held, 0) == Some(1);
    assert log[..2] == [MountRequested(path)] + held;
    assert ([MountRequested(path)] + held)[1..] == held;
    assert Track(log[..2], 0) == Some(1);
  }
}
