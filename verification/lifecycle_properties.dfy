/** What the daemon's decision core guarantees about ordering, dispatch,
    the viewer handle and the working directory. */
module LifecycleProperties {
  import opened Options
  import opened Text
  import opened PageNames
  import opened Locator
  import opened Render
  import opened Devices
  import opened Lifecycle

  /** The paths searched for a PDF, in trace order. */
  function SearchedRoots(t: seq<Effect>): seq<string>
    decreases |t|
  {
    if |t| == 0 then []
    else (if t[0].Searched? then [t[0].root] else []) + SearchedRoots(t[1..])
  }

  lemma {:induction false} SearchedRootsAppend(a: seq<Effect>, b: seq<Effect>)
    ensures SearchedRoots(a + b) == SearchedRoots(a) + SearchedRoots(b)
    decreases |a|
  {
    if |a| > 0 {
      var head := if a[0].Searched? then [a[0].root] else [];
      assert (a + b)[0] == a[0];
      assert (a + b)[1..] == a[1..] + b;
      SearchedRootsAppend(a[1..], b);
      assert SearchedRoots(a + b) == head + (SearchedRoots(a[1..]) + SearchedRoots(b));
      assert SearchedRoots(a) == head + SearchedRoots(a[1..]);
    } else {
      assert a + b == b;
    }
  }

  /** How one effect changes the set of viewers left running. */
  function LiveStep(live: set<Handle>, e: Effect): set<Handle> {
    match e
    case Launched(h, _, _) => live + {h}
    case Terminated(h) => live - {h}
    case _ => live
  }

  /** Viewers launched and not sent a termination since. */
  function Live(t: seq<Effect>): set<Handle>
    decreases |t|
  {
    if |t| == 0 then {} else LiveStep(Live(t[..|t| - 1]), t[|t| - 1])
  }

  lemma LiveAppend(t: seq<Effect>, e: Effect)
    ensures Live(t + [e]) == LiveStep(Live(t), e)
  {
    assert (t + [e])[..|t|] == t;
  }

  /** The viewer the daemon holds a handle to and has not waited for. */
  function Held(d: Daemon): set<Handle> {
    if Running(d) then {d.viewer.value} else {}
  }

  /** Every viewer ever launched, except a running one `PROCESS` refers
      to, has been sent a termination: at most one viewer is left running. */
  predicate SingleViewer(d: Daemon) {
    Live(d.trace) <= Held(d)
  }

  /** The effects of a successful search and the conversion after it. */
  function ConvertWork(mountPath: string, w: DeviceWorld): seq<Effect>
    requires FindFirstPdf(w.walk).Some?
  {
    [ Searched(mountPath),
      Converted(FindFirstPdf(w.walk).value, PagesWritten(w.document), ConvertsCompletely(w.document)) ]
  }

  /** The effects of a successful search, conversion and launch. */
  function DisplayWork(mountPath: string, w: DeviceWorld): seq<Effect>
    requires FindFirstPdf(w.walk).Some? && w.launch.Some?
  {
    ConvertWork(mountPath, w) + [Launched(w.launch.value, ViewerCommand(), SlideshowDisplayNumber)]
  }

  /** The termination sent to the viewer `PROCESS` holds, if it runs. */
  function StopEffects(d: Daemon): seq<Effect> {
    if Running(d) then [Terminated(d.viewer.value)] else []
  }

  /** The four ways one device can be processed, written out: the old
      viewer does not exit; no PDF is found; `Popen` raises; a viewer is
      launched. */
  lemma ProcessTimesOut(d: Daemon, mountPath: string, w: DeviceWorld)
    requires d.fault.None? && Running(d) && !w.oldViewerExits
    ensures ProcessNewDevice(d, mountPath, w)
         == d.(trace := d.trace + StopEffects(d), fault := Some(ViewerDidNotExit(d.viewer.value)))
  {
  }

  lemma ProcessFindsNothing(d: Daemon, mountPath: string, w: DeviceWorld)
    requires d.fault.None? && (Running(d) ==> w.oldViewerExits)
    requires FindFirstPdf(w.walk).None?
    ensures ProcessNewDevice(d, mountPath, w)
         == d.(reaped := d.reaped || d.viewer.Some?, trace := d.trace + StopEffects(d) + [Searched(mountPath)])
  {
  }

  lemma ProcessLaunchFails(d: Daemon, mountPath: string, w: DeviceWorld)
    requires d.fault.None? && (Running(d) ==> w.oldViewerExits)
    requires FindFirstPdf(w.walk).Some? && w.launch.None?
    ensures ProcessNewDevice(d, mountPath, w)
         == d.(reaped := d.reaped || d.viewer.Some?, scratch := Some(PageSet(PagesWritten(w.document))),
               trace := d.trace + StopEffects(d) + ConvertWork(mountPath, w),
               fault := Some(ViewerLaunchFailed))
  {
    assert d.trace + StopEffects(d) + [Searched(mountPath)] + [ConvertWork(mountPath, w)[1]]
        == d.trace + StopEffects(d) + ConvertWork(mountPath, w);
  }

  lemma ProcessLaunches(d: Daemon, mountPath: string, w: DeviceWorld)
    requires d.fault.None? && (Running(d) ==> w.oldViewerExits)
    requires FindFirstPdf(w.walk).Some? && w.launch.Some?
    ensures ProcessNewDevice(d, mountPath, w)
         == d.(viewer := w.launch, reaped := false, scratch := Some(PageSet(PagesWritten(w.document))),
               trace := d.trace + StopEffects(d) + DisplayWork(mountPath, w))
  {
    var work := DisplayWork(mountPath, w);
    assert d.trace + StopEffects(d) + [work[0]] + [work[1]] + [work[2]]
        == d.trace + StopEffects(d) + work;
  }

  /** A running old viewer is sent a termination before anything else
      happens; if it does not exit within the wait the daemon dies right
      there. */
  lemma OldViewerStoppedFirst(d: Daemon, mountPath: string, w: DeviceWorld)
    requires d.fault.None? && Running(d)
    ensures var r := ProcessNewDevice(d, mountPath, w);
      && |r.trace| > |d.trace| + 1 - (if w.oldViewerExits then 0 else 1)
      && r.trace[..|d.trace|] == d.trace
      && r.trace[|d.trace|] == Terminated(d.viewer.value)
      && (w.oldViewerExits ==> r.trace[|d.trace| + 1] == Searched(mountPath))
      && (!w.oldViewerExits ==> r.trace == d.trace + [Terminated(d.viewer.value)]
                                && r.fault == Some(ViewerDidNotExit(d.viewer.value)))
  {
    if w.oldViewerExits {
      ProcessDoesWork(d, mountPath, w);
      var work := WorkDone(mountPath, w);
      assert work[0] == Searched(mountPath);
      assert ProcessNewDevice(d, mountPath, w).trace == d.trace + [Terminated(d.viewer.value)] + work;
    } else {
      ProcessTimesOut(d, mountPath, w);
    }
  }

  /** When no file in the walk qualifies, nothing is converted or launched
      and `PROCESS` and the working directory are left as they were. */
  lemma NoPdfKeepsDisplay(d: Daemon, mountPath: string, w: DeviceWorld)
    requires d.fault.None?
    requires forall i, j :: !PdfAt(w.walk, i, j)
    ensures var r := ProcessNewDevice(d, mountPath, w);
      && r.viewer == d.viewer
      && r.scratch == d.scratch
      && |r.trace| >= |d.trace|
      && forall k :: |d.trace| <= k < |r.trace| ==> !r.trace[k].Converted? && !r.trace[k].Launched?
  {
  }

  /** When some file qualifies and the processes cooperate, the first
      qualifying file is converted into a freshly emptied directory and a
      new viewer replaces the old handle. */
  lemma PdfFoundReplacesViewer(d: Daemon, mountPath: string, w: DeviceWorld)
    requires d.fault.None?
    requires exists i, j :: PdfAt(w.walk, i, j)
    requires Running(d) ==> w.oldViewerExits
    requires w.launch.Some?
    ensures var r := ProcessNewDevice(d, mountPath, w);
      && r.fault.None?
      && r.viewer == w.launch && Running(r)
      && r.scratch == Some(PageSet(PagesWritten(w.document)))
      && r.trace == d.trace + StopEffects(d) + DisplayWork(mountPath, w)
  {
    assert FindFirstPdf(w.walk).Some?;
    ProcessLaunches(d, mountPath, w);
  }

  /** A viewer handle changes only by a launch after a successful search. */
  lemma ViewerChangesOnlyOnLaunch(d: Daemon, mountPath: string, w: DeviceWorld)
    requires d.fault.None?
    ensures var r := ProcessNewDevice(d, mountPath, w);
      r.viewer != d.viewer ==>
        && (exists i, j :: PdfAt(w.walk, i, j))
        && r.viewer == w.launch
        && r.trace[|r.trace| - 1] == Launched(w.launch.value, ViewerCommand(), SlideshowDisplayNumber)
  {
  }

  /** A failing conversion is not propagated: the slideshow starts anyway,
      over the pages saved before the failure. */
  lemma ConversionFailureStillStartsSlideshow(d: Daemon, mountPath: string, w: DeviceWorld)
    requires d.fault.None?
    requires exists i, j :: PdfAt(w.walk, i, j)
    requires Running(d) ==> w.oldViewerExits
    requires w.launch.Some?
    requires !ConvertsCompletely(w.document)
    ensures var r := ProcessNewDevice(d, mountPath, w);
      && r.fault.None?
      && r.viewer == w.launch
      && r.scratch == Some(PageSet(PagesWritten(w.document)))
      && (w.document.Opened? ==> PagesWritten(w.document) < w.document.pageCount)
      && r.trace[|r.trace| - 2].Converted? && !r.trace[|r.trace| - 2].complete
  {
    PdfFoundReplacesViewer(d, mountPath, w);
  }

  /** An event changes the daemon exactly when it is an `add` of a node
      `lsblk` reports as a disk. */
  lemma OnlyDiskAddsAreProcessed(d: Daemon, ev: Event, world: EventWorld)
    requires d.fault.None?
    ensures HandleEvent(d, ev, world) == d <==> !(ev.action == "add" && ev.node.Some? && IsDiskDevice(world.typeQuery))
  {
  }

  /** A stretch of events none of which is a disk `add` leaves the daemon
      as it was. */
  lemma {:induction false} OtherEventsAreIgnored(d: Daemon, events: seq<(Event, EventWorld)>)
    requires forall k :: 0 <= k < |events| ==> !Dispatched(events[k].0, events[k].1)
    ensures RunEvents(d, events) == d
    decreases |events|
  {
    if |events| > 0 && d.fault.None? {
      OtherEventsAreIgnored(d, events[1..]);
    }
  }

  /** What processing appends after the termination, if it gets past it. */
  function WorkDone(mountPath: string, w: DeviceWorld): seq<Effect> {
    if FindFirstPdf(w.walk).None? then [Searched(mountPath)]
    else if w.launch.None? then ConvertWork(mountPath, w)
    else DisplayWork(mountPath, w)
  }

  lemma {:induction false} NoSearches(t: seq<Effect>)
    requires forall k :: 0 <= k < |t| ==> !t[k].Searched?
    ensures SearchedRoots(t) == []
    decreases |t|
  {
    if |t| > 0 {
      NoSearches(t[1..]);
    }
  }

  lemma WorkDoneSearchesOnce(mountPath: string, w: DeviceWorld)
    ensures SearchedRoots(WorkDone(mountPath, w)) == [mountPath]
  {
    var work := WorkDone(mountPath, w);
    assert work == [work[0]] + work[1..];
    NoSearches(work[1..]);
    SearchedRootsAppend([work[0]], work[1..]);
    assert SearchedRoots([work[0]]) == [mountPath] by {
      assert [work[0]][1..] == [];
    }
  }

  /** Searches and conversions start or stop no viewer. */
  lemma {:induction false} LiveUnchangedBy(t: seq<Effect>, u: seq<Effect>)
    requires forall k :: 0 <= k < |u| ==> u[k].Searched? || u[k].Converted?
    ensures Live(t + u) == Live(t)
    decreases |u|
  {
    if |u| > 0 {
      var v := u[..|u| - 1];
      assert t + u == (t + v) + [u[|u| - 1]];
      LiveAppend(t + v, u[|u| - 1]);
      LiveUnchangedBy(t, v);
    } else {
      assert t + u == t;
    }
  }

  lemma ProcessDoesWork(d: Daemon, mountPath: string, w: DeviceWorld)
    requires d.fault.None? && (Running(d) ==> w.oldViewerExits)
    ensures ProcessNewDevice(d, mountPath, w).trace == d.trace + StopEffects(d) + WorkDone(mountPath, w)
  {
    if FindFirstPdf(w.walk).None? {
      ProcessFindsNothing(d, mountPath, w);
    } else if w.launch.None? {
      ProcessLaunchFails(d, mountPath, w);
    } else {
      ProcessLaunches(d, mountPath, w);
    }
  }

  lemma ProcessSearchesOnce(d: Daemon, mountPath: string, w: DeviceWorld)
    requires d.fault.None?
    ensures var r := ProcessNewDevice(d, mountPath, w);
      && |r.trace| >= |d.trace|
      && r.trace[..|d.trace|] == d.trace
      && SearchedRoots(r.trace[|d.trace|..]) == if Running(d) && !w.oldViewerExits then [] else [mountPath]
  {
    var stop := StopEffects(d);
    assert SearchedRoots(stop) == [] by {
      if Running(d) {
        assert stop[1..] == [];
      }
    }
    if Running(d) && !w.oldViewerExits {
      ProcessTimesOut(d, mountPath, w);
      assert (d.trace + stop)[|d.trace|..] == stop;
    } else {
      var work := WorkDone(mountPath, w);
      ProcessDoesWork(d, mountPath, w);
      assert (d.trace + stop + work)[|d.trace|..] == stop + work;
      SearchedRootsAppend(stop, work);
      WorkDoneSearchesOnce(mountPath, w);
    }
  }

  /** The start-up check searches at most one path: the first directory
      entry of the mount root, in listing order. */
  lemma BootProcessesAtMostOneDirectory(d: Daemon, listing: Option<seq<Entry>>, w: DeviceWorld)
    requires d.fault.None?
    ensures var r := BootUpCheck(d, listing, w);
      && |r.trace| >= |d.trace|
      && r.trace[..|d.trace|] == d.trace
      && SearchedRoots(r.trace[|d.trace|..]) ==
           if listing.Some? && FirstDirectory(listing.value) < |listing.value|
              && (!Running(d) || w.oldViewerExits)
           then [Join(DefaultMountRootPath, listing.value[FirstDirectory(listing.value)].name)]
           else []
  {
    if listing.Some? && FirstDirectory(listing.value) < |listing.value| {
      ProcessSearchesOnce(d, Join(DefaultMountRootPath, listing.value[FirstDirectory(listing.value)].name), w);
    } else {
      assert BootUpCheck(d, listing, w).trace[|d.trace|..] == [];
    }
  }

  /** Sending the termination leaves no viewer running. */
  lemma StopLeavesNoViewer(d: Daemon)
    requires SingleViewer(d)
    ensures Live(d.trace + StopEffects(d)) == {}
  {
    if Running(d) {
      LiveAppend(d.trace, Terminated(d.viewer.value));
    } else {
      assert d.trace + StopEffects(d) == d.trace;
    }
  }

  /** After a search, a conversion and a launch, only the launched viewer
      is left running. */
  lemma LiveAfterDisplay(t: seq<Effect>, mountPath: string, w: DeviceWorld)
    requires FindFirstPdf(w.walk).Some? && w.launch.Some?
    requires Live(t) == {}
    ensures Live(t + DisplayWork(mountPath, w)) == {w.launch.value}
  {
    var launched := Launched(w.launch.value, ViewerCommand(), SlideshowDisplayNumber);
    var work := ConvertWork(mountPath, w);
    LiveUnchangedBy(t, work);
    assert t + DisplayWork(mountPath, w) == (t + work) + [launched];
    LiveAppend(t + work, launched);
  }

  lemma LaunchKeepsSingleViewer(d: Daemon, mountPath: string, w: DeviceWorld)
    requires d.fault.None? && SingleViewer(d) && (Running(d) ==> w.oldViewerExits)
    requires FindFirstPdf(w.walk).Some? && w.launch.Some?
    ensures SingleViewer(ProcessNewDevice(d, mountPath, w))
  {
    ProcessLaunches(d, mountPath, w);
    StopLeavesNoViewer(d);
    LiveAfterDisplay(d.trace + StopEffects(d), mountPath, w);
  }

  lemma NoLaunchKeepsSingleViewer(d: Daemon, mountPath: string, w: DeviceWorld)
    requires d.fault.None? && SingleViewer(d) && (Running(d) ==> w.oldViewerExits)
    requires FindFirstPdf(w.walk).None? || w.launch.None?
    ensures SingleViewer(ProcessNewDevice(d, mountPath, w))
  {
    var t := d.trace + StopEffects(d);
    StopLeavesNoViewer(d);
    ProcessDoesWork(d, mountPath, w);
    LiveUnchangedBy(t, WorkDone(mountPath, w));
  }

  lemma ProcessKeepsSingleViewer(d: Daemon, mountPath: string, w: DeviceWorld)
    requires d.fault.None? && SingleViewer(d)
    ensures SingleViewer(ProcessNewDevice(d, mountPath, w))
  {
    if Running(d) && !w.oldViewerExits {
      ProcessTimesOut(d, mountPath, w);
      StopLeavesNoViewer(d);
    } else if FindFirstPdf(w.walk).Some? && w.launch.Some? {
      LaunchKeepsSingleViewer(d, mountPath, w);
    } else {
      NoLaunchKeepsSingleViewer(d, mountPath, w);
    }
  }

  lemma HandleEventKeepsSingleViewer(d: Daemon, ev: Event, world: EventWorld)
    requires d.fault.None? && SingleViewer(d)
    ensures SingleViewer(HandleEvent(d, ev, world))
  {
    if Dispatched(ev, world) && world.mountQuery.Output? {
      ProcessKeepsSingleViewer(d, MountPath(world.mountQuery.stdout), world.device);
    }
  }

  lemma {:induction false} RunKeepsSingleViewer(d: Daemon, events: seq<(Event, EventWorld)>)
    requires SingleViewer(d)
    ensures SingleViewer(RunEvents(d, events))
    decreases |events|
  {
    if |events| > 0 && d.fault.None? {
      HandleEventKeepsSingleViewer(d, events[0].0, events[0].1);
      RunKeepsSingleViewer(HandleEvent(d, events[0].0, events[0].1), events[1..]);
    }
  }

  lemma BootKeepsSingleViewer(d: Daemon, listing: Option<seq<Entry>>, w: DeviceWorld)
    requires d.fault.None? && SingleViewer(d)
    ensures SingleViewer(BootUpCheck(d, listing, w))
  {
    if listing.Some? && FirstDirectory(listing.value) < |listing.value| {
      ProcessKeepsSingleViewer(d, Join(DefaultMountRootPath, listing.value[FirstDirectory(listing.value)].name), w);
    }
  }

  /** Whatever the devices, documents and processes do, the daemon never
      leaves more than one launched viewer without a termination, and that
      one is the viewer `PROCESS` refers to. */
  lemma MonitorUsbSingleViewer(scratch: Option<set<string>>, listing: Option<seq<Entry>>,
                               bootWorld: DeviceWorld, events: seq<(Event, EventWorld)>)
    ensures var r := MonitorUsb(scratch, listing, bootWorld, events);
      && Live(r.trace) <= Held(r)
      && |Live(r.trace)| <= 1
  {
    var start := Start(scratch);
    assert Live(start.trace) == {};
    BootKeepsSingleViewer(start, listing, bootWorld);
    RunKeepsSingleViewer(BootUpCheck(start, listing, bootWorld), events);
    var r := MonitorUsb(scratch, listing, bootWorld, events);
    if Live(r.trace) != {} {
      assert Live(r.trace) == Held(r);
    }
  }

  /** Inserting the same device again terminates the first launch's
      viewer and repeats the same search and conversion, leaving the same
      working directory; the second launch may return any handle, and that
      handle is the one held afterwards. */
  lemma ReinsertionRepeatsDisplay(d: Daemon, mountPath: string, w: DeviceWorld, w2: DeviceWorld)
    requires d.fault.None?
    requires exists i, j :: PdfAt(w.walk, i, j)
    requires (Running(d) ==> w.oldViewerExits) && w.launch.Some?
    requires w2.walk == w.walk && w2.document == w.document
    requires w2.oldViewerExits && w2.launch.Some?
    ensures var r1 := ProcessNewDevice(d, mountPath, w);
      && r1.fault.None?
      && var r2 := ProcessNewDevice(r1, mountPath, w2);
      && r2.fault.None?
      && r2.scratch == r1.scratch
      && r2.viewer == w2.launch
      && r2.trace == r1.trace + [Terminated(w.launch.value)] + DisplayWork(mountPath, w2)
  {
    PdfFoundReplacesViewer(d, mountPath, w);
    PdfFoundReplacesViewer(ProcessNewDevice(d, mountPath, w), mountPath, w2);
  }

  /** A viewer that has already been waited for is not signalled again and
      cannot time out: processing goes straight to the search. */
  lemma ReapedViewerIsNotSignalled(d: Daemon, mountPath: string, w: DeviceWorld)
    requires d.fault.None? && d.viewer.Some? && d.reaped
    ensures var r := ProcessNewDevice(d, mountPath, w);
      && (r.fault.None? || r.fault == Some(ViewerLaunchFailed))
      && r.trace[|d.trace|] == Searched(mountPath)
  {
    ProcessDoesWork(d, mountPath, w);
    assert WorkDone(mountPath, w)[0] == Searched(mountPath);
  }

  /** After a device without a PDF, `PROCESS` still holds the stopped
      viewer; the next device does not signal it again, and the daemon
      cannot die waiting for it. */
  lemma NoPdfThenNextDeviceCannotTimeOut(d: Daemon, p1: string, w1: DeviceWorld, p2: string, w2: DeviceWorld)
    requires d.fault.None? && Running(d) && w1.oldViewerExits
    requires FindFirstPdf(w1.walk).None?
    ensures var d1 := ProcessNewDevice(d, p1, w1);
      && d1.fault.None? && d1.viewer == d.viewer && !Running(d1)
      && var d2 := ProcessNewDevice(d1, p2, w2);
      && d2.fault != Some(ViewerDidNotExit(d.viewer.value))
      && d2.trace[|d1.trace|] == Searched(p2)
  {
    ProcessFindsNothing(d, p1, w1);
    ReapedViewerIsNotSignalled(ProcessNewDevice(d, p1, w1), p2, w2);
  }

}
