/** The daemon's decision core: `process_new_device`, `start_pdf_slideshow`,
    `boot_up_check` and the event loop of `monitor_usb`. The state is the
    global `PROCESS` handle and the contents of the working directory;
    everything the daemon does to the outside world is appended to a trace. */
module Lifecycle {
  import opened Options
  import opened Text
  import opened PageNames
  import opened Locator
  import opened Render
  import opened Devices

  const TmpWorkingDir: string := "/home/pi/working"
  const DefaultMountRootPath: string := "/media/pi"
  const SlideshowDisplayNumber: string := ":0"
  const SlideshowDelaySeconds: nat := 10

  /** A viewer process started by `subprocess.Popen`. */
  datatype Handle = Handle(pid: nat)

  /** The viewer's command line: fullscreen slideshow over the working
      directory. */
  function ViewerCommand(): seq<string> {
    ["feh", "--fullscreen", "--auto-zoom", "--slideshow-delay", Decimal(SlideshowDelaySeconds), TmpWorkingDir]
  }

  /** What the daemon does to the outside world. */
  datatype Effect =
    | Terminated(viewer: Handle)                               // termination signal sent to the viewer
    | Searched(root: string)                                   // the PDF search walks this path
    | Converted(pdf: string, pagesSaved: nat, complete: bool)  // the found file is rendered
    | Launched(viewer: Handle, argv: seq<string>, display: string)

  /** An exception nothing catches: it ends `monitor_usb` and the daemon. */
  datatype Fault =
    | ViewerDidNotExit(viewer: Handle)  // the 10-second wait for the old viewer timed out
    | ViewerLaunchFailed                // starting the viewer raised
    | MountRootUnlistable               // listing the mount root raised
    | MountQueryFailed                  // running the mount-point query raised

  /** `viewer` is `PROCESS`; `reaped` records that it has already been
      waited for, after which terminating it sends nothing and waiting for
      it returns at once; `scratch` is the working directory's file names
      (`None`: it does not exist); `fault` is set once the daemon died. */
  datatype Daemon = Daemon(viewer: Option<Handle>, reaped: bool, scratch: Option<set<string>>,
                           trace: seq<Effect>, fault: Option<Fault>)

  /** `PROCESS` refers to a viewer that has not been waited for. */
  predicate Running(d: Daemon) {
    d.viewer.Some? && !d.reaped
  }

  /** The environment's answers while one device is processed: whether the
      old viewer exits within the wait, what `os.walk` reports under the
      mount path, what the PDF library makes of the found file, and the
      handle `Popen` returns (`None`: it raised). */
  datatype DeviceWorld = DeviceWorld(oldViewerExits: bool, walk: Walk, document: Document, launch: Option<Handle>)

  /** A udev event: its action and its device node, which udev may omit. */
  datatype Event = Event(action: string, node: Option<string>)

  /** The answers of the two `lsblk` runs for an event, and of the device. */
  datatype EventWorld = EventWorld(typeQuery: QueryResult, mountQuery: QueryResult, device: DeviceWorld)

  /** One entry of the listing of the mount root, and whether the path
      joined from it is a directory. */
  datatype Entry = Entry(name: string, isDir: bool)

  /** The daemon at process start: no viewer handle, an empty trace, and a
      working directory that may survive from an earlier run. */
  function Start(scratch: Option<set<string>>): Daemon {
    Daemon(None, false, scratch, [], None)
  }

  /** `start_pdf_slideshow`: the viewer is started on display `:0`; the new
      handle replaces `PROCESS` only if starting it did not raise. */
  function StartPdfSlideshow(d: Daemon, launch: Option<Handle>): (r: Daemon)
    requires d.fault.None?
    ensures r.scratch == d.scratch
    ensures r.fault.None? <==> launch.Some?
    ensures launch.None? ==> r.viewer == d.viewer && r.trace == d.trace
    ensures launch.Some? ==> Running(r) && r.viewer == launch
                             && r.trace == d.trace + [Launched(launch.value, ViewerCommand(), SlideshowDisplayNumber)]
  {
    match launch
    case None => d.(fault := Some(ViewerLaunchFailed))
    case Some(h) => d.(viewer := Some(h), reaped := false,
                       trace := d.trace + [Launched(h, ViewerCommand(), SlideshowDisplayNumber)])
  }

  /** The first step of `process_new_device`: a held viewer is terminated
      and then waited for, for up to 10 seconds. The handle is kept
      afterwards. A viewer already waited for is not signalled again and
      its wait returns at once, so only a running viewer can time out. */
  function StopOldViewer(d: Daemon, exits: bool): (r: Daemon)
    ensures r.viewer == d.viewer && r.scratch == d.scratch
    ensures |d.trace| <= |r.trace| <= |d.trace| + 1 && r.trace[..|d.trace|] == d.trace
    ensures !Running(d) ==> r == d
    ensures Running(d) ==> r.trace == d.trace + [Terminated(d.viewer.value)]
    ensures r.fault != d.fault ==> Running(d) && !exits
    ensures Running(d) && !exits ==> r.fault == Some(ViewerDidNotExit(d.viewer.value))
  {
    match d.viewer
    case None => d
    case Some(h) =>
      if d.reaped then d
      else d.(reaped := exits, trace := d.trace + [Terminated(h)],
              fault := if exits then d.fault else Some(ViewerDidNotExit(h)))
  }

  /** `process_new_device`: stop the old viewer, search the mount path,
      and if a PDF is found, convert it and start a new viewer. Every call
      leaves at least the search or the termination in the trace, and the
      only exceptions that escape are the wait timing out and the launch
      failing. */
  function ProcessNewDevice(d: Daemon, mountPath: string, w: DeviceWorld): (r: Daemon)
    requires d.fault.None?
    ensures |r.trace| > |d.trace| && r.trace[..|d.trace|] == d.trace
    ensures r.fault.None? || r.fault.value.ViewerDidNotExit? || r.fault.value.ViewerLaunchFailed?
  {
    var stopped := StopOldViewer(d, w.oldViewerExits);
    if stopped.fault.Some? then stopped
    else
      var searched := stopped.(trace := stopped.trace + [Searched(mountPath)]);
      var pdf := FindFirstPdf(w.walk);
      // An empty path would also be rejected, but the search never returns one.
      if pdf.Some? && pdf.value != "" then
        var conv := ConvertPdfToImages(w.document);
        var converted := searched.(scratch := Some(conv.pages),
                                   trace := searched.trace + [Converted(pdf.value, PagesWritten(w.document), conv.complete)]);
        StartPdfSlideshow(converted, w.launch)
      else searched
  }

  /** Without a device node, the type query raises before `lsblk` runs. */
  function TypeQuery(node: Option<string>, answer: QueryResult): QueryResult {
    if node.None? then Raised else answer
  }

  /** The event is an `add` of a node `lsblk` calls a disk. */
  predicate Dispatched(ev: Event, world: EventWorld) {
    ev.action == "add" && IsDiskDevice(TypeQuery(ev.node, world.typeQuery))
  }

  /** One iteration of the loop over `monitor.poll`: a dispatched event is
      processed at its mount path; any other event changes nothing. */
  function HandleEvent(d: Daemon, ev: Event, world: EventWorld): (r: Daemon)
    requires d.fault.None?
    ensures !Dispatched(ev, world) ==> r == d
    ensures |r.trace| >= |d.trace| && r.trace[..|d.trace|] == d.trace
    ensures r.fault.None? || !r.fault.value.MountRootUnlistable?
  {
    if !Dispatched(ev, world) then d
    else if world.mountQuery.Raised? then
      assert d.trace[..|d.trace|] == d.trace;
      d.(fault := Some(MountQueryFailed))
    else
      var r := ProcessNewDevice(d, MountPath(world.mountQuery.stdout), world.device);
      assert r.fault.None? || r.fault.value.ViewerDidNotExit? || r.fault.value.ViewerLaunchFailed?;
      r
  }

  /** The event loop over a finite stretch of events; it ends for good at
      the first uncaught exception. Effects are only ever appended, and a
      daemon that is already dead does nothing. */
  function RunEvents(d: Daemon, events: seq<(Event, EventWorld)>): (r: Daemon)
    ensures |r.trace| >= |d.trace| && r.trace[..|d.trace|] == d.trace
    ensures d.fault.Some? ==> r == d
    ensures d.fault.None? ==> r.fault.None? || !r.fault.value.MountRootUnlistable?
    decreases |events|
  {
    if |events| == 0 || d.fault.Some? then d
    else
      var next := HandleEvent(d, events[0].0, events[0].1);
      var r := RunEvents(next, events[1..]);
      assert r.trace[..|d.trace|] == r.trace[..|next.trace|][..|d.trace|];
      r
  }

  /** Position of the first directory entry, or `|entries|`. */
  function FirstDirectory(entries: seq<Entry>): (k: nat)
    ensures k <= |entries|
    ensures forall j :: 0 <= j < k ==> !entries[j].isDir
    ensures k < |entries| ==> entries[k].isDir
    decreases |entries|
  {
    if |entries| == 0 || entries[0].isDir then 0 else 1 + FirstDirectory(entries[1..])
  }

  /** `boot_up_check`: `listing` is `None` when listing the mount root
      raises, which ends the daemon; otherwise the first directory entry,
      if any, is processed. */
  function BootUpCheck(d: Daemon, listing: Option<seq<Entry>>, w: DeviceWorld): (r: Daemon)
    requires d.fault.None?
    ensures |r.trace| >= |d.trace| && r.trace[..|d.trace|] == d.trace
    ensures r.fault == Some(MountRootUnlistable) <==> listing.None?
  {
    match listing
    case None => d.(fault := Some(MountRootUnlistable))
    case Some(entries) =>
      var k := FirstDirectory(entries);
      if k < |entries| then ProcessNewDevice(d, Join(DefaultMountRootPath, entries[k].name), w)
      else d
  }

  /** `monitor_usb`: the start-up check, then the event loop. The daemon
      dies of an unlistable mount root exactly when the start-up listing
      raised, and then before any event is handled. */
  function MonitorUsb(scratch: Option<set<string>>, listing: Option<seq<Entry>>, bootWorld: DeviceWorld,
                      events: seq<(Event, EventWorld)>): (r: Daemon)
    ensures r.fault == Some(MountRootUnlistable) <==> listing.None?
    ensures listing.None? ==> r.trace == [] && r.viewer.None?
  {
    RunEvents(BootUpCheck(Start(scratch), listing, bootWorld), events)
  }

}
