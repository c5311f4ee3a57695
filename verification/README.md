# SignageDisplay decision core, in Dafny

`SignageDisplay.py` is a kiosk daemon. It watches udev for block devices
being added. For each one it asks `lsblk` whether the node is a whole disk
and where it is mounted. It then walks the mount point for the first file
whose name ends in `.pdf`, renders every page into
`/home/pi/working/page_NNNNN.png`, and hands that directory to a
fullscreen `feh` slideshow. The previous `feh` process is terminated
first. At start-up it processes the first directory under `/media/pi`
once, before listening for events.

This project models that decision core as pure functions over an explicit
daemon state and proves what the code guarantees:

- `Daemon` holds the `PROCESS` handle, whether that viewer has already
  been waited for (after which terminating it sends nothing and waiting
  for it returns at once), the file names in the working directory, a
  trace of effects (terminate, search, convert, launch) and the uncaught
  exception that ended the daemon, if any.
- Everything the daemon learns from the outside world is a parameter:
  - the `os.walk` listing (`Walk`);
  - the `lsblk` answers (`QueryResult`);
  - what the PDF library does with the found file (`Document`);
  - whether the old viewer exits within the 10-second wait;
  - the handle `Popen` returns, or `None` when it raises;
  - the `os.listdir` result of the mount root.
- Python's text operations are written out where the decisions depend
  on them: `str.isspace`, `str.strip`, `str.split()`, `str.lower`,
  `str.endswith`, `posixpath.join`, the `05` format spec and `<` on
  strings.

Modules, in dependency order:

- `Options`
- `Text`: Python string operations
- `Words`: `str.split()` and whitespace-delimited occurrences
- `PageNames`: `page_{n:05}.png`
- `Locator`: `find_first_pdf`
- `Render`: `convert_pdf_to_images`
- `Devices`: `is_disk_device` and `get_mount_path`
- `Lifecycle`: `process_new_device`, `start_pdf_slideshow`, `boot_up_check` and `monitor_usb`
- `LifecycleProperties`

The model follows the code as written, including where the daemon is
less careful than a kiosk might wish:

- Only nodes whose `lsblk` type output contains the token `disk` are
  processed. Partitions are not.
- The daemon mounts nothing. It uses whatever mount point `lsblk` reports.
  That may be empty.
- Names starting with `.`, `$` or `~` are not filtered out. There is no
  allow-list of file names.
- A page that fails to render is logged and swallowed. The slideshow
  starts over the pages saved before it.
- An exception from waiting for the old viewer, from `Popen`, from the
  mount-point query or from listing the mount root is not caught. It ends
  the daemon (`Daemon.fault`).
- There is no resume of an existing working directory at start-up.

## Model

| member | source | states |
|---|---|---|
| Text.Strip | SignageDisplay.py:115 | `str.strip()` returns a part of its input that neither starts nor ends with whitespace |
| Text.StripPadded | SignageDisplay.py:124 | stripping any whitespace from around a string without surrounding whitespace gives that string back |
| Words.Split | SignageDisplay.py:115 | every token of `str.split()` is a nonempty, whitespace-free piece no longer than the input |
| Text.StripBounds | SignageDisplay.py:115 | `str.strip()` removes exactly the leading and trailing whitespace: all of it, and no non-whitespace character |
| Words.SplitMembership | SignageDisplay.py:115-116 | a whitespace-free word is among the tokens of `str.split()` exactly when it occurs in the string bounded by whitespace or the string's ends |
| Devices.IsDiskDevice | SignageDisplay.py:112-119 | a disk answer needs output of at least the four characters of `disk`; an exception is "not a disk" (both directions in `Devices.DiskIffDelimitedWord`) |
| Devices.StripKeepsWords | SignageDisplay.py:115 | stripping before splitting neither adds nor removes a whitespace-delimited occurrence of a word |
| Devices.DiskIffDelimitedWord | SignageDisplay.py:112-119 | a node counts as a disk exactly when `lsblk` ran and printed `disk` as a whole word; when the query raises, the answer is "not a disk" |
| Devices.WholeDiskOutput | SignageDisplay.py:114-116 | output that starts with the line `disk` names a disk, whatever partition lines follow |
| Devices.SingleTypeOutput | SignageDisplay.py:114-116 | output that is one type name, such as a partition's `part`, names a disk exactly when that name is `disk` |
| Devices.MountPath | SignageDisplay.py:122-125 | the mount path is no longer than the output and has no surrounding whitespace |
| Devices.MountPathOfLine | SignageDisplay.py:122-125 | a mount point printed on its own line comes back without the line break |
| Devices.DiskWithOneMountedPartition | SignageDisplay.py:122-125 | for a whole disk, whose own line is empty, with one mounted partition, the partition's mount point is returned |
| Devices.DiskWithTwoMountedPartitions | SignageDisplay.py:122-125 | with two mounted partitions both mount points are returned with a line break between them, naming neither directory |
| Devices.UnmountedDeviceHasEmptyPath | SignageDisplay.py:122-125 | when nothing is mounted, the mount path is the empty string |
| Locator.FindFirstPdf | SignageDisplay.py:53-58 | the result is `None` exactly when no file in the walk has a case-insensitive `.pdf` suffix; otherwise it is the joined path of the first such file in walk order |
| Locator.IsPdfName | SignageDisplay.py:56 | a qualifying name has at least four characters, the fourth from last a `.` (the full test is `Locator.PdfNameSuffix`) |
| Locator.PdfNameSuffix | SignageDisplay.py:56 | a name qualifies exactly when its last four characters are `.`, `p`/`P`, `d`/`D`, `f`/`F` |
| Locator.HiddenAndTemporaryNamesQualify | SignageDisplay.py:55-57 | hidden, editor-lock and recycle-bin names ending in `.pdf` qualify; `slides.pdf.bak` and `pdf` do not |
| Lifecycle.FirstDirectory | SignageDisplay.py:135-139 | the start-up check's chosen entry is the first one that is a directory; every earlier entry is not |
| PageNames.Format05 | SignageDisplay.py:73 | the `05` format gives at least five digits, exactly five below 100000 |
| PageNames.PageName | SignageDisplay.py:73 | a page file name is `page_`, the number and `.png`, 14 characters long below page 100000 |
| PageNames.PageNameRoundTrip | SignageDisplay.py:73 | the page number can be read back from every page file name, including numbers of six or more digits |
| PageNames.PageNameInjective | SignageDisplay.py:73 | two pages share a file name only if they are the same page |
| PageNames.PageNameOrder | SignageDisplay.py:70-73 | below 100000 pages, page `n` comes before page `m` exactly when `n`'s file name sorts before `m`'s as a string |
| PageNames.SixDigitPageSortsFirst | SignageDisplay.py:73 | from page 100000 on the padding no longer fixes the width: `page_100000.png` sorts before `page_99999.png` |
| PageNames.SortedListingIsPageOrder | SignageDisplay.py:70-74 | any strictly sorted listing of exactly the names of pages `0..count-1` is those names in page order |
| Render.SavePagesFrom | SignageDisplay.py:70-74 | the page loop adds exactly the names of the pages from `i` up to the first failing page, and finishes without an exception exactly when no page fails |
| Render.ConvertPdfToImages | SignageDisplay.py:61-79 | the working directory ends up holding exactly the pages saved by this call, whatever it held before; the call completes exactly when the file opens and no page fails |
| Render.PageSetSize | SignageDisplay.py:70-74 | `count` saved pages are `count` distinct files |
| Render.CompleteConversionHasEveryPage | SignageDisplay.py:66-75 | a conversion without an exception leaves one file per page of the document |
| Render.FailedConversionKeepsPrefix | SignageDisplay.py:70-79 | when page `k` raises, pages `0..k-1` remain and the failure shows only as an incomplete conversion |
| Render.ConvertedListingInPageOrder | SignageDisplay.py:61-79 | whatever the outcome, up to 100000 saved pages, a sorted listing of the working directory is page order |
| Lifecycle.StartPdfSlideshow | SignageDisplay.py:83-92 | the working directory is untouched; the daemon survives exactly when the launch returns a handle, which is then held as a running viewer and recorded with the `feh` command line and display `:0` |
| Lifecycle.StopOldViewer | SignageDisplay.py:98-101 | the handle and directory are kept; a running viewer gets exactly one termination and, if it does not exit, ends the daemon with the wait timing out on it; a viewer already waited for is left alone; nothing else ends the daemon |
| Lifecycle.ProcessNewDevice | SignageDisplay.py:95-109 | processing only appends to the trace, always appends something, and can end the daemon only by the wait timing out or the launch failing (the cases are `LifecycleProperties.ProcessTimesOut` to `ProcessLaunches`) |
| Lifecycle.HandleEvent | SignageDisplay.py:151-159 | an event that is not a disk `add` changes nothing; otherwise effects are only appended |
| Lifecycle.RunEvents | SignageDisplay.py:151-159 | the loop only appends effects, does nothing once the daemon has died, and never dies of an unlistable mount root |
| Lifecycle.BootUpCheck | SignageDisplay.py:128-140 | the start-up check only appends effects, and dies of an unlistable mount root exactly when the listing raised |
| Lifecycle.MonitorUsb | SignageDisplay.py:143-159 | the daemon dies of an unlistable mount root exactly when the start-up listing raised, and then before doing anything |
| LifecycleProperties.ProcessTimesOut | SignageDisplay.py:98-100 | when the old viewer does not exit within the wait, the daemon sends the termination and dies, changing nothing else |
| LifecycleProperties.ProcessFindsNothing | SignageDisplay.py:98-109 | with no PDF on the device, the old viewer is stopped and the search is the only other effect |
| LifecycleProperties.ProcessLaunchFails | SignageDisplay.py:103-107 | when `Popen` raises, the pages are already converted and the daemon dies, keeping the old handle |
| LifecycleProperties.ProcessLaunches | SignageDisplay.py:95-107 | a successful launch stops the old viewer, searches, converts and launches, in that order, and the new handle replaces the old one |
| LifecycleProperties.OldViewerStoppedFirst | SignageDisplay.py:98-103 | the old viewer's termination is the first effect; the search follows only if the viewer exits in time |
| LifecycleProperties.NoPdfKeepsDisplay | SignageDisplay.py:103-109 | when no file qualifies, the viewer handle and the working directory are unchanged and nothing is converted or launched |
| LifecycleProperties.PdfFoundReplacesViewer | SignageDisplay.py:83-107 | when a file qualifies and the processes cooperate, the first one is converted into a freshly emptied directory and the new viewer replaces the old handle |
| LifecycleProperties.ViewerChangesOnlyOnLaunch | SignageDisplay.py:84-107 | the handle changes only when a PDF was found, and then to the launched viewer, which is the last effect |
| LifecycleProperties.ConversionFailureStillStartsSlideshow | SignageDisplay.py:66-107 | a conversion that raises part-way does not stop the launch; the slideshow shows the pages saved before the failure |
| LifecycleProperties.OnlyDiskAddsAreProcessed | SignageDisplay.py:151-159 | an event changes the daemon exactly when it is an `add` with a device node that `lsblk` reports as a disk |
| LifecycleProperties.OtherEventsAreIgnored | SignageDisplay.py:151-159 | a run of events none of which is a disk `add` leaves the daemon as it was |
| LifecycleProperties.ProcessSearchesOnce | SignageDisplay.py:95-109 | processing a device searches exactly its mount path once, unless the old viewer did not exit in time, and then searches nothing |
| LifecycleProperties.BootProcessesAtMostOneDirectory | SignageDisplay.py:128-140 | the start-up check searches at most one path: the first directory entry under `/media/pi`, joined to it |
| LifecycleProperties.ProcessKeepsSingleViewer | SignageDisplay.py:95-109 | if at most the held viewer was running before processing, the same holds after it |
| LifecycleProperties.RunKeepsSingleViewer | SignageDisplay.py:151-159 | the event loop keeps "every launched viewer except the held one has been sent a termination" |
| LifecycleProperties.MonitorUsbSingleViewer | SignageDisplay.py:143-159 | whatever the devices, documents and processes do, at most one launched viewer is left without a termination, and it is the held one |
| LifecycleProperties.ReinsertionRepeatsDisplay | SignageDisplay.py:95-107 | inserting the same device again terminates the first viewer and repeats the same search and conversion, leaving the same working directory; whatever handle the second launch returns is the one held |
| LifecycleProperties.ReapedViewerIsNotSignalled | SignageDisplay.py:98-103 | a viewer already waited for is not signalled again and cannot time out: processing goes straight to the search |
| LifecycleProperties.NoPdfThenNextDeviceCannotTimeOut | SignageDisplay.py:98-109 | after a device without a PDF the stopped viewer is still held; the next device neither signals it nor can die waiting for it |

## Left out

- `verify_signature` (lines 28-50) is never called by the daemon, so it is not modelled.
- Rasterization is left out. The pixmap, its resolution and the image bytes are not modelled. The PDF library is an oracle: either the file does not open, or it opens with a page count and possibly one failing page.
- Sleeps (`time.sleep(15)`, `time.sleep(5)`) and logging have no effect on the decisions, so they are not modelled.
- The `DISPLAY` environment variable is recorded as part of the launch effect. The rest of the environment copy is not modelled.
- `shutil.rmtree` and `os.makedirs` raising are not modelled. The working directory is taken to be emptied and recreated.
- A page file that is only partly written when saving raises is not modelled. Such a file is not in the working directory's model.
- `os.walk`'s own traversal order and its error handling are not modelled. The walk is an input listing.
- File names and mount paths are strings of Unicode scalar values. A name holding undecodable bytes, which `os.walk` passes on as lone surrogates (`b'\xff.pdf'` arrives as `'\udcff.pdf'`), cannot be written down, so no modelled walk contains one. The suffix test would treat such a name like any other, since only its last four characters matter.
- `Text.LowerChar` lower-cases ASCII letters only. Python's `str.lower` also maps other letters, but no other character lower-cases to `.`, `p`, `d` or `f`, so the `.pdf` test gives the same answer.
- `feh`'s own sort order of the working directory is not modelled. The model proves that a listing sorted by code point is page order.
- The udev subscription is not modelled. `monitor.poll` blocking and `iter(..., None)` ending are replaced by a finite list of events.
- Concurrency with the viewer process is not modelled. Its lifetime appears only as the terminate and launch effects in the trace.
- A running viewer that exited on its own before the next device is still recorded as sent a termination. Its exit is not observed until the wait.
- `LifecycleProperties.MonitorUsbSingleViewer`: "left running" means "launched and not yet sent a termination", and the held viewer counts only until it has been waited for. A viewer that ignores the termination signal but exits within the wait is indistinguishable from one that honours it.
- `Devices.WholeDiskOutput`: covers output beginning with `disk` followed by a line break. `Devices.DiskIffDelimitedWord` covers every other layout.
