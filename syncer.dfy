/** The sync engine of syncer/syncer.go: the authentication gate, the tick/stop loop,
    one pass over the configured history files, and for each file the cycle
    download, read, merge, filter, write, upload. Each method is proved equal to a
    function of the state it starts from; SyncerLemmas states what those functions
    guarantee. */
module Syncer {
  import opened Wrappers
  import opened Lines
  import opened History
  import opened Filter
  import opened Store

  /** One configured history file (HistoryConfig in config/config.go:22-25). */
  datatype HistoryTarget = HistoryTarget(path: string, shell: string)

  /** The oracle's answers for one target's cycle, one fault per collaborator call. */
  datatype Faults = Faults(download: DownloadFault, tmpRead: ReadFault, localRead: ReadFault,
                           write: WriteFault, upload: UploadFault)

  /** A cycle in which every call succeeds. */
  const NoFaults: Faults := Faults(DownloadOk, ReadOk, ReadOk, WriteOk, UploadOk)

  /** What the loop's `select` sees next: the interval timer, carrying the faults of the
      pass it starts (one per target, in order), or the stop signal. */
  datatype Event = Tick(faults: seq<Faults>) | Stop

  /** The temporary file a download goes to (syncer/syncer.go:37). */
  function TmpPath(path: string): (t: string)
    ensures t != path
  {
    path + ".remote.tmp"
  }

  /** The condition on which the cycle drops a line: FilterLine matched it and gave
      back the empty string (syncer/syncer.go:57). */
  predicate Dropped<M>(f: SecretFilter<M>, matches: (M, string) -> bool, line: Line)
  {
    var (result, matched) := FilterLine(f, matches, line);
    matched && result == ""
  }

  /** The lines the cycle keeps, as a predicate for Keep. */
  function NotDropped<M>(f: SecretFilter<M>, matches: (M, string) -> bool): Line -> bool
  {
    x => !Dropped(f, matches, x)
  }

  /** The text FilterLine gives back for a line, as a function for MapLines. */
  function FilteredText<M>(f: SecretFilter<M>, matches: (M, string) -> bool): Line -> Line
  {
    x => FilterLine(f, matches, x).0
  }

  /** The paths of the configured targets, in order. */
  function TargetPaths(targets: seq<HistoryTarget>): (r: seq<string>)
    ensures |r| == |targets| && forall i :: 0 <= i < |targets| ==> r[i] == targets[i].path
  {
    seq(|targets|, i requires 0 <= i < |targets| => targets[i].path)
  }

  /** What one merged line contributes to the written sequence (syncer/syncer.go:56-65). */
  function Contribution<M>(filter: Option<SecretFilter<M>>, matches: (M, string) -> bool, line: Line): seq<Line>
  {
    if filter.None? then [line]
    else if Dropped(filter.value, matches, line) then []
    else [FilterLine(filter.value, matches, line).0]
  }

  /** The sequence the cycle writes for the merged lines. */
  function FilterLines<M>(filter: Option<SecretFilter<M>>, matches: (M, string) -> bool, lines: seq<Line>): seq<Line>
  {
    if lines == [] then []
    else FilterLines(filter, matches, lines[..|lines| - 1]) + Contribution(filter, matches, lines[|lines| - 1])
  }

  /** The inline filter loop of syncer/syncer.go:54-67, appending to `filtered`. */
  method ApplyFilter<M>(filter: Option<SecretFilter<M>>, matches: (M, string) -> bool, merged: seq<Line>)
    returns (filtered: seq<Line>)
    ensures filtered == FilterLines(filter, matches, merged)
  {
    filtered := [];
    for i := 0 to |merged|
      invariant filtered == FilterLines(filter, matches, merged[..i])
    {
      var line := merged[i];
      assert merged[..i + 1][..i] == merged[..i];
      if filter.Some? {
        var (filteredLine, blocked) := FilterLine(filter.value, matches, line);
        if blocked && filteredLine == "" {
          continue;
        } else if blocked {
          filtered := filtered + [filteredLine];
        } else {
          filtered := filtered + [filteredLine];
        }
      } else {
        filtered := filtered + [line];
      }
    }
    assert merged[..|merged|] == merged;
  }

  /** The remote lines the cycle merges: the downloaded copy as read back from the
      temporary file, or nothing when the download failed (syncer/syncer.go:36-45). */
  function RemoteLines(w: World, path: string, f: Faults): seq<Line>
  {
    if DownloadSucceeds(w.remote, path, f.download) then ScanLines(w.remote[path], f.tmpRead) else []
  }

  /** The local lines the cycle merges (syncer/syncer.go:47-48). */
  function LocalLines(w: World, path: string, f: Faults): seq<Line>
  {
    ReadFile(w.local, path, f.localRead)
  }

  /** The lines the cycle writes and uploads: the filtered merge. */
  function CycleContent<M>(w: World, path: string, filter: Option<SecretFilter<M>>,
                           matches: (M, string) -> bool, f: Faults): seq<Line>
  {
    FilterLines(filter, matches, Merge(LocalLines(w, path, f), RemoteLines(w, path, f)))
  }

  /** The state after one target's cycle (syncer/syncer.go:33-78), call by call: the
      temporary file is read and removed only after a successful download, and the
      upload follows the write whether or not the write succeeded. */
  function Cycle<M>(w: World, target: HistoryTarget, filter: Option<SecretFilter<M>>,
                    matches: (M, string) -> bool, f: Faults): World
  {
    var path := target.path;
    var tmp := TmpPath(path);
    var downloaded := DownloadSucceeds(w.remote, path, f.download);
    var afterDownload := Downloaded(w.local, w.remote, path, tmp, f.download);
    var remoteLines := if downloaded then ReadFile(afterDownload, tmp, f.tmpRead) else [];
    var beforeRead := if downloaded then afterDownload - {tmp} else afterDownload;
    var localLines := ReadFile(beforeRead, path, f.localRead);
    var content := FilterLines(filter, matches, Merge(localLines, remoteLines));
    var afterWrite := Written(beforeRead, path, content, f.write);
    World(afterWrite, Uploaded(afterWrite, w.remote, path, path, f.upload),
          w.trace + CycleTrace(path, tmp, downloaded, content, WriteSucceeds(content, f.write),
                               UploadSucceeds(afterWrite, path, f.upload)))
  }

  /** The calls of one cycle, in the order the cycle makes them. */
  function CycleTrace(path: string, tmp: string, downloaded: bool, content: seq<Line>,
                      written: bool, uploaded: bool): seq<Call>
  {
    [Download(path, tmp, downloaded)]
      + (if downloaded then [Read(tmp), Remove(tmp)] else [])
      + [Read(path), Write(path, content, written), Upload(path, path, uploaded)]
  }

  /** The faults for the target at index `i`; a missing entry means no fault. */
  function FaultsAt(faults: seq<Faults>, i: nat): Faults
  {
    if i < |faults| then faults[i] else NoFaults
  }

  /** The state after the cycles of targets `i` and on, in configuration order
      (syncer/syncer.go:32-78). */
  function PassFrom<M>(w: World, targets: seq<HistoryTarget>, filter: Option<SecretFilter<M>>,
                       matches: (M, string) -> bool, faults: seq<Faults>, i: nat): World
    decreases |targets| - i
  {
    if i >= |targets| then w
    else PassFrom(Cycle(w, targets[i], filter, matches, FaultsAt(faults, i)), targets, filter, matches, faults, i + 1)
  }

  /** The state after one full pass over the targets. */
  function Pass<M>(w: World, targets: seq<HistoryTarget>, filter: Option<SecretFilter<M>>,
                   matches: (M, string) -> bool, faults: seq<Faults>): World
  {
    PassFrom(w, targets, filter, matches, faults, 0)
  }

  /** The state after the authenticated loop has seen `events`: a tick runs a pass, the
      stop signal ends the loop (syncer/syncer.go:25-80). */
  function RunLoop<M>(w: World, targets: seq<HistoryTarget>, filter: Option<SecretFilter<M>>,
                      matches: (M, string) -> bool, events: seq<Event>): World
    decreases |events|
  {
    if events == [] then w
    else match events[0]
      case Stop => w
      case Tick(faults) => RunLoop(Pass(w, targets, filter, matches, faults), targets, filter, matches, events[1..])
  }

  /** The state after SyncLoop (syncer/syncer.go:15-81): authenticate once, and loop
      only if that succeeded. */
  function Loop<M>(w: World, targets: seq<HistoryTarget>, filter: Option<SecretFilter<M>>,
                   matches: (M, string) -> bool, authOk: bool, events: seq<Event>): World
  {
    var authenticated := w.(trace := w.trace + [Auth(authOk)]);
    if authOk then RunLoop(authenticated, targets, filter, matches, events) else authenticated
  }

  /** The number of ticks before the first stop signal. */
  function PassesRun(events: seq<Event>): nat
  {
    if events == [] || events[0].Stop? then 0 else 1 + PassesRun(events[1..])
  }

  /** The first half of a cycle (syncer/syncer.go:37-45): download the remote copy into
      the temporary file and, only if that succeeded, read it back and remove it. */
  method FetchRemote(host: Host, path: string, faults: Faults) returns (downloaded: bool, remoteLines: seq<Line>)
    modifies host
    ensures var tmp := TmpPath(path);
      var afterDownload := Downloaded(old(host.local), old(host.remote), path, tmp, faults.download);
      && downloaded == DownloadSucceeds(old(host.remote), path, faults.download)
      && remoteLines == (if downloaded then ReadFile(afterDownload, tmp, faults.tmpRead) else [])
      && host.local == (if downloaded then afterDownload - {tmp} else afterDownload)
      && host.remote == old(host.remote)
      && host.trace == old(host.trace) + [Download(path, tmp, downloaded)]
                       + (if downloaded then [Read(tmp), Remove(tmp)] else [])
  {
    var tmpRemote := TmpPath(path);
    downloaded := host.DownloadFile(path, tmpRemote, faults.download);
    remoteLines := [];
    if downloaded {
      remoteLines := host.ReadLines(tmpRemote, faults.tmpRead);
      host.RemoveFile(tmpRemote);
    }
  }

  /** The second half of a cycle (syncer/syncer.go:70-77): write the filtered lines
      over the local file, then upload it whether or not the write succeeded. */
  method PublishLocal(host: Host, path: string, content: seq<Line>, faults: Faults)
    returns (written: bool, uploaded: bool)
    modifies host
    ensures written == WriteSucceeds(content, faults.write)
    ensures host.local == Written(old(host.local), path, content, faults.write)
    ensures uploaded == UploadSucceeds(host.local, path, faults.upload)
    ensures host.remote == Uploaded(host.local, old(host.remote), path, path, faults.upload)
    ensures host.trace == old(host.trace) + [Write(path, content, written), Upload(path, path, uploaded)]
  {
    written := host.WriteLines(path, content, faults.write);
    uploaded := host.UploadFile(path, path, faults.upload);
  }

  /** One target's cycle (syncer/syncer.go:33-78). */
  method SyncTarget<M>(host: Host, target: HistoryTarget, filter: Option<SecretFilter<M>>,
                       matches: (M, string) -> bool, faults: Faults)
    modifies host
    ensures host.State() == Cycle(old(host.State()), target, filter, matches, faults)
  {
    ghost var w := host.State();
    var path := target.path;
    var downloaded, remoteLines := FetchRemote(host, path, faults);
    var localLines := host.ReadLines(path, faults.localRead);
    var merged := MergeHistories(localLines, remoteLines);
    var filtered := ApplyFilter(filter, matches, merged);
    var written, uploaded := PublishLocal(host, path, filtered, faults);
    CycleTraceSplit(w.trace, path, TmpPath(path), downloaded, filtered, written, uploaded);
  }

  /** CycleTrace is the download, the optional temporary-file calls, the local read,
      then the write and the upload. */
  lemma CycleTraceSplit(t: seq<Call>, path: string, tmp: string, downloaded: bool, content: seq<Line>,
                        written: bool, uploaded: bool)
    ensures t + CycleTrace(path, tmp, downloaded, content, written, uploaded)
         == (((t + [Download(path, tmp, downloaded)]) + (if downloaded then [Read(tmp), Remove(tmp)] else []))
             + [Read(path)]) + [Write(path, content, written), Upload(path, path, uploaded)]
  {
  }

  /** One pass over the configured targets, in order (syncer/syncer.go:32-78). */
  method SyncPass<M>(host: Host, targets: seq<HistoryTarget>, filter: Option<SecretFilter<M>>,
                     matches: (M, string) -> bool, faults: seq<Faults>)
    modifies host
    ensures host.State() == Pass(old(host.State()), targets, filter, matches, faults)
  {
    for i := 0 to |targets|
      invariant PassFrom(host.State(), targets, filter, matches, faults, i)
             == Pass(old(host.State()), targets, filter, matches, faults)
    {
      SyncTarget(host, targets[i], filter, matches, FaultsAt(faults, i));
    }
  }

  /** SyncLoop (syncer/syncer.go:15-81): returns the number of passes it ran. */
  method SyncLoop<M>(host: Host, targets: seq<HistoryTarget>, filter: Option<SecretFilter<M>>,
                     matches: (M, string) -> bool, authOk: bool, events: seq<Event>)
    returns (passes: nat)
    modifies host
    ensures host.State() == Loop(old(host.State()), targets, filter, matches, authOk, events)
    ensures passes == if authOk then PassesRun(events) else 0
  {
    passes := 0;
    var ok := host.Authenticate(authOk);
    if !ok {
      return;
    }
    ghost var start := host.State();
    var i := 0;
    while i < |events|
      invariant 0 <= i <= |events|
      invariant RunLoop(host.State(), targets, filter, matches, events[i..])
             == RunLoop(start, targets, filter, matches, events)
      invariant passes + PassesRun(events[i..]) == PassesRun(events)
    {
      RunLoopStep(host.State(), targets, filter, matches, events, i);
      match events[i] {
        case Stop =>
          return;
        case Tick(faults) =>
          SyncPass(host, targets, filter, matches, faults);
          passes := passes + 1;
      }
      i := i + 1;
    }
  }

  /** RunLoop and PassesRun on the events from index `i`: a stop ends both, a tick
      runs one pass and moves on. */
  lemma RunLoopStep<M>(w: World, targets: seq<HistoryTarget>, filter: Option<SecretFilter<M>>,
                       matches: (M, string) -> bool, events: seq<Event>, i: nat)
    requires i < |events|
    ensures events[i].Stop? ==>
      && RunLoop(w, targets, filter, matches, events[i..]) == w
      && PassesRun(events[i..]) == 0
    ensures events[i].Tick? ==>
      && RunLoop(w, targets, filter, matches, events[i..])
         == RunLoop(Pass(w, targets, filter, matches, events[i].faults), targets, filter, matches, events[i + 1..])
      && PassesRun(events[i..]) == 1 + PassesRun(events[i + 1..])
  {
    assert events[i..][1..] == events[i + 1..];
  }
}
