/** What the sync engine guarantees: properties of the functions the methods of
    Syncer are proved equal to. */
module SyncerLemmas {
  import opened Wrappers
  import opened Lines
  import opened History
  import opened Filter
  import opened Store
  import opened Syncer

  // ---------------------------------------------------------------- filter application

  /** Without a filter the merged lines are written as they are (syncer/syncer.go:64-65). */
  lemma {:induction false} FilterLinesDisabled<M>(matches: (M, string) -> bool, lines: seq<Line>)
    ensures FilterLines(None, matches, lines) == lines
  {
    if lines != [] {
      FilterLinesDisabled(matches, lines[..|lines| - 1]);
      assert lines == lines[..|lines| - 1] + [lines[|lines| - 1]];
    }
  }

  /** With a filter the written lines are FilterLine's results for the lines it does not
      drop, in merged order: an image of a subsequence (syncer/syncer.go:54-63). */
  lemma {:induction false} FilterLinesImage<M>(f: SecretFilter<M>, matches: (M, string) -> bool, lines: seq<Line>)
    ensures FilterLines(Some(f), matches, lines)
         == MapLines(Keep(lines, NotDropped(f, matches)), FilteredText(f, matches))
  {
    if lines != [] {
      var init, y := lines[..|lines| - 1], lines[|lines| - 1];
      assert lines == init + [y];
      FilterLinesImage(f, matches, init);
      FilterLinesImageStep(f, matches, init, y);
    }
  }

  /** The inductive step of FilterLinesImage: one more merged line. */
  lemma FilterLinesImageStep<M>(f: SecretFilter<M>, matches: (M, string) -> bool, init: seq<Line>, y: Line)
    requires FilterLines(Some(f), matches, init)
          == MapLines(Keep(init, NotDropped(f, matches)), FilteredText(f, matches))
    ensures FilterLines(Some(f), matches, init + [y])
         == MapLines(Keep(init + [y], NotDropped(f, matches)), FilteredText(f, matches))
  {
    var keep, text := NotDropped(f, matches), FilteredText(f, matches);
    FilterLinesSnoc(Some(f), matches, init, y);
    KeepSnoc(init, y, keep);
    MapLinesAppend(Keep(init, keep), if keep(y) then [y] else [], text);
    ContributionImage(f, matches, y);
  }

  /** FilterLines over one more merged line. */
  lemma FilterLinesSnoc<M>(filter: Option<SecretFilter<M>>, matches: (M, string) -> bool, s: seq<Line>, y: Line)
    ensures FilterLines(filter, matches, s + [y]) == FilterLines(filter, matches, s) + Contribution(filter, matches, y)
  {
    assert (s + [y])[..|s|] == s;
  }

  /** What one line contributes under a filter, as an image of a subsequence. */
  lemma ContributionImage<M>(f: SecretFilter<M>, matches: (M, string) -> bool, y: Line)
    ensures Contribution(Some(f), matches, y)
         == MapLines(if NotDropped(f, matches)(y) then [y] else [], FilteredText(f, matches))
  {
  }

  /** Under "redact" no line is dropped; each written line is the merged line or, when
      some pattern matches it, the marker (syncer/syncer.go:54-67, filter/filter.go:28-29). */
  lemma {:induction false} FilterLinesRedact<M>(f: SecretFilter<M>, matches: (M, string) -> bool, lines: seq<Line>)
    requires f.action == Redact
    ensures |FilterLines(Some(f), matches, lines)| == |lines|
    ensures forall i :: 0 <= i < |lines| ==>
      FilterLines(Some(f), matches, lines)[i]
        == if AnyMatch(f.patterns, matches, lines[i]) then RedactedMarker else lines[i]
  {
    if lines != [] {
      var init, y := lines[..|lines| - 1], lines[|lines| - 1];
      assert lines == init + [y];
      FilterLinesRedact(f, matches, init);
      FilterLinesSnoc(Some(f), matches, init, y);
    }
  }

  /** Under "block" exactly the lines no pattern matches are written, in merged order,
      so no written line matches a pattern (syncer/syncer.go:57-58, filter/filter.go:30-31). */
  lemma {:induction false} FilterLinesBlock<M>(f: SecretFilter<M>, matches: (M, string) -> bool, lines: seq<Line>)
    requires f.action == Block
    ensures FilterLines(Some(f), matches, lines) == Keep(lines, NotMatching(f.patterns, matches))
    ensures forall i :: 0 <= i < |FilterLines(Some(f), matches, lines)| ==>
      !AnyMatch(f.patterns, matches, FilterLines(Some(f), matches, lines)[i])
  {
    if lines != [] {
      var init, y := lines[..|lines| - 1], lines[|lines| - 1];
      assert lines == init + [y];
      FilterLinesBlock(f, matches, init);
      FilterLinesSnoc(Some(f), matches, init, y);
      KeepSnoc(init, y, NotMatching(f.patterns, matches));
    }
    var r := FilterLines(Some(f), matches, lines);
    forall i | 0 <= i < |r| ensures !AnyMatch(f.patterns, matches, r[i]) {
      assert r[i] in r;
    }
  }

  /** With an action other than "redact" or "block" nothing is filtered, even when
      patterns match (filter/filter.go:26-35). */
  lemma {:induction false} FilterLinesOtherAction<M>(f: SecretFilter<M>, matches: (M, string) -> bool, lines: seq<Line>)
    requires f.action != Redact && f.action != Block
    ensures FilterLines(Some(f), matches, lines) == lines
  {
    if lines != [] {
      var init, y := lines[..|lines| - 1], lines[|lines| - 1];
      assert lines == init + [y];
      FilterLinesOtherAction(f, matches, init);
      FilterLinesSnoc(Some(f), matches, init, y);
    }
  }

  // ---------------------------------------------------------------- one cycle

  /** The cycle reads the local file as it was before the cycle, and the remote lines
      it reads back are those of the remote file (syncer/syncer.go:36-48). */
  lemma CycleReads<M>(w: World, target: HistoryTarget, filter: Option<SecretFilter<M>>,
                      matches: (M, string) -> bool, f: Faults)
    ensures var p, tmp := target.path, TmpPath(target.path);
      var downloaded := DownloadSucceeds(w.remote, p, f.download);
      var afterDownload := Downloaded(w.local, w.remote, p, tmp, f.download);
      && (downloaded ==> ReadFile(afterDownload, tmp, f.tmpRead) == RemoteLines(w, p, f))
      && ReadFile(if downloaded then afterDownload - {tmp} else afterDownload, p, f.localRead)
         == LocalLines(w, p, f)
  {
  }

  /** The calls one cycle makes, in order: download, then (after a successful download)
      reading and removing the temporary file, reading the local file, writing the
      filtered merge, and uploading, which follows the write even when the write
      failed (syncer/syncer.go:33-78). */
  lemma CycleCalls<M>(w: World, target: HistoryTarget, filter: Option<SecretFilter<M>>,
                      matches: (M, string) -> bool, f: Faults)
    ensures var p, tmp := target.path, TmpPath(target.path);
      var c := Cycle(w, target, filter, matches, f);
      var content := CycleContent(w, p, filter, matches, f);
      var downloaded := DownloadSucceeds(w.remote, p, f.download);
      c.trace == w.trace + CycleTrace(p, tmp, downloaded, content, WriteSucceeds(content, f.write),
                                      UploadSucceeds(c.local, p, f.upload))
  {
    CycleReads(w, target, filter, matches, f);
  }

  /** The files after one cycle. The local file holds the filtered merge when the write
      succeeds, is untouched when it cannot be created, and holds a prefix of the
      merge after a failed line write; the remote file receives whatever the local file
      then holds; the temporary file is gone after a successful download, left behind
      by a broken copy and untouched when nothing was downloaded; no other file changes
      (syncer/syncer.go:36-77). */
  lemma CycleFiles<M>(w: World, target: HistoryTarget, filter: Option<SecretFilter<M>>,
                      matches: (M, string) -> bool, f: Faults)
    ensures var p, tmp := target.path, TmpPath(target.path);
      var c := Cycle(w, target, filter, matches, f);
      var content := CycleContent(w, p, filter, matches, f);
      && c.remote == Uploaded(c.local, w.remote, p, p, f.upload)
      && (WriteSucceeds(content, f.write) ==> p in c.local && c.local[p] == content)
      && (!f.write.CreateFails? ==> p in c.local && c.local[p] <= content)
      && (f.write.CreateFails? ==> (p in c.local <==> p in w.local)
                                   && (p in w.local ==> c.local[p] == w.local[p]))
      && (DownloadSucceeds(w.remote, p, f.download) ==> tmp !in c.local)
      && (p in w.remote && f.download.CopyFailsAfter? ==>
            tmp in c.local && c.local[tmp] == Prefix(w.remote[p], f.download.lines))
      && (p !in w.remote || f.download.RequestFails? ==>
            (tmp in c.local <==> tmp in w.local) && (tmp in w.local ==> c.local[tmp] == w.local[tmp]))
      && (forall q :: q != p && q != tmp ==> (q in c.local <==> q in w.local))
      && (forall q :: q != p && q != tmp && q in w.local ==> c.local[q] == w.local[q])
  {
    CycleReads(w, target, filter, matches, f);
  }

  /** A failed download, or a temporary file that cannot be read, leaves only the local
      lines to merge (syncer/syncer.go:38-45). */
  lemma CycleWithoutRemote<M>(w: World, path: string, filter: Option<SecretFilter<M>>,
                              matches: (M, string) -> bool, f: Faults)
    requires !DownloadSucceeds(w.remote, path, f.download) || f.tmpRead.OpenFails?
    ensures CycleContent(w, path, filter, matches, f)
         == FilterLines(filter, matches, Dedup(LocalLines(w, path, f)))
  {
    MergeWithEmpty(LocalLines(w, path, f), []);
  }

  /** A local file that is missing or cannot be opened leaves only the remote lines to
      merge (syncer/syncer.go:47-48). */
  lemma CycleWithoutLocal<M>(w: World, path: string, filter: Option<SecretFilter<M>>,
                             matches: (M, string) -> bool, f: Faults)
    requires path !in w.local || f.localRead.OpenFails?
    ensures CycleContent(w, path, filter, matches, f)
         == FilterLines(filter, matches, Dedup(RemoteLines(w, path, f)))
  {
    MergeWithEmpty([], RemoteLines(w, path, f));
  }

  /** When every call succeeds, both copies end up holding the filtered merge of the
      two copies as they were. */
  lemma CycleWithoutFaults<M>(w: World, target: HistoryTarget, filter: Option<SecretFilter<M>>,
                              matches: (M, string) -> bool)
    ensures var p := target.path;
      var c := Cycle(w, target, filter, matches, NoFaults);
      var content := FilterLines(filter, matches,
                                 Merge(if p in w.local then w.local[p] else [],
                                       if p in w.remote then w.remote[p] else []));
      && p in c.local && c.local[p] == content
      && p in c.remote && c.remote[p] == content
  {
    CycleFiles(w, target, filter, matches, NoFaults);
  }

  /** The upload is not skipped after a failed write: when the local file cannot be
      created, the copy it held before the cycle is published (syncer/syncer.go:70-77). */
  lemma CyclePublishesStaleCopy<M>(w: World, target: HistoryTarget, filter: Option<SecretFilter<M>>,
                                   matches: (M, string) -> bool, f: Faults)
    requires f.write.CreateFails? && f.upload.UploadOk?
    requires target.path in w.local
    ensures var c := Cycle(w, target, filter, matches, f);
      && c.trace[|c.trace| - 1] == Upload(target.path, target.path, true)
      && c.remote == w.remote[target.path := w.local[target.path]]
  {
    CycleCalls(w, target, filter, matches, f);
    CycleFiles(w, target, filter, matches, f);
  }

  // ---------------------------------------------------------------- passes and the loop

  /** The calls each store sees per target: one download, one write, one upload. */
  predicate PerTargetKind(kind: CallKind)
  {
    kind == DownloadCall || kind == WriteCall || kind == UploadCall
  }

  /** Projecting a trace extended by one call. */
  lemma PathsOfSnoc(a: seq<Call>, c: Call, kind: CallKind)
    ensures PathsOf(a + [c], kind) == PathsOf(a, kind) + (if !c.Auth? && KindOf(c) == kind then [c.path] else [])
  {
    assert (a + [c])[..|a|] == a;
  }

  /** Projecting a trace onto the calls of one kind distributes over concatenation. */
  lemma {:induction false} PathsOfAppend(a: seq<Call>, b: seq<Call>, kind: CallKind)
    ensures PathsOf(a + b, kind) == PathsOf(a, kind) + PathsOf(b, kind)
  {
    if b != [] {
      var init, last := b[..|b| - 1], b[|b| - 1];
      assert b == init + [last];
      PathsOfAppend(a, init, kind);
      PathsOfAppendStep(a, init, last, kind);
    } else {
      assert a + b == a;
    }
  }

  /** The inductive step of PathsOfAppend: one more call at the end of `b`. */
  lemma PathsOfAppendStep(a: seq<Call>, init: seq<Call>, last: Call, kind: CallKind)
    requires PathsOf(a + init, kind) == PathsOf(a, kind) + PathsOf(init, kind)
    ensures PathsOf(a + (init + [last]), kind) == PathsOf(a, kind) + PathsOf(init + [last], kind)
  {
    AppendAssoc(a, init, [last]);
    PathsOfSnoc(a + init, last, kind);
    PathsOfSnoc(init, last, kind);
    AppendAssoc(PathsOf(a, kind), PathsOf(init, kind), if !last.Auth? && KindOf(last) == kind then [last.path] else []);
  }

  /** One cycle downloads, writes and uploads its own path exactly once, whatever fails. */
  lemma CyclePaths<M>(w: World, target: HistoryTarget, filter: Option<SecretFilter<M>>,
                      matches: (M, string) -> bool, f: Faults, kind: CallKind)
    requires PerTargetKind(kind)
    ensures PathsOf(Cycle(w, target, filter, matches, f).trace, kind) == PathsOf(w.trace, kind) + [target.path]
  {
    var p := target.path;
    var c := Cycle(w, target, filter, matches, f);
    var content := CycleContent(w, p, filter, matches, f);
    var downloaded := DownloadSucceeds(w.remote, p, f.download);
    var written, uploaded := WriteSucceeds(content, f.write), UploadSucceeds(c.local, p, f.upload);
    CycleCalls(w, target, filter, matches, f);
    CycleTracePaths(p, TmpPath(p), downloaded, content, written, uploaded, kind);
    PathsOfAppend(w.trace, CycleTrace(p, TmpPath(p), downloaded, content, written, uploaded), kind);
  }

  /** The calls of one cycle name its path once per kind, whatever their outcomes. */
  lemma CycleTracePaths(p: string, tmp: string, downloaded: bool, content: seq<Line>,
                        written: bool, uploaded: bool, kind: CallKind)
    requires PerTargetKind(kind)
    ensures PathsOf(CycleTrace(p, tmp, downloaded, content, written, uploaded), kind) == [p]
  {
    var t := [Download(p, tmp, downloaded)] + (if downloaded then [Read(tmp), Remove(tmp)] else []);
    FetchPaths(p, tmp, downloaded, kind);
    PublishPaths(t, p, content, written, uploaded, kind);
  }

  /** The download and temporary-file calls name the path once, as a download. */
  lemma FetchPaths(p: string, tmp: string, downloaded: bool, kind: CallKind)
    requires PerTargetKind(kind)
    ensures PathsOf([Download(p, tmp, downloaded)] + (if downloaded then [Read(tmp), Remove(tmp)] else []), kind)
         == if kind == DownloadCall then [p] else []
  {
    var d := Download(p, tmp, downloaded);
    PathsOfSnoc([], d, kind);
    assert [] + [d] == [d];
    if downloaded {
      PathsOfSnoc([d], Read(tmp), kind);
      PathsOfSnoc([d, Read(tmp)], Remove(tmp), kind);
      assert [d] + [Read(tmp)] == [d, Read(tmp)];
      assert [d, Read(tmp)] + [Remove(tmp)] == [d] + [Read(tmp), Remove(tmp)];
    } else {
      assert [d] + [] == [d];
    }
  }

  /** The local read, the write and the upload add the path once as a write and once
      as an upload. */
  lemma PublishPaths(t: seq<Call>, p: string, content: seq<Line>, written: bool, uploaded: bool,
                     kind: CallKind)
    requires PerTargetKind(kind)
    ensures PathsOf(t + [Read(p), Write(p, content, written), Upload(p, p, uploaded)], kind)
         == PathsOf(t, kind) + (if kind == WriteCall then [p] else []) + (if kind == UploadCall then [p] else [])
  {
    var wr := Write(p, content, written);
    assert t + [Read(p), wr, Upload(p, p, uploaded)] == t + [Read(p)] + [wr] + [Upload(p, p, uploaded)];
    PathsOfSnoc(t, Read(p), kind);
    PathsOfSnoc(t + [Read(p)], wr, kind);
    PathsOfSnoc(t + [Read(p)] + [wr], Upload(p, p, uploaded), kind);
  }

  /** A pass from target `i` on handles targets `i` and on in configuration order, each
      with one download, write and upload, a failure for one never stopping the next
      (syncer/syncer.go:32-78). */
  lemma {:induction false} PassFromPaths<M>(w: World, targets: seq<HistoryTarget>, filter: Option<SecretFilter<M>>,
                                            matches: (M, string) -> bool, faults: seq<Faults>, i: nat, kind: CallKind)
    requires PerTargetKind(kind) && i <= |targets|
    ensures PathsOf(PassFrom(w, targets, filter, matches, faults, i).trace, kind)
         == PathsOf(w.trace, kind) + TargetPaths(targets)[i..]
    decreases |targets| - i
  {
    if i < |targets| {
      var c := Cycle(w, targets[i], filter, matches, FaultsAt(faults, i));
      CyclePaths(w, targets[i], filter, matches, FaultsAt(faults, i), kind);
      PassFromPaths(c, targets, filter, matches, faults, i + 1, kind);
      SuffixCons(TargetPaths(targets), i);
    }
  }

  /** A full pass downloads, writes and uploads every configured path once, in order. */
  lemma PassPaths<M>(w: World, targets: seq<HistoryTarget>, filter: Option<SecretFilter<M>>,
                     matches: (M, string) -> bool, faults: seq<Faults>, kind: CallKind)
    requires PerTargetKind(kind)
    ensures PathsOf(Pass(w, targets, filter, matches, faults).trace, kind)
         == PathsOf(w.trace, kind) + TargetPaths(targets)
  {
    PassFromPaths(w, targets, filter, matches, faults, 0, kind);
  }

  /** Every tick before the stop signal runs one full pass (syncer/syncer.go:25-31). */
  lemma {:induction false} RunLoopPaths<M>(w: World, targets: seq<HistoryTarget>, filter: Option<SecretFilter<M>>,
                                           matches: (M, string) -> bool, events: seq<Event>, kind: CallKind)
    requires PerTargetKind(kind)
    ensures PathsOf(RunLoop(w, targets, filter, matches, events).trace, kind)
         == PathsOf(w.trace, kind) + Repeat(TargetPaths(targets), PassesRun(events))
    decreases |events|
  {
    if events != [] && events[0].Tick? {
      var next := Pass(w, targets, filter, matches, events[0].faults);
      assert RunLoop(w, targets, filter, matches, events) == RunLoop(next, targets, filter, matches, events[1..]);
      assert PassesRun(events) == 1 + PassesRun(events[1..]);
      PassPaths(w, targets, filter, matches, events[0].faults, kind);
      RunLoopPaths(next, targets, filter, matches, events[1..], kind);
    }
  }

  /** A failed authentication ends the loop before any pass: one call, no download and
      no upload, both stores untouched (syncer/syncer.go:19-23). */
  lemma LoopAuthFailure<M>(w: World, targets: seq<HistoryTarget>, filter: Option<SecretFilter<M>>,
                           matches: (M, string) -> bool, events: seq<Event>)
    ensures var l := Loop(w, targets, filter, matches, false, events);
      && l == w.(trace := w.trace + [Auth(false)])
      && PathsOf(l.trace, DownloadCall) == PathsOf(w.trace, DownloadCall)
      && PathsOf(l.trace, UploadCall) == PathsOf(w.trace, UploadCall)
  {
    PathsOfAppend(w.trace, [Auth(false)], DownloadCall);
    PathsOfAppend(w.trace, [Auth(false)], UploadCall);
  }

  /** After a successful authentication the loop runs one full pass per tick seen before
      the stop signal (syncer/syncer.go:17-80). */
  lemma LoopPaths<M>(w: World, targets: seq<HistoryTarget>, filter: Option<SecretFilter<M>>,
                     matches: (M, string) -> bool, events: seq<Event>, kind: CallKind)
    requires PerTargetKind(kind)
    ensures PathsOf(Loop(w, targets, filter, matches, true, events).trace, kind)
         == PathsOf(w.trace, kind) + Repeat(TargetPaths(targets), PassesRun(events))
  {
    PathsOfAppend(w.trace, [Auth(true)], kind);
    RunLoopPaths(w.(trace := w.trace + [Auth(true)]), targets, filter, matches, events, kind);
  }

  /** Once the stop signal is seen no further pass starts: what follows it changes
      nothing (syncer/syncer.go:27-29). */
  lemma {:induction false} RunLoopStops<M>(w: World, targets: seq<HistoryTarget>, filter: Option<SecretFilter<M>>,
                                           matches: (M, string) -> bool, before: seq<Event>, after: seq<Event>)
    ensures RunLoop(w, targets, filter, matches, before + [Stop] + after)
         == RunLoop(w, targets, filter, matches, before)
    ensures PassesRun(before + [Stop] + after) == PassesRun(before)
    decreases |before|
  {
    if before != [] {
      assert (before + [Stop] + after)[1..] == before[1..] + [Stop] + after;
      if before[0].Tick? {
        RunLoopStops(Pass(w, targets, filter, matches, before[0].faults), targets, filter, matches, before[1..], after);
      }
    }
  }

  /** The same for the whole SyncLoop, authentication included. */
  lemma LoopStops<M>(w: World, targets: seq<HistoryTarget>, filter: Option<SecretFilter<M>>,
                     matches: (M, string) -> bool, authOk: bool, before: seq<Event>, after: seq<Event>)
    ensures Loop(w, targets, filter, matches, authOk, before + [Stop] + after)
         == Loop(w, targets, filter, matches, authOk, before)
  {
    RunLoopStops(w.(trace := w.trace + [Auth(authOk)]), targets, filter, matches, before, after);
  }

  // ---------------------------------------------------------------- the worked example

  /** The example's stores: two machines share `cd /tmp`; the other one ran `rm -rf /tmp/x`. */
  function ExampleWorld(path: string): World
  {
    World(map[path := ["ls -la", "cd /tmp"]], map[path := ["cd /tmp", "rm -rf /tmp/x"]], [])
  }

  /** Without a filter all three lines are written (syncer/syncer.go:51-67). */
  lemma CycleExampleUnfiltered<M>(path: string, matches: (M, string) -> bool)
    ensures Cycle(ExampleWorld(path), HistoryTarget(path, "bash"), None, matches, NoFaults).local[path]
         == ["ls -la", "cd /tmp", "rm -rf /tmp/x"]
  {
    MergeExample();
    FilterLinesDisabled(matches, ["ls -la", "cd /tmp", "rm -rf /tmp/x"]);
    CycleWithoutFaults(ExampleWorld(path), HistoryTarget(path, "bash"), None, matches);
  }

  /** The filter line values of the example: `rm` stands for the compiled pattern
      `rm -rf`, which matches only the last line. */
  lemma ExampleMatches<M>(rm: M, matches: (M, string) -> bool, action: string)
    requires matches(rm, "rm -rf /tmp/x")
    requires !matches(rm, "ls -la") && !matches(rm, "cd /tmp")
    ensures AnyMatch([rm], matches, "rm -rf /tmp/x")
    ensures !AnyMatch([rm], matches, "ls -la") && !AnyMatch([rm], matches, "cd /tmp")
  {
    assert [rm][0] == rm;
  }

  /** Under "block" the `rm` line is dropped (syncer/syncer.go:51-67). */
  lemma CycleExampleBlock<M>(path: string, rm: M, matches: (M, string) -> bool)
    requires matches(rm, "rm -rf /tmp/x")
    requires !matches(rm, "ls -la") && !matches(rm, "cd /tmp")
    ensures Cycle(ExampleWorld(path), HistoryTarget(path, "bash"), Some(SecretFilter([rm], Block)), matches, NoFaults).local[path]
         == ["ls -la", "cd /tmp"]
  {
    var f := SecretFilter([rm], Block);
    var merged: seq<Line> := ["ls -la", "cd /tmp", "rm -rf /tmp/x"];
    MergeExample();
    ExampleMatches(rm, matches, Block);
    assert merged[..2] == ["ls -la", "cd /tmp"] && merged[..2][..1] == ["ls -la"] && merged[..1][..0] == [];
    assert FilterLines(Some(f), matches, merged[..1]) == ["ls -la"];
    assert FilterLines(Some(f), matches, merged[..2]) == ["ls -la", "cd /tmp"];
    assert FilterLines(Some(f), matches, merged) == ["ls -la", "cd /tmp"];
    CycleWithoutFaults(ExampleWorld(path), HistoryTarget(path, "bash"), Some(f), matches);
  }

  /** Under "redact" the `rm` line is replaced by the marker (syncer/syncer.go:51-67). */
  lemma CycleExampleRedact<M>(path: string, rm: M, matches: (M, string) -> bool)
    requires matches(rm, "rm -rf /tmp/x")
    requires !matches(rm, "ls -la") && !matches(rm, "cd /tmp")
    ensures Cycle(ExampleWorld(path), HistoryTarget(path, "bash"), Some(SecretFilter([rm], Redact)), matches, NoFaults).local[path]
         == ["ls -la", "cd /tmp", RedactedMarker]
  {
    var f := SecretFilter([rm], Redact);
    var merged: seq<Line> := ["ls -la", "cd /tmp", "rm -rf /tmp/x"];
    MergeExample();
    ExampleMatches(rm, matches, Redact);
    FilterLinesRedact(f, matches, merged);
    var r := FilterLines(Some(f), matches, merged);
    assert r == [r[0], r[1], r[2]];
    CycleWithoutFaults(ExampleWorld(path), HistoryTarget(path, "bash"), Some(f), matches);
  }
}
