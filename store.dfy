/** The collaborators of the sync cycle, as abstract stores: the local file system
    (ReadLines and WriteLines of history/history.go:9-38, and the removal of the
    temporary download), and the remote file store reached by the client of
    filebrowser/filebrowser.go (Authenticate, DownloadFile, UploadFile). A file is its
    sequence of lines. Whether a call fails is not decided here: every call takes a
    fault that an oracle supplies, and every call is recorded in a trace. */
module Store {
  import opened Lines

  /** A file store: path to lines. */
  type Files = map<string, seq<Line>>

  /** How a ReadLines call goes: the file cannot be opened, or the line scanner stops
      with an error after some lines. */
  datatype ReadFault = ReadOk | OpenFails | ScanFailsAfter(lines: nat)

  /** How a DownloadFile call goes: the request fails before the temporary file is
      created, or the copy into it breaks after some lines. */
  datatype DownloadFault = DownloadOk | RequestFails | CopyFailsAfter(lines: nat)

  /** How a WriteLines call goes: the file cannot be created, or writing the line with
      the given index fails. */
  datatype WriteFault = WriteOk | CreateFails | WriteFailsAt(line: nat)

  /** How an UploadFile call goes once the local file is open. */
  datatype UploadFault = UploadOk | UploadFails

  /** One call to a collaborator, with the paths it names and whether it succeeded. */
  datatype Call =
    | Auth(ok: bool)
    | Download(path: string, tmpPath: string, ok: bool)
    | Read(path: string)
    | Remove(path: string)
    | Write(path: string, lines: seq<Line>, ok: bool)
    | Upload(path: string, localPath: string, ok: bool)

  /** The collaborator a call goes to. */
  datatype CallKind = AuthCall | DownloadCall | ReadCall | RemoveCall | WriteCall | UploadCall

  function KindOf(c: Call): CallKind
  {
    match c
    case Auth(_) => AuthCall
    case Download(_, _, _) => DownloadCall
    case Read(_) => ReadCall
    case Remove(_) => RemoveCall
    case Write(_, _, _) => WriteCall
    case Upload(_, _, _) => UploadCall
  }

  /** The paths named by the calls of one kind, in the order they were made. */
  function PathsOf(trace: seq<Call>, kind: CallKind): seq<string>
  {
    if trace == [] then []
    else
      var last := trace[|trace| - 1];
      PathsOf(trace[..|trace| - 1], kind) + (if !last.Auth? && KindOf(last) == kind then [last.path] else [])
  }

  /** Both stores and the calls made so far. */
  datatype World = World(local: Files, remote: Files, trace: seq<Call>)

  /** The first `n` lines of `s`, or all of them when it has fewer. */
  function Prefix(s: seq<Line>, n: nat): (r: seq<Line>)
    ensures |r| == if n < |s| then n else |s|
    ensures r <= s
  {
    if n < |s| then s[..n] else s
  }

  /** The lines a ReadLines call hands back from an existing file holding `content`:
      none when it cannot be opened, and after a scanner error the lines read before
      it, since the caller ignores the error and keeps those (history/history.go:9-22). */
  function ScanLines(content: seq<Line>, fault: ReadFault): (r: seq<Line>)
    ensures r <= content
    ensures fault.OpenFails? ==> r == []
    ensures fault.ReadOk? ==> r == content
  {
    match fault
    case ReadOk => content
    case OpenFails => []
    case ScanFailsAfter(n) => Prefix(content, n)
  }

  /** The lines ReadLines hands back for `path`: a prefix of the file, nothing when
      it is missing or cannot be opened, all of it on a clean scan, and as many lines
      as were read before a scanner error. */
  function ReadFile(files: Files, path: string, fault: ReadFault): (r: seq<Line>)
    ensures path in files ==> r <= files[path]
    ensures path !in files || fault.OpenFails? ==> r == []
    ensures path in files && fault.ReadOk? ==> r == files[path]
    ensures path in files && fault.ScanFailsAfter? ==>
              |r| == if fault.lines < |files[path]| then fault.lines else |files[path]|
  {
    if path in files then ScanLines(files[path], fault) else []
  }

  /** DownloadFile reports success only for an existing remote file whose copy
      completes (filebrowser/filebrowser.go:96-120). */
  predicate DownloadSucceeds(remote: Files, remotePath: string, fault: DownloadFault)
  {
    remotePath in remote && fault.DownloadOk?
  }

  /** The local store after DownloadFile: the temporary file holds the remote lines, or
      the lines copied before the copy broke. */
  function Downloaded(local: Files, remote: Files, remotePath: string, tmpPath: string,
                      fault: DownloadFault): (r: Files)
    ensures DownloadSucceeds(remote, remotePath, fault) ==> r == local[tmpPath := remote[remotePath]]
    ensures forall p :: p != tmpPath ==> (p in r <==> p in local)
    ensures forall p :: p != tmpPath && p in local ==> r[p] == local[p]
  {
    if remotePath !in remote || fault.RequestFails? then local
    else if fault.CopyFailsAfter? then local[tmpPath := Prefix(remote[remotePath], fault.lines)]
    else local[tmpPath := remote[remotePath]]
  }

  /** WriteLines fails when the file cannot be created or when one of its line writes
      fails; a fault at an index past the last line is never reached. */
  predicate WriteSucceeds(lines: seq<Line>, fault: WriteFault)
  {
    fault.WriteOk? || (fault.WriteFailsAt? && fault.line >= |lines|)
  }

  /** The local store after WriteLines (history/history.go:25-38). The file is truncated
      on creation and written line by line, so a failed line write leaves the lines
      written before it: the write is not atomic. */
  function Written(local: Files, path: string, lines: seq<Line>, fault: WriteFault): (r: Files)
    ensures WriteSucceeds(lines, fault) ==> r == local[path := lines]
    ensures fault.CreateFails? ==> r == local
    ensures !fault.CreateFails? ==> path in r && r[path] <= lines
    ensures forall p :: p != path ==> (p in r <==> p in local)
    ensures forall p :: p != path && p in local ==> r[p] == local[p]
  {
    if fault.CreateFails? then local
    else if WriteSucceeds(lines, fault) then local[path := lines]
    else local[path := lines[..fault.line]]
  }

  /** UploadFile needs the local file to open (filebrowser/filebrowser.go:56-93). */
  predicate UploadSucceeds(local: Files, localPath: string, fault: UploadFault)
  {
    localPath in local && fault.UploadOk?
  }

  /** The remote store after UploadFile: on success the remote file holds whatever
      the local file holds, on failure it is as before, and no other remote file
      changes. */
  function Uploaded(local: Files, remote: Files, remotePath: string, localPath: string,
                    fault: UploadFault): (r: Files)
    ensures UploadSucceeds(local, localPath, fault) ==> remotePath in r && r[remotePath] == local[localPath]
    ensures !UploadSucceeds(local, localPath, fault) ==>
              (remotePath in r <==> remotePath in remote) && (remotePath in remote ==> r[remotePath] == remote[remotePath])
    ensures forall q :: q != remotePath ==> (q in r <==> q in remote)
    ensures forall q :: q != remotePath && q in remote ==> r[q] == remote[q]
  {
    if UploadSucceeds(local, localPath, fault) then remote[remotePath := local[localPath]]
    else remote
  }

  /** The machine the sync loop runs on, with the remote store it talks to. Every
      collaborator call updates the stores as its fault dictates and appends itself
      to the trace. */
  class Host {
    var local: Files
    var remote: Files
    var trace: seq<Call>

    /** The stores and the trace as one value. */
    function State(): World
      reads this
    {
      World(local, remote, trace)
    }

    constructor (local: Files, remote: Files)
      ensures State() == World(local, remote, [])
    {
      this.local := local;
      this.remote := remote;
      this.trace := [];
    }

    /** Client.Authenticate (filebrowser/filebrowser.go:30-53), with its outcome given. */
    method Authenticate(outcome: bool) returns (ok: bool)
      modifies this
      ensures ok == outcome
      ensures State() == old(State()).(trace := old(trace) + [Auth(ok)])
    {
      ok := outcome;
      trace := trace + [Auth(ok)];
    }

    /** Client.DownloadFile (filebrowser/filebrowser.go:96-120): fetch a remote file into
        a local one. */
    method DownloadFile(remotePath: string, localPath: string, fault: DownloadFault) returns (ok: bool)
      modifies this
      ensures ok == DownloadSucceeds(old(remote), remotePath, fault)
      ensures State() == World(Downloaded(old(local), old(remote), remotePath, localPath, fault),
                               old(remote), old(trace) + [Download(remotePath, localPath, ok)])
    {
      ok := DownloadSucceeds(remote, remotePath, fault);
      if remotePath in remote && !fault.RequestFails? {
        var content := remote[remotePath];
        if fault.CopyFailsAfter? {
          content := Prefix(content, fault.lines);
        }
        local := local[localPath := content];
      }
      trace := trace + [Download(remotePath, localPath, ok)];
    }

    /** ReadLines (history/history.go:9-22), its error ignored as every caller does. */
    method ReadLines(path: string, fault: ReadFault) returns (lines: seq<Line>)
      modifies this
      ensures lines == ReadFile(old(local), path, fault)
      ensures State() == old(State()).(trace := old(trace) + [Read(path)])
    {
      lines := ReadFile(local, path, fault);
      trace := trace + [Read(path)];
    }

    /** os.Remove of a local file, its error ignored. */
    method RemoveFile(path: string)
      modifies this
      ensures State() == old(State()).(local := old(local) - {path}, trace := old(trace) + [Remove(path)])
    {
      local := local - {path};
      trace := trace + [Remove(path)];
    }

    /** WriteLines (history/history.go:25-38). */
    method WriteLines(path: string, lines: seq<Line>, fault: WriteFault) returns (ok: bool)
      modifies this
      ensures ok == WriteSucceeds(lines, fault)
      ensures State() == old(State()).(local := Written(old(local), path, lines, fault),
                                       trace := old(trace) + [Write(path, lines, ok)])
    {
      ok := WriteSucceeds(lines, fault);
      if !fault.CreateFails? {
        var written := lines;
        if !ok {
          written := lines[..fault.line];
        }
        local := local[path := written];
      }
      trace := trace + [Write(path, lines, ok)];
    }

    /** Client.UploadFile (filebrowser/filebrowser.go:56-93): publish the local file. */
    method UploadFile(remotePath: string, localPath: string, fault: UploadFault) returns (ok: bool)
      modifies this
      ensures ok == UploadSucceeds(old(local), localPath, fault)
      ensures State() == old(State()).(remote := Uploaded(old(local), old(remote), remotePath, localPath, fault),
                                       trace := old(trace) + [Upload(remotePath, localPath, ok)])
    {
      ok := UploadSucceeds(local, localPath, fault);
      if ok {
        remote := remote[remotePath := local[localPath]];
      }
      trace := trace + [Upload(remotePath, localPath, ok)];
    }
  }
}
