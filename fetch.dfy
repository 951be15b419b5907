/** The per-file download of `Collection._get_file` (cgls_land.py:262-292) and the
    gathering of the per-file results in `Collection.download`
    (cgls_land.py:241-260). The network becomes a parameter: the reply the
    server gives to the GET of a URL. The file system becomes a `Disk` object
    whose map from paths to contents the download updates in place. */
module Fetch {
  import opened Wrappers
  import opened Text

  /** One entry of `download_list`: the URL, the file name and the sub-path of a file. */
  datatype Task = Task(url: string, fileName: string, intPath: string)

  /** What the GET of a URL gives. */
  datatype Reply =
    | HttpError   // raise_for_status raises HTTPError: _get_file returns None
    | Failure     // any other exception (no connection, content-length not an integer): it propagates
    | Body(contentLength: Option<int>, chunks: seq<seq<bv8>>)  // the declared size, if any, and the streamed blocks

  /** A value `_get_file` returns. */
  datatype Value =
    | NoneValue                 // `return` after an HTTP error
    | PathValue(path: string)   // the local path of the file
    | SizeMismatch(fileName: string)  // the Exception object returned, not raised, on a size mismatch

  /** How a `_get_file` call ends: it raises, or it returns a value. */
  datatype Outcome = Raised | Returned(value: Value)

  /** The file system: the contents of every regular file, by path. */
  class Disk {
    var files: map<string, seq<bv8>>

    constructor(files: map<string, seq<bv8>>)
      ensures this.files == files
    {
      this.files := files;
    }
  }

  /** `os.path.join(self.path, file_name)`. */
  function LocalPath(dir: string, fileName: string): string
  {
    PosixJoin([dir, fileName])
  }

  /** `int(r.headers.get('content-length', 0))`. */
  function DeclaredSize(contentLength: Option<int>): int
  {
    contentLength.GetOr(0)
  }

  /** The bytes of the streamed blocks, in order. */
  function Streamed(chunks: seq<seq<bv8>>): seq<bv8>
  {
    if |chunks| == 0 then [] else Streamed(chunks[..|chunks| - 1]) + chunks[|chunks| - 1]
  }

  /** The skip test: a regular file at `path` whose size is the declared size. */
  predicate AlreadyThere(files: map<string, seq<bv8>>, path: string, total: int)
  {
    path in files && |files[path]| == total
  }

  /** What `_get_file(url, file_name)` ends with, given the reply to the GET of `url`. */
  function FileOutcome(files: map<string, seq<bv8>>, dir: string, fileName: string, reply: Reply): (r: Outcome)
    ensures r.Raised? <==> reply.Failure?
    ensures r == Returned(NoneValue) <==> reply.HttpError?
    ensures r.Returned? && r.value.PathValue? ==> r.value.path == LocalPath(dir, fileName)
    ensures r.Returned? && r.value.SizeMismatch? ==> r.value.fileName == fileName
  {
    var path := LocalPath(dir, fileName);
    match reply
    case HttpError => Returned(NoneValue)
    case Failure => Raised
    case Body(contentLength, chunks) =>
      if AlreadyThere(files, path, DeclaredSize(contentLength)) then Returned(PathValue(path))
      else if DeclaredSize(contentLength) != |Streamed(chunks)| then Returned(SizeMismatch(fileName))
      else Returned(PathValue(path))
  }

  /** The file system after `_get_file(url, file_name)`. */
  function FilesAfter(files: map<string, seq<bv8>>, dir: string, fileName: string, reply: Reply): (r: map<string, seq<bv8>>)
    ensures r.Keys == if reply.Body? then files.Keys + {LocalPath(dir, fileName)} else files.Keys
  {
    var path := LocalPath(dir, fileName);
    match reply
    case Body(contentLength, chunks) =>
      if AlreadyThere(files, path, DeclaredSize(contentLength)) then files
      else files[path := Streamed(chunks)]
    case _ => files
  }

  /** `_get_file`: skip a file already there with the declared size, otherwise
      write the streamed blocks one after the other and compare the byte count
      with the declared size. */
  method GetFile(disk: Disk, dir: string, fileName: string, reply: Reply) returns (o: Outcome)
    modifies disk
    ensures o == FileOutcome(old(disk.files), dir, fileName, reply)
    ensures disk.files == FilesAfter(old(disk.files), dir, fileName, reply)
  {
    var path := LocalPath(dir, fileName);
    if reply.HttpError? {
      return Returned(NoneValue);
    }
    if reply.Failure? {
      return Raised;
    }
    var total := DeclaredSize(reply.contentLength);
    if path in disk.files && |disk.files[path]| == total {
      return Returned(PathValue(path));
    }
    var chunks := reply.chunks;
    ghost var before := disk.files;
    disk.files := disk.files[path := []];
    var downloaded := 0;
    var i := 0;
    while i < |chunks|
      invariant 0 <= i <= |chunks|
      invariant disk.files == before[path := Streamed(chunks[..i])]
      invariant downloaded == |Streamed(chunks[..i])|
    {
      assert chunks[..i + 1][..i] == chunks[..i];
      disk.files := disk.files[path := disk.files[path] + chunks[i]];
      downloaded := downloaded + |chunks[i]|;
      i := i + 1;
    }
    assert chunks[..i] == chunks;
    if total != downloaded {
      return Returned(SizeMismatch(fileName));
    }
    return Returned(PathValue(path));
  }

  /** The size check: a path is returned only when the file at that path has the
      declared size, and a size mismatch leaves a file of another size. */
  lemma {:induction false} ReturnedPathHasDeclaredSize(files: map<string, seq<bv8>>, dir: string, fileName: string,
                                                       reply: Reply)
    requires reply.Body?
    ensures var after := FilesAfter(files, dir, fileName, reply);
      var path := LocalPath(dir, fileName);
      var total := DeclaredSize(reply.contentLength);
      && (FileOutcome(files, dir, fileName, reply) == Returned(PathValue(path)) <==>
            path in after && |after[path]| == total)
      && (FileOutcome(files, dir, fileName, reply) == Returned(SizeMismatch(fileName)) <==>
            path in after && |after[path]| != total)
  {
  }

  /** A file is written only when it is not already there with the declared
      size, and then it holds exactly the streamed bytes; nothing else changes. */
  lemma {:induction false} WritesOnlyItsFile(files: map<string, seq<bv8>>, dir: string, fileName: string, reply: Reply)
    ensures var after := FilesAfter(files, dir, fileName, reply);
      var path := LocalPath(dir, fileName);
      && (forall p :: p != path ==> (p in after <==> p in files) && (p in files ==> after[p] == files[p]))
      && (after != files ==> reply.Body? && !AlreadyThere(files, path, DeclaredSize(reply.contentLength)))
      && (reply.Body? && !AlreadyThere(files, path, DeclaredSize(reply.contentLength)) ==>
            after[path] == Streamed(reply.chunks))
  {
  }

  /** Downloading a file a second time, with the same reply, after a download
      that returned its path, skips it: the same path comes back and the file
      system does not change. */
  lemma {:induction false} RepeatDownloadIsNoOp(files: map<string, seq<bv8>>, dir: string, fileName: string,
                                                reply: Reply)
    requires FileOutcome(files, dir, fileName, reply).Returned?
    requires FileOutcome(files, dir, fileName, reply).value.PathValue?
    ensures var after := FilesAfter(files, dir, fileName, reply);
      && FileOutcome(after, dir, fileName, reply) == FileOutcome(files, dir, fileName, reply)
      && FilesAfter(after, dir, fileName, reply) == after
  {
    ReturnedPathHasDeclaredSize(files, dir, fileName, reply);
  }

  // ---------------------------------------------------------------------------
  // Gathering the results

  /** The values that reach `downloaded_list`: those of the calls that return,
      `None` and the size-mismatch Exception objects included; a call that
      raises is reported and dropped. */
  function Kept(outcomes: seq<Outcome>): (r: seq<Value>)
    ensures |r| <= |outcomes|
  {
    if |outcomes| == 0 then []
    else
      var init := Kept(outcomes[..|outcomes| - 1]);
      match outcomes[|outcomes| - 1]
      case Raised => init
      case Returned(v) => init + [v]
  }

  /** Each value occurs in `downloaded_list` as often as a call returned it. */
  lemma {:induction false} KeptCount(outcomes: seq<Outcome>, v: Value)
    ensures multiset(Kept(outcomes))[v] == multiset(outcomes)[Returned(v)]
    decreases |outcomes|
  {
    if |outcomes| > 0 {
      var n := |outcomes|;
      var init, last := outcomes[..n - 1], outcomes[n - 1];
      KeptCount(init, v);
      assert outcomes == init + [last];
      assert multiset(outcomes) == multiset(init) + multiset{last};
      if last.Returned? {
        assert Kept(outcomes) == Kept(init) + [last.value];
        assert multiset(Kept(outcomes)) == multiset(Kept(init)) + multiset{last.value};
      }
    }
  }

  /** The order in which the calls complete does not change what is gathered, up to order. */
  lemma {:induction false} KeptOrderIndependent(a: seq<Outcome>, b: seq<Outcome>)
    requires multiset(a) == multiset(b)
    ensures multiset(Kept(a)) == multiset(Kept(b))
  {
    forall v
      ensures multiset(Kept(a))[v] == multiset(Kept(b))[v]
    {
      KeptCount(a, v);
      KeptCount(b, v);
    }
  }

  /** Nothing is gathered exactly when every call raised. */
  lemma {:induction false} KeptEmpty(outcomes: seq<Outcome>)
    ensures |Kept(outcomes)| == 0 <==> forall i :: 0 <= i < |outcomes| ==> outcomes[i] == Raised
    decreases |outcomes|
  {
    if |outcomes| > 0 {
      var n := |outcomes|;
      KeptEmpty(outcomes[..n - 1]);
      assert forall i :: 0 <= i < n - 1 ==> outcomes[..n - 1][i] == outcomes[i];
    }
  }

  /** The outcomes of the calls for all tasks, in submission order, and the file system after them. */
  datatype Run = Run(outcomes: seq<Outcome>, files: map<string, seq<bv8>>)

  function RunAll(files: map<string, seq<bv8>>, dir: string, tasks: seq<Task>, server: string -> Reply): (r: Run)
    ensures |r.outcomes| == |tasks|
  {
    if |tasks| == 0 then Run([], files)
    else
      var prev := RunAll(files, dir, tasks[..|tasks| - 1], server);
      var t := tasks[|tasks| - 1];
      Run(prev.outcomes + [FileOutcome(prev.files, dir, t.fileName, server(t.url))],
          FilesAfter(prev.files, dir, t.fileName, server(t.url)))
  }

  /** The outcome of a task is the outcome of `_get_file` on its URL and file
      name, against the file system the earlier tasks left. */
  lemma {:induction false} RunAllAt(files: map<string, seq<bv8>>, dir: string, tasks: seq<Task>,
                                    server: string -> Reply, i: nat)
    requires i < |tasks|
    ensures RunAll(files, dir, tasks, server).outcomes[i] ==
              FileOutcome(RunAll(files, dir, tasks[..i], server).files, dir, tasks[i].fileName, server(tasks[i].url))
    decreases |tasks|
  {
    var n := |tasks|;
    if i < n - 1 {
      RunAllAt(files, dir, tasks[..n - 1], server, i);
      assert tasks[..n - 1][..i] == tasks[..i];
    } else {
      assert tasks[..i] == tasks[..n - 1];
    }
  }

  /** The tasks submitted to the pool, run one after the other, their returned
      values gathered in completion order (here: submission order). */
  method RunTasks(disk: Disk, dir: string, tasks: seq<Task>, server: string -> Reply) returns (downloaded: seq<Value>)
    modifies disk
    ensures downloaded == Kept(RunAll(old(disk.files), dir, tasks, server).outcomes)
    ensures disk.files == RunAll(old(disk.files), dir, tasks, server).files
  {
    ghost var start := disk.files;
    downloaded := [];
    var i := 0;
    while i < |tasks|
      invariant 0 <= i <= |tasks|
      invariant disk.files == RunAll(start, dir, tasks[..i], server).files
      invariant downloaded == Kept(RunAll(start, dir, tasks[..i], server).outcomes)
    {
      assert tasks[..i + 1][..i] == tasks[..i];
      var o := GetFile(disk, dir, tasks[i].fileName, server(tasks[i].url));
      if o.Returned? {
        downloaded := downloaded + [o.value];
      }
      i := i + 1;
    }
    assert tasks[..i] == tasks;
  }
}
