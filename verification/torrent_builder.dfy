/** The `torrent` package (torrent/torrent.go): a builder that collects
    files, turns them into an info dictionary rooted at "music", sorts the
    file list, hashes the content stream into pieces and writes the
    metainfo. File-system stats, the content stream that `writeFiles`
    produces, SHA-1, bencoding and the output file are parameters. */
module TorrentBuilder {
  import opened Wrappers
  import opened Text
  import opened Paths
  import opened Metainfo
  import opened Pieces

  /** `torrentFsBase`: the name every info dictionary gets. */
  const TorrentFsBase: string := "music"

  /** The `CreatedBy` value `New` writes. */
  const CreatedBy: string := "github.com/concretelabs/milkdud"

  /** The state behind the `TorrentFile` interface. */
  datatype TorrentFile = TorrentFile(
    totalFileSizeBytes: int,
    root: string,
    paths: map<string, int>,
    files: seq<FileInfo>,
    announce: seq<string>,
    mi: MetaInfo,
    logOutput: bool)

  /** `New(root, comment, announce, logOutput)`; `now` is the Unix time read
      from the clock. */
  function New(root: string, comment: string, announce: seq<string>, logOutput: bool, now: int): (tf: TorrentFile)
    ensures |tf.mi.announceList| == |announce|
    ensures forall k :: 0 <= k < |announce| ==> tf.mi.announceList[k] == [announce[k]]
    ensures tf.mi.comment == comment && tf.mi.createdBy == CreatedBy && tf.mi.creationDate == now
    ensures tf.root == root && tf.announce == announce
    ensures tf.totalFileSizeBytes == 0 && tf.paths == map[] && tf.files == []
  {
    var tiers := AnnounceTiers(announce);
    assert forall k :: 0 <= k < |announce| ==> tiers[k] == [announce[k]] by {
      forall k | 0 <= k < |announce| {
        AnnounceTierAt(announce, k);
      }
    }
    TorrentFile(0, root, map[], [], announce, MetaInfo([], tiers, comment, CreatedBy, now), logOutput)
  }

  /** `AddFile` panics when `filepath.Rel` fails. */
  datatype AddFilePanic = RelPanic(path: string)

  /** `AddFile(path, size)`: records the relative path, adds `size` to the
      running total and appends an entry whose only path is `path` itself. */
  function AddFile(tf: TorrentFile, path: string, size: int): (r: Result<TorrentFile, AddFilePanic>)
    ensures r.Failure? <==> Rel(tf.root, path).None?
    ensures r.Success? ==>
      && r.value.totalFileSizeBytes == tf.totalFileSizeBytes + size
      && r.value.files == tf.files + [FileInfo(size, [path])]
      && r.value.paths == tf.paths[Rel(tf.root, path).value := size]
      && r.value.root == tf.root && r.value.mi == tf.mi && r.value.announce == tf.announce
  {
    match Rel(tf.root, path)
    case None => Failure(RelPanic(path))
    case Some(rel) =>
      Success(tf.(
        paths := tf.paths[rel := size],
        totalFileSizeBytes := tf.totalFileSizeBytes + size,
        files := tf.files + [FileInfo(size, [path])]))
  }

  /** A (path, size) pair handed to `AddFile`. */
  datatype Added = Added(path: string, size: int)

  function SumSizes(entries: seq<Added>): int {
    if |entries| == 0 then 0 else SumSizes(entries[..|entries| - 1]) + entries[|entries| - 1].size
  }

  /** Successive `AddFile` calls, stopping at the first panic. */
  function AddFiles(tf: TorrentFile, entries: seq<Added>): Result<TorrentFile, AddFilePanic>
    decreases |entries|
  {
    if |entries| == 0 then Success(tf)
    else
      match AddFiles(tf, entries[..|entries| - 1])
      case Failure(e) => Failure(e)
      case Success(t) => AddFile(t, entries[|entries| - 1].path, entries[|entries| - 1].size)
  }

  /** After a run of `AddFile` calls the total has grown by the sum of all
      sizes and the file list has one entry per call, in call order. */
  lemma {:induction false} AddFilesAccumulate(tf: TorrentFile, entries: seq<Added>)
    ensures var r := AddFiles(tf, entries);
      r.Success? ==>
        && r.value.totalFileSizeBytes == tf.totalFileSizeBytes + SumSizes(entries)
        && |r.value.files| == |tf.files| + |entries|
        && r.value.files[..|tf.files|] == tf.files
        && forall k :: 0 <= k < |entries| ==>
             r.value.files[|tf.files| + k] == FileInfo(entries[k].size, [entries[k].path])
    decreases |entries|
  {
    if |entries| > 0 {
      var init := entries[..|entries| - 1];
      AddFilesAccumulate(tf, init);
      var r := AddFiles(tf, entries);
      if r.Success? {
        AddFilesLast(tf, entries);
        forall k | 0 <= k < |entries|
          ensures r.value.files[|tf.files| + k] == FileInfo(entries[k].size, [entries[k].path])
        {
          if k < |entries| - 1 {
            assert init[k] == entries[k];
          }
        }
      }
    }
  }

  /** A successful run of `AddFile` calls is a successful run of all but
      the last, followed by the last. */
  lemma AddFilesLast(tf: TorrentFile, entries: seq<Added>)
    requires |entries| > 0 && AddFiles(tf, entries).Success?
    ensures var last := entries[|entries| - 1];
      && AddFiles(tf, entries[..|entries| - 1]).Success?
      && AddFiles(tf, entries).value.totalFileSizeBytes
           == AddFiles(tf, entries[..|entries| - 1]).value.totalFileSizeBytes + last.size
      && AddFiles(tf, entries).value.files
           == AddFiles(tf, entries[..|entries| - 1]).value.files + [FileInfo(last.size, [last.path])]
  {
  }

  /** What `os.Stat` reports for a path. */
  datatype Stat = Exists(size: int) | NotExist | StatFailed

  /** Why `buildFromPathList` stops. `NilFileInfo` is the nil-pointer panic
      of calling `Size` on the missing result of a failed stat. */
  datatype BuildError = PathDoesNotExist(path: string) | RelFailed(path: string) | NilFileInfo(path: string)

  /** The paths of the entries that hold exactly one path, in order: the
      only entries `buildFromPathList` looks at. */
  function SinglePaths(files: seq<FileInfo>): (ps: seq<string>)
    ensures |ps| <= |files|
  {
    if |files| == 0 then []
    else (if |files[0].path| == 1 then [files[0].path[0]] else []) + SinglePaths(files[1..])
  }

  /** What a run of the loop of `buildFromPathList` promises: everything
      but the file list and the single length is left alone and earlier
      files are kept; when the root is not among the entries, each entry
      with one path adds a file whose segments are that path relative to
      the root split at the separator, with the size `os.Stat` reports. */
  predicate BuildOutcome(files: seq<FileInfo>, root: string, stat: string -> Stat, info: Info, r: Result<Info, BuildError>) {
    && (r.Success? ==>
      && r.value.(files := [], length := 0) == info.(files := [], length := 0)
      && |info.files| <= |r.value.files|
      && r.value.files[..|info.files|] == info.files)
    && (r.Success? && root !in SinglePaths(files) ==>
      && r.value.length == info.length
      && |r.value.files| == |info.files| + |SinglePaths(files)|
      && Pairwise(Made(root, stat), SinglePaths(files), r.value.files, |info.files|))
  }

  /** When the loop of `buildFromPathList` fails: exactly when an entry it
      cannot take comes before the root's own entry. */
  predicate BuildFailsWhen(files: seq<FileInfo>, root: string, stat: string -> Stat, r: Result<Info, BuildError>) {
    r.Failure? <==> FailsBefore(Fatal(root, stat), SinglePaths(files), root)
  }

  /** The single paths the loop cannot take: a missing or empty path, one
      whose stat fails (the nil-pointer panic), and, below the root, one
      `filepath.Rel` cannot relate to the root. */
  function Fatal(root: string, stat: string -> Stat): string -> bool {
    p => stat(p) == NotExist || p == "" || stat(p).StatFailed? || (p != root && Rel(root, p).None?)
  }

  /** Scanning `ps` in order meets a `fatal` path before it meets the
      root. */
  predicate FailsBefore(fatal: string -> bool, ps: seq<string>, root: string)
    decreases |ps|
  {
    |ps| > 0 && (fatal(ps[0]) || (ps[0] != root && FailsBefore(fatal, ps[1..], root)))
  }

  /** Some path in `ps` is `fatal` and the root is not among the paths
      before it. */
  predicate FatalBeforeRoot(fatal: string -> bool, ps: seq<string>, root: string) {
    exists i :: 0 <= i < |ps| && fatal(ps[i]) && root !in ps[..i]
  }

  /** The scan and the search agree. */
  lemma {:induction false} FailsBeforeSome(fatal: string -> bool, ps: seq<string>, root: string)
    ensures FailsBefore(fatal, ps, root) <==> FatalBeforeRoot(fatal, ps, root)
    decreases |ps|
  {
    if |ps| > 0 {
      FailsBeforeSome(fatal, ps[1..], root);
      if FailsBefore(fatal, ps, root) {
        if fatal(ps[0]) {
          assert ps[..0] == [];
        } else {
          var i :| 0 <= i < |ps[1..]| && fatal(ps[1..][i]) && root !in ps[1..][..i];
          assert ps[..i + 1] == [ps[0]] + ps[1..][..i];
          assert ps[i + 1] == ps[1..][i];
        }
      }
      if exists i :: 0 <= i < |ps| && fatal(ps[i]) && root !in ps[..i] {
        var i :| 0 <= i < |ps| && fatal(ps[i]) && root !in ps[..i];
        if !fatal(ps[0]) {
          assert i > 0 && ps[..i][0] == ps[0];
          assert ps[..i] == [ps[0]] + ps[1..][..i - 1];
          assert ps[1..][i - 1] == ps[i];
        }
      }
    }
  }

  /** Each path in `ps` is related by `ok` to the file at the same place
      from `n` on in `out`. */
  predicate Pairwise(ok: (string, FileInfo) -> bool, ps: seq<string>, out: seq<FileInfo>, n: nat) {
    && n + |ps| <= |out|
    && forall k :: 0 <= k < |ps| ==> ok(ps[k], out[n + k])
  }

  /** `FileFor` for this root and these stats. */
  function Made(root: string, stat: string -> Stat): (string, FileInfo) -> bool {
    (p, f) => FileFor(root, stat, p, f)
  }

  /** The file the loop makes of the entry with the one path `p`: its
      segments are `p` relative to the root, split at the separator, and its
      length is the size `os.Stat` reports. */
  predicate FileFor(root: string, stat: string -> Stat, p: string, f: FileInfo) {
    && Rel(root, p).Some?
    && f.path == Split(Rel(root, p).value, Separator)
    && stat(p) == Exists(f.length)
  }

  /** A built file's segments, joined below the root, give back the entry's
      path in cleaned form. */
  lemma FileForJoinsBack(root: string, stat: string -> Stat, p: string, f: FileInfo)
    requires FileFor(root, stat, p, f)
    ensures Join(root, JoinWith(f.path, Separator)) == Clean(p)
  {
    RelRoundTrip(root, p);
  }

  /** The loop of `buildFromPathList` over the remaining entries. */
  function BuildFiles(files: seq<FileInfo>, root: string, stat: string -> Stat, info: Info): (r: Result<Info, BuildError>)
    ensures BuildOutcome(files, root, stat, info, r)
    ensures BuildFailsWhen(files, root, stat, r)
    decreases |files|
  {
    if |files| == 0 then Success(info)
    else
      var f := files[0];
      if |f.path| != 1 then
        var r := BuildFiles(files[1..], root, stat, info);
        SkipStep(files, root, stat, info, r);
        SkipFails(files, root, stat, r);
        r
      else
        var p := f.path[0];
        var st := stat(p);
        if st == NotExist || |p| == 0 then
          FailsHere(files, root, stat, info, PathDoesNotExist(p));
          Failure(PathDoesNotExist(p))
        else if p == root then
          if st.StatFailed? then
            FailsHere(files, root, stat, info, NilFileInfo(p));
            Failure(NilFileInfo(p))
          else
            StopsHere(files, root, stat, info, st.size);
            Success(info.(length := st.size))
        else
          match Rel(root, p)
          case None =>
            FailsHere(files, root, stat, info, RelFailed(p));
            Failure(RelFailed(p))
          case Some(rel) =>
            if st.StatFailed? then
              FailsHere(files, root, stat, info, NilFileInfo(p));
              Failure(NilFileInfo(p))
            else
              var entry := FileInfo(st.size, Split(rel, Separator));
              var r := BuildFiles(files[1..], root, stat, info.(files := info.files + [entry]));
              AppendStep(files, root, stat, info, entry, r);
              AppendFails(files, root, stat, r);
              r
  }

  /** A first entry the loop cannot take fails the whole loop. */
  lemma FailsHere(files: seq<FileInfo>, root: string, stat: string -> Stat, info: Info, e: BuildError)
    requires |files| > 0 && |files[0].path| == 1 && Fatal(root, stat)(files[0].path[0])
    ensures BuildFailsWhen(files, root, stat, Failure(e))
  {
    var p := files[0].path[0];
    assert SinglePaths(files) == [p] + SinglePaths(files[1..]);
    assert SinglePaths(files)[0] == p;
  }

  /** A first entry naming the root, with a size, ends the loop with that
      size as the single length. */
  lemma StopsHere(files: seq<FileInfo>, root: string, stat: string -> Stat, info: Info, size: int)
    requires |files| > 0 && files[0].path == [root] && root != "" && stat(root) == Exists(size)
    ensures BuildFailsWhen(files, root, stat, Success(info.(length := size)))
  {
    assert SinglePaths(files) == [root] + SinglePaths(files[1..]);
    assert SinglePaths(files)[0] == root;
  }

  /** An entry without exactly one path leaves the outcome of the rest as
      it is. */
  lemma SkipStep(files: seq<FileInfo>, root: string, stat: string -> Stat, info: Info, r: Result<Info, BuildError>)
    requires |files| > 0 && |files[0].path| != 1
    requires BuildOutcome(files[1..], root, stat, info, r)
    ensures BuildOutcome(files, root, stat, info, r)
  {
    assert SinglePaths(files) == [] + SinglePaths(files[1..]);
    assert [] + SinglePaths(files[1..]) == SinglePaths(files[1..]);
  }

  /** An entry below the root that becomes `entry` extends the outcome of
      the rest by that one file. */
  lemma AppendStep(files: seq<FileInfo>, root: string, stat: string -> Stat, info: Info, entry: FileInfo,
                   r: Result<Info, BuildError>)
    requires |files| > 0 && |files[0].path| == 1
    requires Made(root, stat)(files[0].path[0], entry)
    requires BuildOutcome(files[1..], root, stat, info.(files := info.files + [entry]), r)
    ensures BuildOutcome(files, root, stat, info, r)
  {
    var p := files[0].path[0];
    assert SinglePaths(files) == [p] + SinglePaths(files[1..]);
    if r.Success? {
      PrefixSplit(info.files, entry, r.value.files);
      if root !in SinglePaths(files) {
        PairwiseStep(Made(root, stat), p, SinglePaths(files[1..]), info.files, entry, r.value.files);
      }
    }
  }

  /** The files made for the entries after the first, placed after the
      file made for the first, pair up with all the entries. */
  lemma PairwiseStep(ok: (string, FileInfo) -> bool, p: string, rest: seq<string>,
                     xs: seq<FileInfo>, x: FileInfo, out: seq<FileInfo>)
    requires ok(p, x) && |xs| + 1 <= |out| && out[..|xs| + 1] == xs + [x]
    requires Pairwise(ok, rest, out, |xs| + 1)
    ensures Pairwise(ok, [p] + rest, out, |xs|)
  {
    PrefixSplit(xs, x, out);
    ShiftFiles(ok, p, rest, out, |xs|);
  }

  /** A list that starts with `xs` and then `x` starts with `xs`, and holds
      `x` right after it. */
  lemma PrefixSplit(xs: seq<FileInfo>, x: FileInfo, out: seq<FileInfo>)
    requires |xs| + 1 <= |out| && out[..|xs| + 1] == xs + [x]
    ensures out[..|xs|] == xs && out[|xs|] == x
  {
    assert out[..|xs|] == out[..|xs| + 1][..|xs|];
  }

  /** Skipping an entry without exactly one path keeps the verdict. */
  lemma SkipFails(files: seq<FileInfo>, root: string, stat: string -> Stat, r: Result<Info, BuildError>)
    requires |files| > 0 && |files[0].path| != 1
    requires BuildFailsWhen(files[1..], root, stat, r)
    ensures BuildFailsWhen(files, root, stat, r)
  {
    assert SinglePaths(files) == [] + SinglePaths(files[1..]);
    assert [] + SinglePaths(files[1..]) == SinglePaths(files[1..]);
  }

  /** Taking an entry below the root leaves the verdict to the entries
      after it. */
  lemma AppendFails(files: seq<FileInfo>, root: string, stat: string -> Stat, r: Result<Info, BuildError>)
    requires |files| > 0 && |files[0].path| == 1
    requires !Fatal(root, stat)(files[0].path[0]) && files[0].path[0] != root
    requires BuildFailsWhen(files[1..], root, stat, r)
    ensures BuildFailsWhen(files, root, stat, r)
  {
    var p := files[0].path[0];
    assert SinglePaths(files) == [p] + SinglePaths(files[1..]);
    assert SinglePaths(files)[0] == p && SinglePaths(files)[1..] == SinglePaths(files[1..]);
  }

  /** The files made for the entries after the first, one place further
      on, together with the file made for the first. */
  lemma ShiftFiles(ok: (string, FileInfo) -> bool, p: string, rest: seq<string>, out: seq<FileInfo>, n: nat)
    requires Pairwise(ok, rest, out, n + 1) && ok(p, out[n])
    ensures Pairwise(ok, [p] + rest, out, n)
  {
    forall k | 0 <= k < |[p] + rest|
      ensures ok(([p] + rest)[k], out[n + k])
    {
      if k > 0 {
        assert ([p] + rest)[k] == rest[k - 1];
        assert out[n + k] == out[n + 1 + (k - 1)];
      }
    }
  }

  /** `buildFromPathList(info)`: names the torrent "music" and fills in the
      file list from the entries added so far. */
  function BuildFromPathList(tf: TorrentFile, info: Info, stat: string -> Stat): (r: Result<Info, BuildError>)
    ensures r.Success? ==> r.value.name == TorrentFsBase
    ensures r.Success? ==>
      && r.value.pieceLength == info.pieceLength
      && r.value.private == info.private
      && r.value.pieces == info.pieces
  {
    BuildFiles(tf.files, tf.root, stat, info.(name := TorrentFsBase, files := []))
  }

  /** Entries with several paths, and entries with none, are skipped
      without any effect. */
  lemma BuildSkipsMultiPath(f: FileInfo, files: seq<FileInfo>, root: string, stat: string -> Stat, info: Info)
    requires |f.path| != 1
    ensures BuildFiles([f] + files, root, stat, info) == BuildFiles(files, root, stat, info)
  {
    assert ([f] + files)[1..] == files;
  }

  /** An entry naming the root itself ends the scan: the single-file length
      is its size and the entries after it are never looked at. */
  lemma BuildStopsAtRoot(files: seq<FileInfo>, root: string, stat: string -> Stat, info: Info, size: int)
    requires |files| > 0 && files[0].path == [root] && root != "" && stat(root) == Exists(size)
    ensures BuildFiles(files, root, stat, info) == Success(info.(length := size))
  {
  }

  /** A missing file (or an empty path) makes the build fail. */
  lemma BuildMissingFails(files: seq<FileInfo>, root: string, stat: string -> Stat, info: Info)
    requires |files| > 0 && |files[0].path| == 1
    requires stat(files[0].path[0]) == NotExist || files[0].path[0] == ""
    ensures BuildFiles(files, root, stat, info) == Failure(PathDoesNotExist(files[0].path[0]))
  {
  }

  /** The loop fails exactly when some entry with one path cannot be taken
      (missing, empty, unreadable, or not relatable to the root) and no
      entry naming the root comes before it. */
  lemma BuildFailsExactly(files: seq<FileInfo>, root: string, stat: string -> Stat, info: Info)
    ensures BuildFiles(files, root, stat, info).Failure? <==> FatalBeforeRoot(Fatal(root, stat), SinglePaths(files), root)
  {
    var r := BuildFiles(files, root, stat, info);
    assert r.Failure? <==> FailsBefore(Fatal(root, stat), SinglePaths(files), root);
    FailsBeforeSome(Fatal(root, stat), SinglePaths(files), root);
  }

  /** Why `Create` fails, in the order the checks run. */
  datatype CreateError =
    | BuildFailed(reason: BuildError)
    | ZeroPieceLength
    | PieceGenerationFailed(cause: string)
    | BencodeFailed(cause: string)
    | OpenFailed(cause: string)
    | WriteFailed(cause: string)

  /** Everything `Create` learns from outside: anacrolix's
      `ChoosePieceLength`, `os.Stat`, the byte stream `writeFiles` pushes
      through the pipe, SHA-1, `bencode.Marshal`, and the outcomes of opening
      and writing the output file (`None` for success). */
  datatype Environment = Environment(
    choosePieceLength: int -> nat,
    stat: string -> Stat,
    stream: Stream,
    hash: seq<byte> -> Digest,
    marshal: Info -> Result<seq<byte>, string>,
    openError: Option<string>,
    writeError: MetaInfo -> Option<string>)

  /** The info `buildFromPathList` returns when `Create` calls it, with the
      piece length chosen for the running total. */
  function Built(tf: TorrentFile, env: Environment): Result<Info, BuildError> {
    BuildFromPathList(tf, Info(env.choosePieceLength(tf.totalFileSizeBytes), [], "", 0, true, []), env.stat)
  }

  /** The info dictionary `Create` hands to the bencoder: built, sorted,
      given a piece length and hashed. The piece length is the one chosen
      for the running total, or, when that is zero, the one chosen for the
      built file list's total length. */
  function AssembleInfo(tf: TorrentFile, env: Environment): (r: Result<Info, CreateError>)
    ensures Built(tf, env).Failure? ==> r == Failure(BuildFailed(Built(tf, env).error))
    ensures Built(tf, env).Success? ==>
      var built, first := Built(tf, env).value, env.choosePieceLength(tf.totalFileSizeBytes);
      var chosen := if first != 0 then first else env.choosePieceLength(TotalLength(built));
      && (chosen == 0 ==> r == Failure(ZeroPieceLength))
      && (chosen != 0 && env.stream.failure.Some? ==> r == Failure(PieceGenerationFailed(env.stream.failure.value)))
      && (r.Success? ==>
        && r.value.pieceLength == chosen
        && multiset(r.value.files) == multiset(built.files)
        && r.value.length == built.length)
    ensures r.Success? ==>
      && r.value.name == TorrentFsBase
      && r.value.private
      && SortedByPath(r.value.files)
      && r.value.pieceLength > 0
      && env.stream.failure == None
      && r.value.pieces == PiecesOf(env.stream.data, r.value.pieceLength, env.hash)
      && |r.value.pieces| == DigestLength * CeilDiv(|env.stream.data|, r.value.pieceLength)
    ensures r.Failure? && r.error.PieceGenerationFailed? ==> env.stream.failure == Some(r.error.cause)
  {
    match Built(tf, env)
    case Failure(e) => Failure(BuildFailed(e))
    case Success(built) =>
      var sorted := built.(files := SortByPath(built.files));
      TotalLengthReordered(built, sorted.files);
      var info := if sorted.pieceLength == 0
        then sorted.(pieceLength := env.choosePieceLength(TotalLength(sorted)))
        else sorted;
      if info.pieceLength == 0 then Failure(ZeroPieceLength)
      else if env.stream.failure.Some? then Failure(PieceGenerationFailed(env.stream.failure.value))
      else
        PiecesLayout(env.stream.data, info.pieceLength, env.hash, 0);
        Success(info.(pieces := PiecesOf(env.stream.data, info.pieceLength, env.hash)))
  }

  /** `Create(outFile)`: the builder afterwards and the error, if any. The
      metainfo takes whatever `bencode.Marshal` returns, so a bencoding
      failure leaves it without info bytes. */
  function Create(tf: TorrentFile, env: Environment): (r: (TorrentFile, Option<CreateError>))
    ensures AssembleInfo(tf, env).Failure? ==> r == (tf, Some(AssembleInfo(tf, env).error))
    ensures AssembleInfo(tf, env).Success? && env.marshal(AssembleInfo(tf, env).value).Failure? ==>
      r == (tf.(mi := tf.mi.(infoBytes := [])), Some(BencodeFailed(env.marshal(AssembleInfo(tf, env).value).error)))
    ensures AssembleInfo(tf, env).Success? && env.marshal(AssembleInfo(tf, env).value).Success? ==>
      && r.0 == tf.(mi := tf.mi.(infoBytes := env.marshal(AssembleInfo(tf, env).value).value))
      && (env.openError.Some? ==> r.1 == Some(OpenFailed(env.openError.value)))
      && (env.openError.None? ==> r.1 == (match env.writeError(r.0.mi) case Some(e) => Some(WriteFailed(e)) case None => None))
    ensures r.1 == None ==>
      && AssembleInfo(tf, env).Success?
      && env.marshal(AssembleInfo(tf, env).value) == Success(r.0.mi.infoBytes)
  {
    match AssembleInfo(tf, env)
    case Failure(e) => (tf, Some(e))
    case Success(info) =>
      match env.marshal(info)
      case Failure(e) => (tf.(mi := tf.mi.(infoBytes := [])), Some(BencodeFailed(e)))
      case Success(bytes) =>
        var written := tf.(mi := tf.mi.(infoBytes := bytes));
        if env.openError.Some? then (written, Some(OpenFailed(env.openError.value)))
        else match env.writeError(written.mi)
          case Some(e) => (written, Some(WriteFailed(e)))
          case None => (written, None)
  }

  /** A failing read in piece generation aborts `Create` before anything is
      bencoded, opened or written: the builder is unchanged and the outcome
      does not depend on the output file. */
  lemma CreateAbortsOnReadFailure(tf: TorrentFile, env: Environment, openError: Option<string>, writeError: MetaInfo -> Option<string>)
    requires env.stream.failure.Some?
    requires AssembleInfo(tf, env) != Failure(ZeroPieceLength)
    requires Built(tf, env).Success?
    ensures Create(tf, env) == (tf, Some(PieceGenerationFailed(env.stream.failure.value)))
    ensures Create(tf, env.(openError := openError, writeError := writeError)) == Create(tf, env)
  {
  }

  /** With a piece-length chooser that answers zero, a successful build
      still ends in the zero-piece-length error, before any hashing. */
  lemma CreateRejectsZeroPieceLength(tf: TorrentFile, env: Environment)
    requires forall n: int :: env.choosePieceLength(n) == 0
    requires BuildFromPathList(tf, Info(0, [], "", 0, true, []), env.stat).Success?
    ensures Create(tf, env) == (tf, Some(ZeroPieceLength))
  {
  }
}
