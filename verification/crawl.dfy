/** `CrawlFolder` of main.go: one directory is walked and every regular
    file is classified by its extension. Flac files always count, rip logs
    count when a TOC ID is found in them, cover art counts when art import
    is on, and everything else is ignored. The walk is given as the
    sequence of entries `filepath.WalkDir` would visit, and reading a log
    file is a parameter. */
module Crawl {
  import opened Wrappers
  import opened Text
  import opened Paths
  import opened MusicFiles
  import opened TocDetection

  /** What `os.Stat(dir)` reports. */
  datatype DirStat = Directory | NotDirectory | Missing | StatFailed

  /** One callback of `filepath.WalkDir`: an entry (`size` is what
      `d.Info().Size()` reports) or the error the walk passes in. */
  datatype WalkEntry =
    | Entry(path: string, name: string, size: int, isDir: bool)
    | WalkError(message: string)

  datatype CrawlError =
    | NoDirectory
    | DirectoryMissing(dir: string)
    | StatError(dir: string)
    | NotADirectory(dir: string)
    | WalkFailed(message: string)
    | LogUnreadable(name: string, cause: string)

  /** The inputs the walk callback consults besides the entry. */
  datatype Environment = Environment(
    readFile: string -> Result<string, string>,
    matcher: Matcher,
    importArt: bool)

  /** `strings.Replace(path.Ext(name), ".", "", -1)`. */
  function Extension(name: string): (ext: string)
    ensures '.' !in ext
  {
    Without(Ext(name), '.')
  }

  /** A name ending in "." and a dot-free suffix has that suffix as its
      extension. */
  lemma ExtensionOfSuffix(stem: string, suffix: string)
    requires '.' !in suffix && Separator !in suffix
    ensures Extension(stem + "." + suffix) == suffix
  {
    ExtOfSuffix(stem, suffix);
    WithoutConcat(".", suffix, '.');
    WithoutSingle('.', '.');
    WithoutAbsent(suffix, '.');
  }

  /** A name without a "." has the empty extension. */
  lemma ExtensionNoDot(name: string)
    requires '.' !in name
    ensures Extension(name) == ""
  {
    ExtNoDot(name);
  }

  /** The file type a regular file is kept under, given its extension and
      the TOC ID its contents yield (only consulted for logs). */
  function Classify(ext: string, tocID: string, importArt: bool): (t: Option<FileType>)
    ensures t.Some? ==> t.value.String() == ext
  {
    match ParseFileType(ext)
    case None => None
    case Some(k) =>
      ParseFileTypeRoundTrip(k, ext);
      match k
      case Flac => Some(Flac)
      case Accurip => if |tocID| > 0 then Some(Accurip) else None
      case Log => if |tocID| > 0 then Some(Log) else None
      case Jpg => if importArt then Some(Jpg) else None
      case Jpeg => if importArt then Some(Jpeg) else None
  }

  /** The selection rules, one per kind of file: flac always, logs exactly
      when an id was found, art exactly when importing it, nothing else. */
  lemma ClassifyRules(ext: string, tocID: string, importArt: bool)
    ensures Classify(ext, tocID, importArt) == Some(Flac) <==> ext == "flac"
    ensures Classify(ext, tocID, importArt) == Some(Accurip) <==> ext == "accurip" && tocID != ""
    ensures Classify(ext, tocID, importArt) == Some(Log) <==> ext == "log" && tocID != ""
    ensures Classify(ext, tocID, importArt) == Some(Jpg) <==> ext == "jpg" && importArt
    ensures Classify(ext, tocID, importArt) == Some(Jpeg) <==> ext == "jpeg" && importArt
    ensures ParseFileType(ext).None? ==> Classify(ext, tocID, importArt).None?
  {
  }

  /** Whether the contents of the file decide its fate: only logs are read. */
  predicate IsLog(ext: string) {
    ext == "accurip" || ext == "log"
  }

  /** The folder record before the walk. */
  function EmptyFolder(dir: string): (mf: MusicFolder)
    ensures Consistent(mf) && mf.path == dir && mf.files == []
  {
    MusicFolder(dir, false, "", [], 0, 0, 0)
  }

  function SumSizes(files: seq<MusicFile>): int {
    if |files| == 0 then 0 else SumSizes(files[..|files| - 1]) + files[|files| - 1].size
  }

  function CountFlac(files: seq<MusicFile>): (n: nat)
    ensures n <= |files|
  {
    if |files| == 0 then 0
    else CountFlac(files[..|files| - 1]) + (if files[|files| - 1].fileType == Flac then 1 else 0)
  }

  /** The counters of a folder record agree with its file list, and it has
      a TOC ID exactly when it is marked as having a rip log. */
  predicate Consistent(mf: MusicFolder) {
    && mf.totalBytes == SumSizes(mf.files)
    && mf.fileCnt == |mf.files|
    && mf.flacCnt == CountFlac(mf.files)
    && (mf.hasAccurip <==> mf.tocID != "")
  }

  /** A kept file was kept for its extension: the type's text is the
      extension of its name, logs only come with a TOC ID on the folder,
      and art only when importing it. */
  predicate Admitted(f: MusicFile, mf: MusicFolder, importArt: bool) {
    && Extension(f.name) == f.fileType.String()
    && (f.fileType in {Accurip, Log} ==> mf.tocID != "")
    && (f.fileType in {Jpg, Jpeg} ==> importArt)
  }

  predicate AllAdmitted(mf: MusicFolder, importArt: bool) {
    forall i :: 0 <= i < |mf.files| ==> Admitted(mf.files[i], mf, importArt)
  }

  /** Appending a kept file: the counters move with the list. */
  function Keep(mf: MusicFolder, path: string, name: string, size: int, t: FileType, importArt: bool): (r: MusicFolder)
    requires Consistent(mf) && AllAdmitted(mf, importArt)
    requires Admitted(MusicFile(path, name, size, t), mf, importArt)
    ensures Consistent(r) && AllAdmitted(r, importArt)
    ensures r.files == mf.files + [MusicFile(path, name, size, t)]
    ensures r.path == mf.path && r.tocID == mf.tocID
  {
    var files := mf.files + [MusicFile(path, name, size, t)];
    assert files[..|files| - 1] == mf.files;
    mf.(files := files,
        fileCnt := mf.fileCnt + 1,
        flacCnt := mf.flacCnt + (if t == Flac then 1 else 0),
        totalBytes := mf.totalBytes + size)
  }

  /** A log with TOC ID `id` marks the folder; files kept so far stay
      admitted since the folder still has an id. */
  function Mark(mf: MusicFolder, id: string, importArt: bool): (r: MusicFolder)
    requires Consistent(mf) && AllAdmitted(mf, importArt) && id != ""
    ensures Consistent(r) && AllAdmitted(r, importArt)
    ensures r.files == mf.files && r.path == mf.path && r.tocID == id
  {
    var r := mf.(hasAccurip := true, tocID := id);
    assert forall i :: 0 <= i < |r.files| ==> Admitted(mf.files[i], mf, importArt) ==> Admitted(r.files[i], r, importArt);
    r
  }

  /** The TOC-ID detection outcome for a log file; other entries are not
      read and yield no id. */
  function LogId(e: WalkEntry, env: Environment): Result<string, string>
    requires e.Entry?
  {
    if !e.isDir && IsLog(Extension(e.name)) then DetectAccuripInFile(env.readFile(e.path), env.matcher)
    else Success("")
  }

  /** The entry makes the walk fail: an error passed in by the walk, or a
      log file that cannot be read. */
  predicate Fails(e: WalkEntry, env: Environment) {
    e.WalkError? || LogId(e, env).Failure?
  }

  /** The TOC ID an entry yields, "" for all but readable logs with one. */
  function FoundId(e: WalkEntry, env: Environment): string {
    if e.Entry? && LogId(e, env).Success? then LogId(e, env).value else ""
  }

  /** The file record an entry contributes to the folder: one for a kept
      regular file, none otherwise. */
  function Picked(e: WalkEntry, env: Environment): seq<MusicFile> {
    if e.WalkError? || e.isDir || LogId(e, env).Failure? then []
    else
      match Classify(Extension(e.name), LogId(e, env).value, env.importArt)
      case None => []
      case Some(t) => [MusicFile(e.path, e.name, e.size, t)]
  }

  /** The files a complete walk keeps, in walk order. */
  function Selection(entries: seq<WalkEntry>, env: Environment): seq<MusicFile> {
    if |entries| == 0 then [] else Picked(entries[0], env) + Selection(entries[1..], env)
  }

  /** The result a callback may have on a folder record. */
  predicate VisitOutcome(mf: MusicFolder, e: WalkEntry, env: Environment, r: Result<MusicFolder, CrawlError>)
    requires e.Entry?
  {
    && (r.Failure? <==> Fails(e, env))
    && (r.Success? ==>
      && Consistent(r.value)
      && AllAdmitted(r.value, env.importArt)
      && r.value.path == mf.path
      && r.value.files == mf.files + Picked(e, env)
      && r.value.tocID == (if FoundId(e, env) != "" then FoundId(e, env) else mf.tocID))
  }

  /** One callback of the walk in `CrawlFolder`: the walk's own error
      stops it, directories pass. */
  function Visit(mf: MusicFolder, e: WalkEntry, env: Environment): (r: Result<MusicFolder, CrawlError>)
    requires Consistent(mf) && AllAdmitted(mf, env.importArt)
    ensures e.WalkError? ==> r == Failure(WalkFailed(e.message))
    ensures e.Entry? ==> VisitOutcome(mf, e, env, r)
  {
    match e
    case WalkError(msg) => Failure(WalkFailed(msg))
    case Entry(_, _, _, isDir) =>
      if isDir then Success(mf) else VisitFile(mf, e, env)
  }

  /** The callback on a regular file: an unreadable log stops the walk; a
      kept file is appended with the counters updated, and a log with an id
      also marks the folder. */
  function VisitFile(mf: MusicFolder, e: WalkEntry, env: Environment): (r: Result<MusicFolder, CrawlError>)
    requires Consistent(mf) && AllAdmitted(mf, env.importArt)
    requires e.Entry? && !e.isDir
    ensures VisitOutcome(mf, e, env, r)
  {
    var ext := Extension(e.name);
    match LogId(e, env)
    case Failure(cause) => Failure(LogUnreadable(e.name, cause))
    case Success(id) =>
      match Classify(ext, id, env.importArt)
      case None =>
        PassedOver(e, env, id);
        Success(mf)
      case Some(t) =>
        var marked := if IsLog(ext) then Mark(mf, id, env.importArt) else mf;
        KeptAdmitted(e, id, env.importArt, t, marked, mf.tocID);
        var r := Keep(marked, e.path, e.name, e.size, t, env.importArt);
        KeptOutcome(e, env, id, t, mf.tocID, r.tocID);
        Success(r)
  }

  /** A regular file `Classify` turns down contributes no file and no id. */
  lemma PassedOver(e: WalkEntry, env: Environment, id: string)
    requires e.Entry? && !e.isDir && LogId(e, env) == Success(id)
    requires Classify(Extension(e.name), id, env.importArt).None?
    ensures Picked(e, env) == [] && FoundId(e, env) == ""
  {
    ClassifyRules(Extension(e.name), id, env.importArt);
  }

  /** A regular file `Classify` keeps contributes exactly its own record,
      and the folder's id afterwards is the one the file yields, if any. */
  lemma KeptOutcome(e: WalkEntry, env: Environment, id: string, t: FileType, before: string, after: string)
    requires e.Entry? && !e.isDir && LogId(e, env) == Success(id)
    requires Classify(Extension(e.name), id, env.importArt) == Some(t)
    requires after == (if IsLog(Extension(e.name)) then id else before)
    ensures Picked(e, env) == [MusicFile(e.path, e.name, e.size, t)]
    ensures after == (if FoundId(e, env) != "" then FoundId(e, env) else before)
  {
    ClassifyRules(Extension(e.name), id, env.importArt);
  }

  /** A file `Classify` keeps is admitted to the folder it lands in: logs
      are only kept with an id, and a kept log marks the folder with it. */
  lemma KeptAdmitted(e: WalkEntry, id: string, importArt: bool, t: FileType, marked: MusicFolder, tocID: string)
    requires e.Entry? && Classify(Extension(e.name), id, importArt) == Some(t)
    requires marked.tocID == (if IsLog(Extension(e.name)) then id else tocID)
    ensures Admitted(MusicFile(e.path, e.name, e.size, t), marked, importArt)
  {
    ClassifyRules(Extension(e.name), id, importArt);
  }

  /** What a walk over `entries` from `mf` ends in: it fails exactly when
      some entry fails; otherwise the record stays consistent and admitted,
      gains the selected files in order, and holds a TOC ID exactly when it
      had one or some log yielded one. */
  predicate WalkOutcome(mf: MusicFolder, entries: seq<WalkEntry>, env: Environment, r: Result<MusicFolder, CrawlError>) {
    && (r.Failure? <==> AnyFails(entries, env))
    && (r.Success? ==>
      && Consistent(r.value)
      && AllAdmitted(r.value, env.importArt)
      && r.value.path == mf.path
      && r.value.files == mf.files + Selection(entries, env)
      && r.value.tocID == LastId(entries, env, mf.tocID)
      && (r.value.tocID != "" <==> mf.tocID != "" || AnyId(entries, env)))
  }

  /** The TOC ID after the entries, starting from `tocID`: each log that
      yields an id overwrites it, so the last such log wins. */
  function LastId(entries: seq<WalkEntry>, env: Environment, tocID: string): string
    decreases |entries|
  {
    if |entries| == 0 then tocID
    else LastId(entries[1..], env, if FoundId(entries[0], env) != "" then FoundId(entries[0], env) else tocID)
  }

  /** The id left after the walk is that of the last entry yielding one. */
  lemma {:induction false} LastIdIsLastLog(entries: seq<WalkEntry>, env: Environment, tocID: string, i: nat)
    requires i < |entries| && FoundId(entries[i], env) != ""
    requires forall j :: i < j < |entries| ==> FoundId(entries[j], env) == ""
    ensures LastId(entries, env, tocID) == FoundId(entries[i], env)
    decreases i
  {
    var next := if FoundId(entries[0], env) != "" then FoundId(entries[0], env) else tocID;
    if i == 0 {
      LastIdNoLog(entries[1..], env, next);
    } else {
      LastIdIsLastLog(entries[1..], env, next, i - 1);
    }
  }

  /** Entries that yield no id leave the starting id as it is. */
  lemma {:induction false} LastIdNoLog(entries: seq<WalkEntry>, env: Environment, tocID: string)
    requires forall j :: 0 <= j < |entries| ==> FoundId(entries[j], env) == ""
    ensures LastId(entries, env, tocID) == tocID
    decreases |entries|
  {
    if |entries| > 0 {
      LastIdNoLog(entries[1..], env, tocID);
    }
  }

  /** Some entry makes the walk fail. */
  predicate AnyFails(entries: seq<WalkEntry>, env: Environment) {
    exists i :: 0 <= i < |entries| && Fails(entries[i], env)
  }

  /** Some log among the entries yields a TOC ID. */
  predicate AnyId(entries: seq<WalkEntry>, env: Environment) {
    exists i :: 0 <= i < |entries| && FoundId(entries[i], env) != ""
  }

  /** The walk over all entries, stopping at the first failing one. */
  function Walk(mf: MusicFolder, entries: seq<WalkEntry>, env: Environment): (r: Result<MusicFolder, CrawlError>)
    requires Consistent(mf) && AllAdmitted(mf, env.importArt)
    ensures WalkOutcome(mf, entries, env, r)
    decreases |entries|
  {
    if |entries| == 0 then Success(mf)
    else
      var e, rest := entries[0], entries[1..];
      match Visit(mf, e, env)
      case Failure(err) =>
        ShiftExists(entries, env);
        Failure(err)
      case Success(next) =>
        var r := Walk(next, rest, env);
        WalkStep(mf, entries, env, next, r);
        r
  }

  /** A successful first step followed by the walk over the rest is the
      walk over all entries. */
  lemma WalkStep(mf: MusicFolder, entries: seq<WalkEntry>, env: Environment, next: MusicFolder,
                 r: Result<MusicFolder, CrawlError>)
    requires |entries| > 0 && Consistent(mf) && AllAdmitted(mf, env.importArt)
    requires entries[0].Entry? && VisitOutcome(mf, entries[0], env, Success(next))
    requires WalkOutcome(next, entries[1..], env, r)
    ensures WalkOutcome(mf, entries, env, r)
  {
    var e := entries[0];
    ShiftExists(entries, env);
    assert next.tocID != "" <==> FoundId(e, env) != "" || mf.tocID != "";
    SelectionStep(mf.files, entries, env, next.files, r);
  }

  lemma SelectionStep(files: seq<MusicFile>, entries: seq<WalkEntry>, env: Environment, nextFiles: seq<MusicFile>,
                      r: Result<MusicFolder, CrawlError>)
    requires |entries| > 0
    requires nextFiles == files + Picked(entries[0], env)
    requires r.Success? ==> r.value.files == nextFiles + Selection(entries[1..], env)
    ensures r.Success? ==> r.value.files == files + Selection(entries, env)
  {
    var picked, later := Picked(entries[0], env), Selection(entries[1..], env);
    assert Selection(entries, env) == picked + later;
    ConcatAssoc(files, picked, later);
  }

  lemma ConcatAssoc<T>(a: seq<T>, b: seq<T>, c: seq<T>)
    ensures (a + b) + c == a + (b + c)
  {
  }

  /** Beyond the first entry, the entries of `entries` are those of its tail. */
  lemma ShiftExists(entries: seq<WalkEntry>, env: Environment)
    requires |entries| > 0
    ensures AnyFails(entries, env) <==> Fails(entries[0], env) || AnyFails(entries[1..], env)
    ensures AnyId(entries, env) <==> FoundId(entries[0], env) != "" || AnyId(entries[1..], env)
  {
    forall i | 0 < i < |entries|
      ensures entries[i] == entries[1..][i - 1]
    {
    }
  }

  /** `CrawlFolder(dir)`: the argument and `os.Stat` checks, then the walk
      from an empty record. On success the record's counters agree with its
      files, which are exactly the kept entries in walk order, the folder
      has a TOC ID exactly when some log yielded one, and that ID is the one
      the last such log yielded. */
  function CrawlFolder(dir: string, stat: DirStat, entries: seq<WalkEntry>, env: Environment): (r: Result<MusicFolder, CrawlError>)
    ensures dir == "" ==> r == Failure(NoDirectory)
    ensures dir != "" && stat == Missing ==> r == Failure(DirectoryMissing(dir))
    ensures dir != "" && stat == StatFailed ==> r == Failure(StatError(dir))
    ensures dir != "" && stat == NotDirectory ==> r == Failure(NotADirectory(dir))
    ensures dir != "" && stat == Directory ==> (r.Failure? <==> AnyFails(entries, env))
    ensures r.Success? ==>
      && Consistent(r.value)
      && AllAdmitted(r.value, env.importArt)
      && r.value.path == dir
      && r.value.files == Selection(entries, env)
      && r.value.tocID == LastId(entries, env, "")
      && r.value.flacCnt <= r.value.fileCnt
      && (r.value.hasAccurip <==> AnyId(entries, env))
  {
    if |dir| == 0 then Failure(NoDirectory)
    else
      match stat
      case Missing => Failure(DirectoryMissing(dir))
      case StatFailed => Failure(StatError(dir))
      case NotDirectory => Failure(NotADirectory(dir))
      case Directory => Walk(EmptyFolder(dir), entries, env)
  }

  /** The callback passes a file with an unknown extension over: it is
      not read, not kept and does not fail. */
  lemma UnknownPasses(mf: MusicFolder, e: WalkEntry, env: Environment)
    requires Consistent(mf) && AllAdmitted(mf, env.importArt)
    requires e.Entry? && !e.isDir && ParseFileType(Extension(e.name)).None?
    ensures Visit(mf, e, env) == Success(mf)
  {
    assert !IsLog(Extension(e.name));
    assert LogId(e, env) == Success("");
  }

  /** A regular file whose extension is none of the five types leaves the
      walk's outcome unchanged wherever it appears. */
  lemma {:induction false} WalkSkipsUnknown(mf: MusicFolder, before: seq<WalkEntry>, e: WalkEntry,
                                            after: seq<WalkEntry>, env: Environment)
    requires Consistent(mf) && AllAdmitted(mf, env.importArt)
    requires e.Entry? && !e.isDir && ParseFileType(Extension(e.name)).None?
    ensures Walk(mf, before + [e] + after, env) == Walk(mf, before + after, env)
    decreases |before|
  {
    if |before| == 0 {
      UnknownPasses(mf, e, env);
      assert before + [e] + after == [e] + after;
      assert ([e] + after)[1..] == after;
      assert before + after == after;
    } else {
      var es := before + [e] + after;
      assert es[0] == before[0] && es[1..] == before[1..] + [e] + after;
      assert (before + after)[0] == before[0] && (before + after)[1..] == before[1..] + after;
      match Visit(mf, before[0], env)
      case Failure(_) =>
      case Success(next) =>
        WalkSkipsUnknown(next, before[1..], e, after, env);
    }
  }

  /** Every regular file named `*.flac` that the walk visits is kept. */
  lemma {:induction false} SelectionKeepsFlac(entries: seq<WalkEntry>, env: Environment, i: nat)
    requires i < |entries| && entries[i].Entry? && !entries[i].isDir
    requires Extension(entries[i].name) == "flac"
    ensures var e := entries[i]; MusicFile(e.path, e.name, e.size, Flac) in Selection(entries, env)
    decreases i
  {
    var e := entries[i];
    ClassifyRules("flac", "", env.importArt);
    if i == 0 {
      assert Picked(e, env) == [MusicFile(e.path, e.name, e.size, Flac)];
    } else {
      SelectionKeepsFlac(entries[1..], env, i - 1);
    }
  }
}
