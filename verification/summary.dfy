/** The folder summary loop of `main` (main.go): every crawled folder is
    counted as scanned; a folder with a TOC ID, or any folder when rip logs
    are ignored, becomes an album whose files go into the torrent's file
    list; the others are listed as skipped unless they are the scan root.
    The human-readable size strings are not modelled. */
module Summary {
  import opened Wrappers
  import opened Paths
  import opened MusicFiles
  import LT = LibraryTorrent

  /** The fields of `Output` the loop maintains. */
  datatype Output = Output(
    path: string,
    folderCnt: int,
    accuripFolderCnt: int,
    foldersScanned: int,
    totalFileSizeBytes: int,
    totalFiles: int,
    averageAlbumSizeBytes: int,
    albums: seq<MusicFolder>,
    skippedFolders: seq<string>,
    torrentFileList: map<string, int>)

  /** The output record `main` starts from. */
  function InitialOutput(scanPath: string): (out: Output)
    ensures out.path == scanPath && out.albums == [] && out.skippedFolders == []
    ensures out.torrentFileList == map[]
  {
    Output(scanPath, 0, 0, 0, 0, 0, 0, [], [], map[])
  }

  /** A folder is kept as an album when it has a TOC ID or rip logs are
      ignored. */
  predicate Included(folder: MusicFolder, ignoreRipLogs: bool) {
    |folder.tocID| > 0 || ignoreRipLogs
  }

  /** The albums among `folders`, in order. */
  function Albums(folders: seq<MusicFolder>, ignoreRipLogs: bool): (albums: seq<MusicFolder>)
    ensures |albums| <= |folders|
  {
    if |folders| == 0 then []
    else
      var last := folders[|folders| - 1];
      Albums(folders[..|folders| - 1], ignoreRipLogs) + (if Included(last, ignoreRipLogs) then [last] else [])
  }

  /** The paths of the folders left out, except the scan root, in order. */
  function Skipped(folders: seq<MusicFolder>, ignoreRipLogs: bool, scanPath: string): seq<string> {
    if |folders| == 0 then []
    else
      var last := folders[|folders| - 1];
      Skipped(folders[..|folders| - 1], ignoreRipLogs, scanPath)
        + (if !Included(last, ignoreRipLogs) && last.path != scanPath then [last.path] else [])
  }

  /** The folders left out that are the scan root itself. */
  function RootDropped(folders: seq<MusicFolder>, ignoreRipLogs: bool, scanPath: string): nat {
    if |folders| == 0 then 0
    else
      var last := folders[|folders| - 1];
      RootDropped(folders[..|folders| - 1], ignoreRipLogs, scanPath)
        + (if !Included(last, ignoreRipLogs) && last.path == scanPath then 1 else 0)
  }

  function SumTotalBytes(albums: seq<MusicFolder>): int {
    if |albums| == 0 then 0 else SumTotalBytes(albums[..|albums| - 1]) + albums[|albums| - 1].totalBytes
  }

  function SumFileCnt(albums: seq<MusicFolder>): int {
    if |albums| == 0 then 0 else SumFileCnt(albums[..|albums| - 1]) + albums[|albums| - 1].fileCnt
  }

  function CountAccurip(albums: seq<MusicFolder>): (n: nat)
    ensures n <= |albums|
  {
    if |albums| == 0 then 0
    else CountAccurip(albums[..|albums| - 1]) + (if |albums[|albums| - 1].tocID| > 0 then 1 else 0)
  }

  /** The sizes of a folder's files, summed. */
  function FileSizes(files: seq<MusicFile>): int {
    if |files| == 0 then 0 else files[0].size + FileSizes(files[1..])
  }

  /** The sizes of all album files, summed album by album. */
  function AlbumFileBytes(albums: seq<MusicFolder>): int {
    if |albums| == 0 then 0
    else AlbumFileBytes(albums[..|albums| - 1]) + FileSizes(albums[|albums| - 1].files)
  }

  /** A path with a size, in the order the loop writes it into a map. */
  type Item = (string, int)

  /** `m` after writing `items` into it one after the other: a later write
      to a path replaces an earlier one. */
  function Stamp(m: map<string, int>, items: seq<Item>): map<string, int>
    decreases |items|
  {
    if |items| == 0 then m else Stamp(m[items[0].0 := items[0].1], items[1..])
  }

  /** The paths written. */
  function ItemKeys(items: seq<Item>): set<string> {
    set k | 0 <= k < |items| :: items[k].0
  }

  /** Writing `a` and then `b` is writing `a + b`. */
  lemma {:induction false} StampConcat(m: map<string, int>, a: seq<Item>, b: seq<Item>)
    ensures Stamp(m, a + b) == Stamp(Stamp(m, a), b)
    decreases |a|
  {
    if |a| > 0 {
      assert (a + b)[0] == a[0] && (a + b)[1..] == a[1..] + b;
      StampConcat(m[a[0].0 := a[0].1], a[1..], b);
    } else {
      assert a + b == b;
    }
  }

  /** The keys after the writes are the keys before and the paths written. */
  lemma {:induction false} StampKeys(m: map<string, int>, items: seq<Item>)
    ensures Stamp(m, items).Keys == m.Keys + ItemKeys(items)
    decreases |items|
  {
    if |items| > 0 {
      StampKeys(m[items[0].0 := items[0].1], items[1..]);
      assert ItemKeys(items) == {items[0].0} + ItemKeys(items[1..]) by {
        forall x | x in ItemKeys(items)
          ensures x in {items[0].0} + ItemKeys(items[1..])
        {
          var k :| 0 <= k < |items| && items[k].0 == x;
          if k > 0 {
            assert items[1..][k - 1].0 == x;
          }
        }
        forall x | x in ItemKeys(items[1..])
          ensures x in ItemKeys(items)
        {
          var k :| 0 <= k < |items[1..]| && items[1..][k].0 == x;
          assert items[k + 1].0 == x;
        }
      }
    }
  }

  /** A path keeps the size of the last write to it. */
  lemma {:induction false} StampLast(m: map<string, int>, items: seq<Item>, i: nat)
    requires i < |items|
    requires forall j :: i < j < |items| ==> items[j].0 != items[i].0
    ensures items[i].0 in Stamp(m, items) && Stamp(m, items)[items[i].0] == items[i].1
    decreases |items|
  {
    var m' := m[items[0].0 := items[0].1];
    if i == 0 {
      StampUntouched(m', items[1..], items[0].0);
    } else {
      StampLast(m', items[1..], i - 1);
    }
  }

  /** A path never written keeps its size. */
  lemma {:induction false} StampUntouched(m: map<string, int>, items: seq<Item>, key: string)
    requires key in m
    requires forall j :: 0 <= j < |items| ==> items[j].0 != key
    ensures key in Stamp(m, items) && Stamp(m, items)[key] == m[key]
    decreases |items|
  {
    if |items| > 0 {
      StampUntouched(m[items[0].0 := items[0].1], items[1..], key);
    }
  }

  /** The item paths `filepath.Join(folder.Path, file.Name)` of a folder's
      files, with the files' sizes, in file order. */
  function FolderItems(dir: string, files: seq<MusicFile>): seq<Item> {
    if |files| == 0 then []
    else [(Join(dir, files[0].name), files[0].size)] + FolderItems(dir, files[1..])
  }

  /** The items of all albums, album by album. */
  function Items(albums: seq<MusicFolder>): seq<Item> {
    if |albums| == 0 then []
    else
      var last := albums[|albums| - 1];
      Items(albums[..|albums| - 1]) + FolderItems(last.path, last.files)
  }

  /** `filepath.Rel` from `root` succeeds on `p`, so `AddFile` does not
      panic on it. */
  predicate Relatable(root: string, p: string) {
    Rel(root, p).Some?
  }

  /** Every item path passes `ok`. */
  predicate AllPaths(ok: string -> bool, items: seq<Item>) {
    forall k :: 0 <= k < |items| ==> ok(items[k].0)
  }

  lemma AllPathsConcat(ok: string -> bool, a: seq<Item>, b: seq<Item>)
    ensures AllPaths(ok, a + b) <==> AllPaths(ok, a) && AllPaths(ok, b)
  {
    if AllPaths(ok, a) && AllPaths(ok, b) {
      forall k | 0 <= k < |a + b|
        ensures ok((a + b)[k].0)
      {
        if k >= |a| {
          assert (a + b)[k] == b[k - |a|];
        }
      }
    }
    if AllPaths(ok, a + b) {
      forall k | 0 <= k < |b|
        ensures ok(b[k].0)
      {
        assert (a + b)[|a| + k] == b[k];
      }
      forall k | 0 <= k < |a|
        ensures ok(a[k].0)
      {
        assert (a + b)[k] == a[k];
      }
    }
  }

  /** No item path makes `AddFile` panic. */
  predicate ItemsUnderRoot(root: string, items: seq<Item>) {
    AllPaths(p => Relatable(root, p), items)
  }

  /** The items with each path replaced by what `f` makes of it. */
  function Relabel(f: string -> Option<string>, items: seq<Item>): (r: seq<Item>)
    requires forall k :: 0 <= k < |items| ==> f(items[k].0).Some?
    ensures |r| == |items|
  {
    if |items| == 0 then [] else [(f(items[0].0).value, items[0].1)] + Relabel(f, items[1..])
  }

  lemma {:induction false} RelabelConcat(f: string -> Option<string>, a: seq<Item>, b: seq<Item>)
    requires forall k :: 0 <= k < |a| ==> f(a[k].0).Some?
    requires forall k :: 0 <= k < |b| ==> f(b[k].0).Some?
    ensures forall k :: 0 <= k < |a + b| ==> f((a + b)[k].0).Some?
    ensures Relabel(f, a + b) == Relabel(f, a) + Relabel(f, b)
    decreases |a|
  {
    assert forall k :: 0 <= k < |a + b| ==> (a + b)[k] == if k < |a| then a[k] else b[k - |a|];
    if |a| > 0 {
      assert (a + b)[0] == a[0] && (a + b)[1..] == a[1..] + b;
      RelabelConcat(f, a[1..], b);
    } else {
      assert a + b == b;
    }
  }

  /** The items as `AddFile` records them: each path made relative to the
      torrent root. */
  function Rekey(root: string, items: seq<Item>): (r: seq<Item>)
    requires ItemsUnderRoot(root, items)
    ensures |r| == |items|
  {
    Relabel(p => Rel(root, p), items)
  }

  lemma UnderRootConcat(root: string, a: seq<Item>, b: seq<Item>)
    ensures ItemsUnderRoot(root, a + b) <==> ItemsUnderRoot(root, a) && ItemsUnderRoot(root, b)
  {
    AllPathsConcat(p => Relatable(root, p), a, b);
  }

  lemma RekeyConcat(root: string, a: seq<Item>, b: seq<Item>)
    requires ItemsUnderRoot(root, a) && ItemsUnderRoot(root, b)
    ensures ItemsUnderRoot(root, a + b)
    ensures Rekey(root, a + b) == Rekey(root, a) + Rekey(root, b)
  {
    UnderRootConcat(root, a, b);
    RelabelConcat(p => Rel(root, p), a, b);
  }

  /** The first item rekeyed and the rest. */
  lemma RekeyCons(root: string, x: Item, rest: seq<Item>)
    requires Relatable(root, x.0) && ItemsUnderRoot(root, rest)
    ensures ItemsUnderRoot(root, [x] + rest)
    ensures Rekey(root, [x] + rest) == [(Rel(root, x.0).value, x.1)] + Rekey(root, rest)
  {
    UnderRootConcat(root, [x], rest);
    assert ([x] + rest)[0] == x && ([x] + rest)[1..] == rest;
  }

  /** Every item path of the folder lies below the torrent root. */
  predicate UnderRoot(root: string, folder: MusicFolder) {
    ItemsUnderRoot(root, FolderItems(folder.path, folder.files))
  }

  predicate AllUnderRoot(root: string, albums: seq<MusicFolder>) {
    ItemsUnderRoot(root, Items(albums))
  }

  /** The first item of a non-empty folder and the rest. */
  lemma FolderItemsCons(root: string, dir: string, files: seq<MusicFile>)
    requires |files| > 0
    ensures var head := (Join(dir, files[0].name), files[0].size);
      && FolderItems(dir, files) == [head] + FolderItems(dir, files[1..])
      && (ItemsUnderRoot(root, FolderItems(dir, files))
          <==> Relatable(root, head.0) && ItemsUnderRoot(root, FolderItems(dir, files[1..])))
  {
    var head := (Join(dir, files[0].name), files[0].size);
    UnderRootConcat(root, [head], FolderItems(dir, files[1..]));
    assert ItemsUnderRoot(root, [head]) <==> Relatable(root, head.0) by {
      assert [head][0] == head;
    }
  }

  /** The inner loop over an album's files: each item path is written with
      its size into the output's file list and added to the torrent, which
      records it relative to the torrent root. The first path `filepath.Rel`
      cannot relate to the root makes `AddFile` panic. */
  function AddItems(list: map<string, int>, tf: LT.TorrentFile, dir: string, files: seq<MusicFile>)
    : (r: Result<(map<string, int>, LT.TorrentFile), LT.AddFilePanic>)
    ensures r.Failure? <==> !ItemsUnderRoot(tf.rootPath, FolderItems(dir, files))
    ensures r.Success? ==>
      && r.value.0 == Stamp(list, FolderItems(dir, files))
      && r.value.1.paths == Stamp(tf.paths, Rekey(tf.rootPath, FolderItems(dir, files)))
      && r.value.1.totalFileSizeBytes == tf.totalFileSizeBytes + FileSizes(files)
      && r.value.1.rootPath == tf.rootPath
      && r.value.1.announce == tf.announce
    decreases |files|
  {
    if |files| == 0 then Success((list, tf))
    else
      var f := files[0];
      var item := Join(dir, f.name);
      FolderItemsCons(tf.rootPath, dir, files);
      match LT.AddFile(tf, item, f.size)
      case Failure(p) => Failure(p)
      case Success(tf') =>
        AddItems(list[item := f.size], tf', dir, files[1..])
  }

  /** The state of the loop after some folders: the output and the torrent
      file being filled. */
  datatype Scan = Scan(out: Output, tf: LT.TorrentFile)

  /** What the loop has established after the folders in `seen`. */
  predicate Summarised(s: Scan, seen: seq<MusicFolder>, scanPath: string, ignoreRipLogs: bool, tf0: LT.TorrentFile) {
    var albums := Albums(seen, ignoreRipLogs);
    && s.out.path == scanPath
    && s.out.foldersScanned == |seen|
    && s.out.albums == albums
    && s.out.skippedFolders == Skipped(seen, ignoreRipLogs, scanPath)
    && s.out.folderCnt == |albums|
    && s.out.accuripFolderCnt == CountAccurip(albums)
    && s.out.totalFileSizeBytes == SumTotalBytes(albums)
    && s.out.averageAlbumSizeBytes == SumTotalBytes(albums)
    && s.out.totalFiles == SumFileCnt(albums)
    && AllUnderRoot(tf0.rootPath, albums)
    && s.out.torrentFileList == Stamp(map[], Items(albums))
    && s.tf.paths == Stamp(tf0.paths, Rekey(tf0.rootPath, Items(albums)))
    && s.tf.totalFileSizeBytes == tf0.totalFileSizeBytes + AlbumFileBytes(albums)
    && s.tf.rootPath == tf0.rootPath
    && s.tf.announce == tf0.announce
  }

  /** After the loop, the output's file list has exactly the album item
      paths as keys, and the torrent has its earlier paths and the item
      paths made relative to its root. */
  lemma FileListKeys(s: Scan, seen: seq<MusicFolder>, scanPath: string, ignoreRipLogs: bool, tf0: LT.TorrentFile)
    requires Summarised(s, seen, scanPath, ignoreRipLogs, tf0)
    ensures s.out.torrentFileList.Keys == ItemKeys(Items(Albums(seen, ignoreRipLogs)))
    ensures s.tf.paths.Keys == tf0.paths.Keys + ItemKeys(Rekey(tf0.rootPath, Items(Albums(seen, ignoreRipLogs))))
  {
    var items := Items(Albums(seen, ignoreRipLogs));
    StampKeys(map[], items);
    StampKeys(tf0.paths, Rekey(tf0.rootPath, items));
  }

  /** An item path holds the size of the last file written to it, both in
      the output's file list and, made relative, in the torrent. */
  lemma FileListLastWrite(s: Scan, seen: seq<MusicFolder>, scanPath: string, ignoreRipLogs: bool,
                          tf0: LT.TorrentFile, i: nat)
    requires Summarised(s, seen, scanPath, ignoreRipLogs, tf0)
    requires var items := Items(Albums(seen, ignoreRipLogs));
      i < |items| && forall j :: i < j < |items| ==> items[j].0 != items[i].0
    ensures var items := Items(Albums(seen, ignoreRipLogs));
      items[i].0 in s.out.torrentFileList && s.out.torrentFileList[items[i].0] == items[i].1
  {
    StampLast(map[], Items(Albums(seen, ignoreRipLogs)), i);
  }

  /** The body of the loop for one folder. */
  function SummariseFolder(s: Scan, folder: MusicFolder, scanPath: string, ignoreRipLogs: bool)
    : (r: Result<Scan, LT.AddFilePanic>)
    ensures r.Failure? <==> Included(folder, ignoreRipLogs) && !UnderRoot(s.tf.rootPath, folder)
  {
    if Included(folder, ignoreRipLogs) then AddAlbum(s, folder)
    else Success(PassOver(s, folder, scanPath))
  }

  /** An album: its counters and totals are added in, it joins the album
      list, and its files go to the file list and the torrent. */
  function AddAlbum(s: Scan, folder: MusicFolder): (r: Result<Scan, LT.AddFilePanic>)
    ensures r.Failure? <==> !UnderRoot(s.tf.rootPath, folder)
    ensures r.Success? ==>
      var o, o' := s.out, r.value.out;
      && o'.path == o.path
      && o'.foldersScanned == o.foldersScanned + 1
      && o'.accuripFolderCnt == o.accuripFolderCnt + (if |folder.tocID| > 0 then 1 else 0)
      && o'.folderCnt == o.folderCnt + 1
      && o'.totalFileSizeBytes == o.totalFileSizeBytes + folder.totalBytes
      && o'.totalFiles == o.totalFiles + folder.fileCnt
      && o'.averageAlbumSizeBytes == o.averageAlbumSizeBytes + folder.totalBytes
      && o'.albums == o.albums + [folder]
      && o'.skippedFolders == o.skippedFolders
      && o'.torrentFileList == Stamp(o.torrentFileList, FolderItems(folder.path, folder.files))
      && r.value.tf.paths == Stamp(s.tf.paths, Rekey(s.tf.rootPath, FolderItems(folder.path, folder.files)))
      && r.value.tf.totalFileSizeBytes == s.tf.totalFileSizeBytes + FileSizes(folder.files)
      && r.value.tf.rootPath == s.tf.rootPath
      && r.value.tf.announce == s.tf.announce
  {
    var out := s.out.(
      foldersScanned := s.out.foldersScanned + 1,
      accuripFolderCnt := s.out.accuripFolderCnt + (if |folder.tocID| > 0 then 1 else 0),
      folderCnt := s.out.folderCnt + 1,
      totalFileSizeBytes := s.out.totalFileSizeBytes + folder.totalBytes,
      totalFiles := s.out.totalFiles + folder.fileCnt,
      averageAlbumSizeBytes := s.out.averageAlbumSizeBytes + folder.totalBytes,
      albums := s.out.albums + [folder]);
    match AddItems(out.torrentFileList, s.tf, folder.path, folder.files)
    case Failure(p) => Failure(p)
    case Success(added) => Success(Scan(out.(torrentFileList := added.0), added.1))
  }

  /** A folder left out: it is counted as scanned, and listed as skipped
      unless it is the scan root itself. */
  function PassOver(s: Scan, folder: MusicFolder, scanPath: string): (r: Scan)
    ensures r.tf == s.tf
    ensures r.out == s.out.(
      foldersScanned := s.out.foldersScanned + 1,
      skippedFolders := s.out.skippedFolders + (if folder.path != scanPath then [folder.path] else []))
  {
    var out := s.out.(foldersScanned := s.out.foldersScanned + 1);
    if folder.path != scanPath then Scan(out.(skippedFolders := out.skippedFolders + [folder.path]), s.tf)
    else Scan(out, s.tf)
  }

  /** One more folder keeps the loop's account. */
  lemma SummariseStep(s: Scan, seen: seq<MusicFolder>, folder: MusicFolder, scanPath: string,
                      ignoreRipLogs: bool, tf0: LT.TorrentFile)
    requires Summarised(s, seen, scanPath, ignoreRipLogs, tf0)
    requires SummariseFolder(s, folder, scanPath, ignoreRipLogs).Success?
    ensures Summarised(SummariseFolder(s, folder, scanPath, ignoreRipLogs).value, seen + [folder],
                       scanPath, ignoreRipLogs, tf0)
  {
    AppendFolder(seen, folder, ignoreRipLogs, scanPath);
    if Included(folder, ignoreRipLogs) {
      var albums := Albums(seen, ignoreRipLogs);
      var items := FolderItems(folder.path, folder.files);
      AppendAlbum(albums, folder, tf0.rootPath);
      StampConcat(map[], Items(albums), items);
      RekeyConcat(tf0.rootPath, Items(albums), items);
      StampConcat(tf0.paths, Rekey(tf0.rootPath, Items(albums)), Rekey(tf0.rootPath, items));
    }
  }

  /** The reference functions over the folders, one folder further. */
  lemma AppendFolder(seen: seq<MusicFolder>, folder: MusicFolder, ignoreRipLogs: bool, scanPath: string)
    ensures Included(folder, ignoreRipLogs) ==>
      && Albums(seen + [folder], ignoreRipLogs) == Albums(seen, ignoreRipLogs) + [folder]
      && Skipped(seen + [folder], ignoreRipLogs, scanPath) == Skipped(seen, ignoreRipLogs, scanPath)
    ensures !Included(folder, ignoreRipLogs) ==>
      && Albums(seen + [folder], ignoreRipLogs) == Albums(seen, ignoreRipLogs)
      && Skipped(seen + [folder], ignoreRipLogs, scanPath)
         == Skipped(seen, ignoreRipLogs, scanPath) + (if folder.path != scanPath then [folder.path] else [])
  {
    var all := seen + [folder];
    assert all[..|all| - 1] == seen && all[|all| - 1] == folder;
    assert Albums(seen, ignoreRipLogs) + [] == Albums(seen, ignoreRipLogs);
    assert Skipped(seen, ignoreRipLogs, scanPath) + [] == Skipped(seen, ignoreRipLogs, scanPath);
  }

  /** The reference functions over the albums, one album further. */
  lemma AppendAlbum(albums: seq<MusicFolder>, folder: MusicFolder, root: string)
    ensures var all := albums + [folder];
      && CountAccurip(all) == CountAccurip(albums) + (if |folder.tocID| > 0 then 1 else 0)
      && SumTotalBytes(all) == SumTotalBytes(albums) + folder.totalBytes
      && SumFileCnt(all) == SumFileCnt(albums) + folder.fileCnt
      && Items(all) == Items(albums) + FolderItems(folder.path, folder.files)
      && AlbumFileBytes(all) == AlbumFileBytes(albums) + FileSizes(folder.files)
      && (AllUnderRoot(root, all) <==> AllUnderRoot(root, albums) && UnderRoot(root, folder))
  {
    var all := albums + [folder];
    assert all[..|all| - 1] == albums && all[|all| - 1] == folder;
    UnderRootConcat(root, Items(albums), FolderItems(folder.path, folder.files));
  }

  /** The summary loop of `main` over the crawled folders, adding every
      album's files to the torrent `tf0` that `createTorrentFile` made. It
      panics exactly when `filepath.Rel` fails from the torrent root on the
      path of some album file: one path rooted and the other not, or a ".."
      left in the root where the two part. Otherwise the folder counts, the
      byte and file totals, the album and skipped lists, the output's file
      list, the torrent's relative paths and its running total all agree
      with the folders; `averageAlbumSizeBytes` holds the plain total, as
      in the source, which only divides for the printed average. */
  method SummariseFolders(folders: seq<MusicFolder>, scanPath: string, ignoreRipLogs: bool, tf0: LT.TorrentFile)
    returns (r: Result<Scan, LT.AddFilePanic>)
    ensures r.Failure? <==> !AllUnderRoot(tf0.rootPath, Albums(folders, ignoreRipLogs))
    ensures r.Success? ==> Summarised(r.value, folders, scanPath, ignoreRipLogs, tf0)
  {
    var s := Scan(InitialOutput(scanPath), tf0);
    InitialSummarised(scanPath, ignoreRipLogs, tf0);
    assert folders[..0] == [];
    var i := 0;
    while i < |folders|
      invariant i <= |folders|
      invariant Summarised(s, folders[..i], scanPath, ignoreRipLogs, tf0)
    {
      var next := SummariseFolder(s, folders[i], scanPath, ignoreRipLogs);
      if next.Failure? {
        PanicWitness(folders, ignoreRipLogs, i, tf0.rootPath);
        return Failure(next.error);
      }
      PrefixStep(s, folders, i, scanPath, ignoreRipLogs, tf0);
      s := next.value;
      i := i + 1;
    }
    assert folders[..i] == folders;
    return Success(s);
  }

  /** One more folder of `folders` keeps the loop's account. */
  lemma PrefixStep(s: Scan, folders: seq<MusicFolder>, i: nat, scanPath: string, ignoreRipLogs: bool,
                   tf0: LT.TorrentFile)
    requires i < |folders|
    requires Summarised(s, folders[..i], scanPath, ignoreRipLogs, tf0)
    requires SummariseFolder(s, folders[i], scanPath, ignoreRipLogs).Success?
    ensures Summarised(SummariseFolder(s, folders[i], scanPath, ignoreRipLogs).value, folders[..i + 1],
                       scanPath, ignoreRipLogs, tf0)
  {
    SummariseStep(s, folders[..i], folders[i], scanPath, ignoreRipLogs, tf0);
    assert folders[..i] + [folders[i]] == folders[..i + 1];
  }

  /** Before the first folder the account is empty. */
  lemma InitialSummarised(scanPath: string, ignoreRipLogs: bool, tf0: LT.TorrentFile)
    ensures Summarised(Scan(InitialOutput(scanPath), tf0), [], scanPath, ignoreRipLogs, tf0)
  {
  }

  /** An album with a file `filepath.Rel` cannot relate to the root leaves
      not every album below the root. */
  lemma {:induction false} PanicWitness(folders: seq<MusicFolder>, ignoreRipLogs: bool, i: nat, root: string)
    requires i < |folders| && Included(folders[i], ignoreRipLogs) && !UnderRoot(root, folders[i])
    ensures !AllUnderRoot(root, Albums(folders, ignoreRipLogs))
    decreases |folders|
  {
    var init := folders[..|folders| - 1];
    var last := folders[|folders| - 1];
    var albums := Albums(init, ignoreRipLogs);
    if i < |folders| - 1 {
      PanicWitness(init, ignoreRipLogs, i, root);
    }
    if Included(last, ignoreRipLogs) {
      assert Albums(folders, ignoreRipLogs) == albums + [last];
      AppendAlbum(albums, last, root);
      if i == |folders| - 1 {
        assert !UnderRoot(root, last);
      }
    } else {
      assert Albums(folders, ignoreRipLogs) == albums + [];
      assert albums + [] == albums;
    }
  }

  /** Every folder is counted exactly once: as an album, as a skipped
      folder, or as the scan root left out; so the scanned count bounds the
      album count, which bounds the count of albums with a TOC ID. */
  lemma {:induction false} FolderPartition(folders: seq<MusicFolder>, ignoreRipLogs: bool, scanPath: string)
    ensures |Albums(folders, ignoreRipLogs)| + |Skipped(folders, ignoreRipLogs, scanPath)|
          + RootDropped(folders, ignoreRipLogs, scanPath) == |folders|
    ensures CountAccurip(Albums(folders, ignoreRipLogs)) <= |Albums(folders, ignoreRipLogs)| <= |folders|
    decreases |folders|
  {
    if |folders| > 0 {
      FolderPartition(folders[..|folders| - 1], ignoreRipLogs, scanPath);
    }
  }

  /** With rip logs ignored every folder is an album and none is skipped. */
  lemma {:induction false} IgnoreKeepsAll(folders: seq<MusicFolder>, scanPath: string)
    ensures Albums(folders, true) == folders
    ensures Skipped(folders, true, scanPath) == []
    decreases |folders|
  {
    if |folders| > 0 {
      IgnoreKeepsAll(folders[..|folders| - 1], scanPath);
      assert folders == folders[..|folders| - 1] + [folders[|folders| - 1]];
    }
  }

  /** Otherwise the albums are exactly the folders with a TOC ID. */
  lemma {:induction false} AlbumsHaveTocID(folders: seq<MusicFolder>, a: MusicFolder)
    ensures a in Albums(folders, false) <==> a in folders && |a.tocID| > 0
    decreases |folders|
  {
    if |folders| > 0 {
      var init := folders[..|folders| - 1];
      AlbumsHaveTocID(init, a);
      assert folders == init + [folders[|folders| - 1]];
    }
  }
}
