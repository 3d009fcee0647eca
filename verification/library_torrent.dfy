/** The torrent writer of the main package (torrent.go): files are kept in
    a map from root-relative path to size, and `Create` recomputes the total
    from that map, lists one file per key, hashes, bencodes, derives the
    magnet link and writes the file. Go's map iteration order, anacrolix's
    piece-length choice, piece generation, bencoding and magnet derivation,
    and the output file are parameters. */
module LibraryTorrent {
  import opened Wrappers
  import opened Text
  import opened Paths
  import opened Metainfo
  import Pieces

  /** The `CreatedBy` value `Create` writes over the library default. */
  const CreatedBy: string := "milkdud"

  datatype TorrentFile = TorrentFile(
    totalFileSizeBytes: int,
    rootPath: string,
    paths: map<string, int>,
    announce: seq<string>)

  /** `createTorrentFile(rootPath, announce)`: an empty builder. */
  function CreateTorrentFile(rootPath: string, announce: seq<string>): (tf: TorrentFile)
    ensures tf.paths == map[] && tf.totalFileSizeBytes == 0
    ensures tf.rootPath == rootPath && tf.announce == announce
  {
    TorrentFile(0, rootPath, map[], announce)
  }

  /** `AddFile` panics when `filepath.Rel` fails. */
  datatype AddFilePanic = RelPanic(path: string)

  /** `AddFile(path, size)`: the relative path now maps to `size`, whatever
      it mapped to before, and the running total grows by `size` either way. */
  function AddFile(tf: TorrentFile, path: string, size: int): (r: Result<TorrentFile, AddFilePanic>)
    ensures r.Failure? <==> Rel(tf.rootPath, path).None?
    ensures r.Success? ==>
      && r.value.paths == tf.paths[Rel(tf.rootPath, path).value := size]
      && r.value.totalFileSizeBytes == tf.totalFileSizeBytes + size
      && r.value.rootPath == tf.rootPath && r.value.announce == tf.announce
  {
    match Rel(tf.rootPath, path)
    case None => Failure(RelPanic(path))
    case Some(rel) =>
      Success(tf.(paths := tf.paths[rel := size], totalFileSizeBytes := tf.totalFileSizeBytes + size))
  }

  /** Adding the same path twice keeps only the second size in the map but
      counts both sizes in the running total. */
  lemma AddFileTwice(tf: TorrentFile, path: string, first: int, second: int)
    requires Rel(tf.rootPath, path).Some?
    ensures AddFile(tf, path, first).Success?
    ensures var r := AddFile(AddFile(tf, path, first).value, path, second);
      && r.Success?
      && r.value.paths == tf.paths[Rel(tf.rootPath, path).value := second]
      && r.value.totalFileSizeBytes == tf.totalFileSizeBytes + first + second
  {
  }

  /** `order` is one way Go's `range` over a map with these keys may list
      them: each key exactly once, so the order has one place per key and
      holds nothing else. */
  predicate IsEnumeration(order: seq<string>, keys: set<string>) {
    && multiset(order) == multiset(keys)
    && |order| == |keys|
    && forall k :: 0 <= k < |order| ==> order[k] in keys
  }

  /** The sum of the mapped sizes, taken in the given order. */
  function SumOver(order: seq<string>, m: map<string, int>): int
    requires forall k :: 0 <= k < |order| ==> order[k] in m
  {
    if |order| == 0 then 0 else m[order[0]] + SumOver(order[1..], m)
  }

  /** An order with the keys' multiset enumerates them, and every key has
      its place in it. */
  lemma EnumerationKeys(order: seq<string>, keys: set<string>)
    requires multiset(order) == multiset(keys)
    ensures IsEnumeration(order, keys)
    ensures forall key :: key in keys ==> key in order
  {
    forall k | 0 <= k < |order|
      ensures order[k] in keys
    {
      assert order[k] in multiset(order);
    }
    forall key | key in keys
      ensures key in order
    {
      assert key in multiset(keys);
    }
    assert |multiset(order)| == |order|;
    assert |multiset(keys)| == |keys|;
  }

  /** Dropping the j-th key of an enumeration enumerates the other keys. */
  lemma EnumerationRemove(order: seq<string>, keys: set<string>, j: nat)
    requires IsEnumeration(order, keys) && j < |order|
    ensures order[j] in keys
    ensures IsEnumeration(order[..j] + order[j + 1..], keys - {order[j]})
  {
    var x := order[j];
    var rest := order[..j] + order[j + 1..];
    assert order == order[..j] + [x] + order[j + 1..];
    assert multiset(order) == multiset(order[..j]) + multiset{x} + multiset(order[j + 1..]);
    assert multiset(rest) == multiset(order[..j]) + multiset(order[j + 1..]);
    assert x in multiset(order);
    forall y
      ensures multiset(rest)[y] == multiset(keys - {x})[y]
    {
      assert multiset(rest)[y] + multiset{x}[y] == multiset(keys)[y];
      if y == x {
        assert x in keys;
        assert multiset(keys)[y] == 1 && multiset{x}[y] == 1;
        assert multiset(keys - {x})[y] == 0;
      } else {
        assert multiset{x}[y] == 0;
        assert (y in keys) == (y in keys - {x});
        assert multiset(keys)[y] == if y in keys then 1 else 0;
        assert multiset(keys - {x})[y] == if y in keys - {x} then 1 else 0;
      }
    }
    EnumerationKeys(rest, keys - {x});
  }

  /** Taking out the j-th key of the order takes out its size from the sum. */
  lemma {:induction false} SumOverRemove(order: seq<string>, m: map<string, int>, j: nat)
    requires forall k :: 0 <= k < |order| ==> order[k] in m
    requires j < |order|
    ensures SumOver(order, m) == m[order[j]] + SumOver(order[..j] + order[j + 1..], m)
    decreases |order|
  {
    if j > 0 {
      SumOverRemove(order[1..], m, j - 1);
      assert order[1..][..j - 1] + order[1..][j..] == (order[..j] + order[j + 1..])[1..];
    } else {
      assert order[..j] + order[j + 1..] == order[1..];
    }
  }

  /** The sum does not depend on the order the keys come in. */
  lemma {:induction false} SumOverPermutation(o1: seq<string>, o2: seq<string>, m: map<string, int>)
    requires forall k :: 0 <= k < |o1| ==> o1[k] in m
    requires multiset(o1) == multiset(o2)
    ensures forall k :: 0 <= k < |o2| ==> o2[k] in m
    ensures SumOver(o1, m) == SumOver(o2, m)
    decreases |o1|
  {
    SameMembers(o1, o2, m);
    if |o1| > 0 {
      var j := MatchFirst(o1, o2);
      var rest := o2[..j] + o2[j + 1..];
      SumOverRemove(o2, m, j);
      SumOverPermutation(o1[1..], rest, m);
    }
  }

  /** Sequences with the same multiset have the same members. */
  lemma SameMembers(o1: seq<string>, o2: seq<string>, m: map<string, int>)
    requires forall k :: 0 <= k < |o1| ==> o1[k] in m
    requires multiset(o1) == multiset(o2)
    ensures forall k :: 0 <= k < |o2| ==> o2[k] in m
  {
    forall k | 0 <= k < |o2|
      ensures o2[k] in m
    {
      assert o2[k] in multiset(o1);
    }
  }

  /** Sums over keys that avoid `key` do not see a change at `key`. */
  lemma {:induction false} SumOverUnaffected(order: seq<string>, m: map<string, int>, key: string, v: int)
    requires forall k :: 0 <= k < |order| ==> order[k] in m && order[k] != key
    ensures SumOver(order, m[key := v]) == SumOver(order, m)
    decreases |order|
  {
    if |order| > 0 {
      SumOverUnaffected(order[1..], m, key, v);
    }
  }

  /** `Create`'s total counts each distinct relative path once, with its
      latest size: setting a key to `v` changes the total by `v` minus the
      size it replaces, however the two maps are enumerated. */
  lemma SumOverUpdate(m: map<string, int>, key: string, v: int, before: seq<string>, after: seq<string>)
    requires IsEnumeration(before, m.Keys) && IsEnumeration(after, m[key := v].Keys)
    ensures forall k :: 0 <= k < |before| ==> before[k] in m
    ensures forall k :: 0 <= k < |after| ==> after[k] in m[key := v]
    ensures SumOver(after, m[key := v]) == SumOver(before, m) - (if key in m then m[key] else 0) + v
  {
    EnumerationKeys(before, m.Keys);
    var rest := UpdatedSum(m, key, v, after);
    if key in m {
      var i :| 0 <= i < |before| && before[i] == key;
      SumOverRemove(before, m, i);
      EnumerationRemove(before, m.Keys, i);
      SumOverPermutation(before[..i] + before[i + 1..], rest, m);
    } else {
      assert m.Keys - {key} == m.Keys;
      SumOverPermutation(before, rest, m);
    }
  }

  /** The sum over the updated map is `v` plus the sum of the old sizes of
      the other keys, taken in the order `rest` that they come in. */
  lemma UpdatedSum(m: map<string, int>, key: string, v: int, after: seq<string>) returns (rest: seq<string>)
    requires IsEnumeration(after, m[key := v].Keys)
    ensures forall k :: 0 <= k < |after| ==> after[k] in m[key := v]
    ensures IsEnumeration(rest, m.Keys - {key})
    ensures forall k :: 0 <= k < |rest| ==> rest[k] in m
    ensures SumOver(after, m[key := v]) == v + SumOver(rest, m)
  {
    var m' := m[key := v];
    EnumerationKeys(after, m'.Keys);
    var j :| 0 <= j < |after| && after[j] == key;
    rest := after[..j] + after[j + 1..];
    SumOverRemove(after, m', j);
    EnumerationRemove(after, m'.Keys, j);
    assert m'.Keys - {key} == m.Keys - {key};
    EnumerationKeys(rest, m.Keys - {key});
    SumOverUnaffected(rest, m, key, v);
  }

  /** The file list `Create` builds: one entry per key, in iteration order. */
  function FileList(order: seq<string>, m: map<string, int>): (files: seq<FileInfo>)
    requires forall k :: 0 <= k < |order| ==> order[k] in m
    ensures |files| == |order|
    ensures forall k :: 0 <= k < |order| ==>
      && files[k].length == m[order[k]]
      && files[k].path == Split(order[k], Separator)
  {
    if |order| == 0 then [] else [FileInfo(m[order[0]], Split(order[0], Separator))] + FileList(order[1..], m)
  }

  /** Everything `Create` learns from outside: anacrolix's
      `ChoosePieceLength`, `Info.GeneratePieces` (which reads the files),
      `bencode.Marshal`, `MetaInfo.Magnet`, the clock `SetDefaults` reads,
      and the outcomes of opening and writing the output file. */
  datatype Environment = Environment(
    choosePieceLength: int -> int,
    generatePieces: Info -> Result<seq<Pieces.byte>, string>,
    marshal: Info -> Result<seq<Pieces.byte>, string>,
    magnet: MetaInfo -> string,
    now: int,
    openError: Option<string>,
    writeError: MetaInfo -> Option<string>)

  /** The outer dictionary before the info bytes are set. */
  function AssembleMetaInfo(tf: TorrentFile, comment: string, now: int): (mi: MetaInfo)
    ensures Trackers(mi.announceList) == tf.announce
    ensures |mi.announceList| == |tf.announce|
    ensures forall k :: 0 <= k < |tf.announce| ==> mi.announceList[k] == [tf.announce[k]]
    ensures mi.comment == comment && mi.createdBy == CreatedBy && mi.infoBytes == []
  {
    var tiers := AnnounceTiers(tf.announce);
    assert forall k :: 0 <= k < |tf.announce| ==> tiers[k] == [tf.announce[k]] by {
      forall k | 0 <= k < |tf.announce| {
        AnnounceTierAt(tf.announce, k);
      }
    }
    MetaInfo([], tiers, comment, CreatedBy, now)
  }

  /** The info dictionary before piece generation. `sumOrder` and
      `filesOrder` are the orders of the two `range` loops over the map. */
  function AssembleInfo(tf: TorrentFile, torrentFsRoot: string, sumOrder: seq<string>, filesOrder: seq<string>,
                        choosePieceLength: int -> int): (info: Info)
    requires IsEnumeration(sumOrder, tf.paths.Keys) && IsEnumeration(filesOrder, tf.paths.Keys)
    ensures info.name == torrentFsRoot && info.private && info.pieces == []
    ensures |info.files| == |tf.paths|
    ensures forall k :: 0 <= k < |info.files| ==>
      && filesOrder[k] in tf.paths
      && info.files[k].length == tf.paths[filesOrder[k]]
      && SortKey(info.files[k]) == filesOrder[k]
    ensures forall key :: key in tf.paths ==> key in filesOrder
    ensures info.length == (if |filesOrder| == 0 then 0 else tf.paths[filesOrder[|filesOrder| - 1]])
    ensures var first := choosePieceLength(SumOver(sumOrder, tf.paths));
      info.pieceLength == (if first != 0 then first else choosePieceLength(TotalLength(info)))
  {
    EnumerationKeys(sumOrder, tf.paths.Keys);
    EnumerationKeys(filesOrder, tf.paths.Keys);
    var total := SumOver(sumOrder, tf.paths);
    var files := FileList(filesOrder, tf.paths);
    var info := Info(choosePieceLength(total), [], torrentFsRoot,
      if |filesOrder| == 0 then 0 else tf.paths[filesOrder[|filesOrder| - 1]],
      true, files);
    if info.pieceLength == 0 then info.(pieceLength := choosePieceLength(TotalLength(info))) else info
  }

  /** The file list's lengths add up to the map's sum. */
  lemma {:induction false} SumLengthsFileList(order: seq<string>, m: map<string, int>)
    requires forall k :: 0 <= k < |order| ==> order[k] in m
    ensures SumLengths(FileList(order, m)) == SumOver(order, m)
    decreases |order|
  {
    if |order| > 0 {
      SumLengthsFileList(order[1..], m);
    }
  }

  /** The piece length is the one chosen for the sum over the map, in
      which a path added twice counts once: the fallback to the info's
      total length recomputes that same sum, so it never changes the
      choice. */
  lemma PieceLengthOfMapTotal(tf: TorrentFile, torrentFsRoot: string, sumOrder: seq<string>, filesOrder: seq<string>,
                              choosePieceLength: int -> int)
    requires IsEnumeration(sumOrder, tf.paths.Keys) && IsEnumeration(filesOrder, tf.paths.Keys)
    ensures AssembleInfo(tf, torrentFsRoot, sumOrder, filesOrder, choosePieceLength).pieceLength
         == choosePieceLength(SumOver(sumOrder, tf.paths))
  {
    var info := AssembleInfo(tf, torrentFsRoot, sumOrder, filesOrder, choosePieceLength);
    if |tf.paths| == 0 {
      assert TotalLength(info) == 0;
    } else {
      SumLengthsFileList(filesOrder, tf.paths);
      SumOverPermutation(filesOrder, sumOrder, tf.paths);
      assert TotalLength(info) == SumOver(sumOrder, tf.paths);
    }
  }

  /** The total behind the piece length is a sum over the map, so the
      order the first `range` loop happens to take does not matter. */
  lemma AssembleInfoIgnoresSumOrder(tf: TorrentFile, torrentFsRoot: string, o1: seq<string>, o2: seq<string>,
                                    filesOrder: seq<string>, choosePieceLength: int -> int)
    requires IsEnumeration(o1, tf.paths.Keys) && IsEnumeration(o2, tf.paths.Keys)
    requires IsEnumeration(filesOrder, tf.paths.Keys)
    ensures AssembleInfo(tf, torrentFsRoot, o1, filesOrder, choosePieceLength)
         == AssembleInfo(tf, torrentFsRoot, o2, filesOrder, choosePieceLength)
  {
    EnumerationKeys(o1, tf.paths.Keys);
    SumOverPermutation(o1, o2, tf.paths);
  }

  datatype CreateError =
    | PieceGenerationFailed(cause: string)
    | BencodeFailed(cause: string)
    | OpenFailed(cause: string)
    | WriteFailed(cause: string)

  /** `Create(torrentFsRoot, outFile, comment)`: the magnet link on success.
      Go returns "" next to every error. */
  function Create(tf: TorrentFile, torrentFsRoot: string, comment: string,
                  sumOrder: seq<string>, filesOrder: seq<string>, env: Environment): (r: Result<string, CreateError>)
    requires IsEnumeration(sumOrder, tf.paths.Keys) && IsEnumeration(filesOrder, tf.paths.Keys)
    ensures var info := AssembleInfo(tf, torrentFsRoot, sumOrder, filesOrder, env.choosePieceLength);
      env.generatePieces(info).Failure? ==> r == Failure(PieceGenerationFailed(env.generatePieces(info).error))
    ensures var info := AssembleInfo(tf, torrentFsRoot, sumOrder, filesOrder, env.choosePieceLength);
      env.generatePieces(info).Success? ==>
        var hashed := info.(pieces := env.generatePieces(info).value);
        && (env.marshal(hashed).Failure? ==> r == Failure(BencodeFailed(env.marshal(hashed).error)))
        && (env.marshal(hashed).Success? && env.openError.Some? ==> r == Failure(OpenFailed(env.openError.value)))
        && (env.marshal(hashed).Success? && env.openError.None? ==>
          var written := AssembleMetaInfo(tf, comment, env.now).(infoBytes := env.marshal(hashed).value);
          && (env.writeError(written).Some? ==> r == Failure(WriteFailed(env.writeError(written).value)))
          && (env.writeError(written).None? ==> r == Success(env.magnet(written))))
  {
    var mi := AssembleMetaInfo(tf, comment, env.now);
    var info := AssembleInfo(tf, torrentFsRoot, sumOrder, filesOrder, env.choosePieceLength);
    match env.generatePieces(info)
    case Failure(e) => Failure(PieceGenerationFailed(e))
    case Success(pieces) =>
      match env.marshal(info.(pieces := pieces))
      case Failure(e) => Failure(BencodeFailed(e))
      case Success(bytes) =>
        var withInfo := mi.(infoBytes := bytes);
        var magnetURL := env.magnet(withInfo);
        if env.openError.Some? then Failure(OpenFailed(env.openError.value))
        else match env.writeError(withInfo)
          case Some(e) => Failure(WriteFailed(e))
          case None => Success(magnetURL)
  }

  /** On success the link is the magnet of the written metainfo: announce
      tiers, "milkdud" as creator and the bencoded info carrying the pieces. */
  lemma CreateReturnsMagnet(tf: TorrentFile, torrentFsRoot: string, comment: string,
                            sumOrder: seq<string>, filesOrder: seq<string>, env: Environment)
    requires IsEnumeration(sumOrder, tf.paths.Keys) && IsEnumeration(filesOrder, tf.paths.Keys)
    requires Create(tf, torrentFsRoot, comment, sumOrder, filesOrder, env).Success?
    ensures var info := AssembleInfo(tf, torrentFsRoot, sumOrder, filesOrder, env.choosePieceLength);
      && env.generatePieces(info).Success?
      && env.marshal(info.(pieces := env.generatePieces(info).value)).Success?
      && Create(tf, torrentFsRoot, comment, sumOrder, filesOrder, env).value
         == env.magnet(AssembleMetaInfo(tf, comment, env.now).(infoBytes := env.marshal(info.(pieces := env.generatePieces(info).value)).value))
      && env.openError.None?
  {
  }

  /** A piece-generation failure ends `Create` before the output file is
      opened: the result is the same whatever opening or writing would do. */
  lemma CreateAbortsBeforeOpening(tf: TorrentFile, torrentFsRoot: string, comment: string,
                                  sumOrder: seq<string>, filesOrder: seq<string>, env: Environment,
                                  openError: Option<string>, writeError: MetaInfo -> Option<string>)
    requires IsEnumeration(sumOrder, tf.paths.Keys) && IsEnumeration(filesOrder, tf.paths.Keys)
    requires env.generatePieces(AssembleInfo(tf, torrentFsRoot, sumOrder, filesOrder, env.choosePieceLength)).Failure?
    ensures Create(tf, torrentFsRoot, comment, sumOrder, filesOrder, env.(openError := openError, writeError := writeError))
         == Create(tf, torrentFsRoot, comment, sumOrder, filesOrder, env)
  {
  }
}
