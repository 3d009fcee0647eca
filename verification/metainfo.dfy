/** The parts of anacrolix's `metainfo` package the program fills in: file
    entries, the info dictionary, the outer metainfo record, and the file
    ordering `Create` in torrent/torrent.go imposes before hashing. */
module Metainfo {
  import opened Text
  import Pieces

  /** `metainfo.FileInfo`: a length and the path as a list of segments. */
  datatype FileInfo = FileInfo(length: int, path: seq<string>)

  /** `metainfo.Info`. `private` stands for the `*bool` the program always
      points at `true`; `length` is the single-file length. */
  datatype Info = Info(
    pieceLength: int,
    pieces: seq<Pieces.byte>,
    name: string,
    length: int,
    private: bool,
    files: seq<FileInfo>)

  /** `metainfo.MetaInfo`: the outer dictionary. */
  datatype MetaInfo = MetaInfo(
    infoBytes: seq<Pieces.byte>,
    announceList: seq<seq<string>>,
    comment: string,
    createdBy: string,
    creationDate: int)

  /** One single-URL tier per tracker, in tracker order. */
  function AnnounceTiers(trackers: seq<string>): (tiers: seq<seq<string>>)
    ensures |tiers| == |trackers|
    ensures Trackers(tiers) == trackers
  {
    if |trackers| == 0 then []
    else [[trackers[0]]] + AnnounceTiers(trackers[1..])
  }

  /** All tracker URLs of a tier list, tier by tier. */
  function Trackers(tiers: seq<seq<string>>): seq<string> {
    if |tiers| == 0 then [] else tiers[0] + Trackers(tiers[1..])
  }

  /** Tier k of `AnnounceTiers` holds just the k-th tracker. */
  lemma {:induction false} AnnounceTierAt(trackers: seq<string>, k: nat)
    requires k < |trackers|
    ensures AnnounceTiers(trackers)[k] == [trackers[k]]
    decreases k
  {
    if k > 0 {
      AnnounceTierAt(trackers[1..], k - 1);
    }
  }

  function SumLengths(files: seq<FileInfo>): int {
    if |files| == 0 then 0 else files[0].length + SumLengths(files[1..])
  }

  /** Taking out the j-th file takes out its length from the sum. */
  lemma {:induction false} SumLengthsRemove(files: seq<FileInfo>, j: nat)
    requires j < |files|
    ensures SumLengths(files) == files[j].length + SumLengths(files[..j] + files[j + 1..])
    decreases j
  {
    if j > 0 {
      SumLengthsRemove(files[1..], j - 1);
      assert files[1..][..j - 1] + files[1..][j..] == (files[..j] + files[j + 1..])[1..];
    } else {
      assert files[..j] + files[j + 1..] == files[1..];
    }
  }

  /** The first element of `o1` occurs in a permutation `o2` of it, and
      removing it from both leaves permutations of each other. */
  lemma MatchFirst<T>(o1: seq<T>, o2: seq<T>) returns (j: nat)
    requires |o1| > 0 && multiset(o1) == multiset(o2)
    ensures j < |o2| && o2[j] == o1[0]
    ensures multiset(o1[1..]) == multiset(o2[..j] + o2[j + 1..])
  {
    assert o1[0] in multiset(o2);
    j :| 0 <= j < |o2| && o2[j] == o1[0];
    MultisetRemove(o2, j);
    MultisetRemove(o1, 0);
    assert o1[..0] + o1[1..] == o1[1..];
    var a, b, x := multiset(o1[1..]), multiset(o2[..j] + o2[j + 1..]), multiset{o1[0]};
    assert a + x == b + x;
    forall y
      ensures a[y] == b[y]
    {
      assert (a + x)[y] == a[y] + x[y] && (b + x)[y] == b[y] + x[y];
    }
  }

  /** Taking out the j-th element takes out one occurrence from the
      multiset. */
  lemma MultisetRemove<T>(s: seq<T>, j: nat)
    requires j < |s|
    ensures multiset(s) == multiset(s[..j] + s[j + 1..]) + multiset{s[j]}
  {
    assert s == s[..j] + [s[j]] + s[j + 1..];
  }

  /** The summed length does not depend on the order of the files. */
  lemma {:induction false} SumLengthsPermutation(a: seq<FileInfo>, b: seq<FileInfo>)
    requires multiset(a) == multiset(b)
    ensures SumLengths(a) == SumLengths(b)
    decreases |a|
  {
    if |a| == 0 {
      assert |multiset(b)| == 0;
    } else {
      var j := MatchFirst(a, b);
      SumLengthsRemove(b, j);
      SumLengthsPermutation(a[1..], b[..j] + b[j + 1..]);
    }
  }

  /** `Info.TotalLength`: the sum of the file lengths of a multi-file info,
      the single length otherwise. */
  function TotalLength(info: Info): int {
    if |info.files| == 0 then info.length else SumLengths(info.files)
  }

  /** Reordering the file list leaves the total length alone. */
  lemma TotalLengthReordered(info: Info, files: seq<FileInfo>)
    requires multiset(files) == multiset(info.files)
    ensures TotalLength(info.(files := files)) == TotalLength(info)
  {
    SumLengthsPermutation(files, info.files);
    if |info.files| == 0 {
      assert |multiset(files)| == 0;
    } else {
      assert info.files[0] in multiset(files);
    }
  }

  /** The sort key of `Create`: the path segments joined with "/". */
  function SortKey(f: FileInfo): string {
    JoinWith(f.path, '/')
  }

  predicate SortedByPath(files: seq<FileInfo>) {
    forall i, j :: 0 <= i < j < |files| ==> !Less(SortKey(files[j]), SortKey(files[i]))
  }

  /** No entry of `files` sorts before `key`. */
  predicate NoneBelow(key: string, files: seq<FileInfo>) {
    forall j :: 0 <= j < |files| ==> !Less(SortKey(files[j]), key)
  }

  /** Insert `f` before the first entry whose key is not smaller. */
  function Insert(f: FileInfo, files: seq<FileInfo>): (r: seq<FileInfo>)
    requires SortedByPath(files)
    ensures SortedByPath(r)
    ensures multiset(r) == multiset(files) + multiset{f}
  {
    if |files| == 0 then [f]
    else if !Less(SortKey(files[0]), SortKey(f)) then
      InsertFront(f, files);
      [f] + files
    else
      var tail := Insert(f, files[1..]);
      InsertBehind(f, files, tail);
      [files[0]] + tail
  }

  /** `f` sorts no later than the head, so no entry of a sorted list sorts
      before it. */
  lemma InsertFront(f: FileInfo, files: seq<FileInfo>)
    requires SortedByPath(files) && |files| > 0
    requires !Less(SortKey(files[0]), SortKey(f))
    ensures SortedByPath([f] + files)
  {
    var c := SortKey(f);
    var a := SortKey(files[0]);
    forall j | 0 < j < |files|
      ensures !Less(SortKey(files[j]), c)
    {
      var b := SortKey(files[j]);
      assert !Less(b, a);
      if Less(b, c) {
        if a != b {
          LessTotal(a, b);
          LessTransitive(a, b, c);
        }
      }
    }
    assert NoneBelow(c, files);
  }

  /** The head sorts before `f`, so it may stay in front of the sorted
      insertion of `f` into the rest. */
  lemma InsertBehind(f: FileInfo, files: seq<FileInfo>, tail: seq<FileInfo>)
    requires SortedByPath(files) && |files| > 0
    requires Less(SortKey(files[0]), SortKey(f))
    requires SortedByPath(tail)
    requires multiset(tail) == multiset(files[1..]) + multiset{f}
    ensures SortedByPath([files[0]] + tail)
    ensures multiset([files[0]] + tail) == multiset(files) + multiset{f}
  {
    var a := SortKey(files[0]);
    assert files == [files[0]] + files[1..];
    forall j | 0 <= j < |tail|
      ensures !Less(SortKey(tail[j]), a)
    {
      var x := tail[j];
      assert x in multiset(tail);
      if x == f {
        LessAsymmetric(a, SortKey(f));
      } else {
        assert x in multiset(files[1..]);
        var i :| 0 <= i < |files[1..]| && files[1..][i] == x;
        assert files[i + 1] == x;
      }
    }
    var r := [files[0]] + tail;
    forall i, j | 0 <= i < j < |r|
      ensures !Less(SortKey(r[j]), SortKey(r[i]))
    {
      if i > 0 {
        assert r[i] == tail[i - 1] && r[j] == tail[j - 1];
      } else {
        assert r[j] == tail[j - 1];
      }
    }
  }

  /** The sort `Create` applies to `info.Files`: the result is a permutation
      of the input, ascending by "/"-joined path. */
  function SortByPath(files: seq<FileInfo>): (r: seq<FileInfo>)
    ensures SortedByPath(r)
    ensures multiset(r) == multiset(files)
  {
    if |files| == 0 then []
    else
      assert files == [files[0]] + files[1..];
      Insert(files[0], SortByPath(files[1..]))
  }
}
