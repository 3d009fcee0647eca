/** Piece construction (`generatePieces` in torrent/torrent.go): the byte
    stream is cut into windows of `pieceLength` bytes and each window is
    hashed into a 20-byte digest; the digests, concatenated, are the "pieces"
    string of the info dictionary of BEP 3 (The BitTorrent Protocol
    Specification). SHA-1 is an uninterpreted parameter `hash`. */
module Pieces {
  import opened Wrappers

  type byte = b: int | 0 <= b < 256

  const DigestLength: nat := 20

  type Digest = d: seq<byte> | |d| == DigestLength witness seq(20, _ => 0)

  /** A reader as `generatePieces` sees it: it delivers `data` and then
      reports end of file (`failure == None`) or a read error. */
  datatype Stream = Stream(data: seq<byte>, failure: Option<string>)

  /** How one `io.CopyN(h, r, n)` call ends. */
  datatype CopyStatus = Full | AtEOF | ReadFailed(cause: string)

  /** `io.CopyN(h, r, n)`: up to `n` bytes move into the hash; with fewer
      than `n` left the call reports the reader's end (EOF or its error). */
  function CopyN(r: Stream, n: nat): (res: (seq<byte>, Stream, CopyStatus))
    ensures res.0 + res.1.data == r.data && res.1.failure == r.failure
    ensures |res.0| <= n
    ensures res.2 == Full <==> |res.0| == n
  {
    if |r.data| >= n then (r.data[..n], Stream(r.data[n..], r.failure), Full)
    else if r.failure.None? then (r.data, Stream([], None), AtEOF)
    else (r.data, Stream([], r.failure), ReadFailed(r.failure.value))
  }

  /** The consecutive windows of `data`: each `pieceLength` long except a
      shorter non-empty last one. */
  function Windows(data: seq<byte>, pieceLength: nat): seq<seq<byte>>
    requires pieceLength > 0
    decreases |data|
  {
    if |data| == 0 then []
    else if |data| <= pieceLength then [data]
    else [data[..pieceLength]] + Windows(data[pieceLength..], pieceLength)
  }

  function HashAll(windows: seq<seq<byte>>, hash: seq<byte> -> Digest): (ds: seq<Digest>)
    ensures |ds| == |windows|
    ensures forall k :: 0 <= k < |windows| ==> ds[k] == hash(windows[k])
  {
    if |windows| == 0 then [] else [hash(windows[0])] + HashAll(windows[1..], hash)
  }

  function Flatten<T>(parts: seq<seq<T>>): seq<T> {
    if |parts| == 0 then [] else parts[0] + Flatten(parts[1..])
  }

  /** The pieces string for a whole stream: one digest per window. */
  function PiecesOf(data: seq<byte>, pieceLength: nat, hash: seq<byte> -> Digest): seq<byte>
    requires pieceLength > 0
  {
    Flatten(HashAll(Windows(data, pieceLength), hash))
  }

  /** ceil(n / d), characterised without division: the least c with
      n <= c * d. */
  function CeilDiv(n: nat, d: nat): (c: nat)
    requires d > 0
    ensures c == 0 <==> n == 0
    ensures c > 0 ==> (c - 1) * d < n <= c * d
    decreases n
  {
    if n == 0 then 0
    else if n <= d then 1
    else
      var c := CeilDiv(n - d, d);
      assert c * d == (c - 1) * d + d;
      assert (c + 1) * d == c * d + d;
      c + 1
  }

  /** A stream of m whole pieces has exactly m windows. */
  lemma {:induction false} CeilDivExact(m: nat, d: nat)
    requires d > 0
    ensures CeilDiv(m * d, d) == m
    decreases m
  {
    if m == 1 {
      assert m * d == d;
    } else if m > 1 {
      var n := m * d;
      assert n == (m - 1) * d + d;
      assert (m - 1) * d == (m - 2) * d + d;
      assert (m - 2) * d >= 0;
      CeilDivExact(m - 1, d);
      assert CeilDiv(n, d) == CeilDiv(n - d, d) + 1;
    }
  }

  /** `generatePieces(r, pieceLength, b)`: appends one digest per window of
      the bytes read; the error it returns is the reader's, nil on EOF. The
      digests of everything read before a failure are still appended. */
  method GeneratePieces(r: Stream, pieceLength: nat, b: seq<byte>, hash: seq<byte> -> Digest)
    returns (out: seq<byte>, err: Option<string>)
    requires pieceLength > 0
    ensures out == b + PiecesOf(r.data, pieceLength, hash)
    ensures err == r.failure
  {
    out := b;
    var rest := r;
    while true
      invariant rest.failure == r.failure
      invariant out + PiecesOf(rest.data, pieceLength, hash) == b + PiecesOf(r.data, pieceLength, hash)
      decreases |rest.data|
    {
      var copied := CopyN(rest, pieceLength);
      var written, next, status := copied.0, copied.1, copied.2;
      if |rest.data| > pieceLength {
        assert written == rest.data[..pieceLength] && next.data == rest.data[pieceLength..];
        assert PiecesOf(rest.data, pieceLength, hash) == hash(written) + PiecesOf(next.data, pieceLength, hash);
      } else if |rest.data| > 0 {
        assert written == rest.data && next.data == [];
        assert PiecesOf(rest.data, pieceLength, hash) == hash(written) + Flatten<byte>([]);
      } else {
        assert written == [] && PiecesOf(rest.data, pieceLength, hash) == [];
      }
      if |written| > 0 {
        out := out + hash(written);
      }
      if status == AtEOF {
        return out, None;
      }
      if status.ReadFailed? {
        return out, Some(status.cause);
      }
      rest := next;
    }
  }

  /** There are ceil(n / pieceLength) windows: none for an empty stream, and
      no extra one when the stream ends on a piece boundary. */
  lemma {:induction false} WindowCount(data: seq<byte>, pieceLength: nat)
    requires pieceLength > 0
    ensures |Windows(data, pieceLength)| == CeilDiv(|data|, pieceLength)
    decreases |data|
  {
    if |data| > pieceLength {
      WindowCount(data[pieceLength..], pieceLength);
    }
  }

  /** Window k is exactly bytes [k * L, min((k + 1) * L, n)) of the stream. */
  lemma {:induction false} WindowContents(data: seq<byte>, pieceLength: nat, k: nat)
    requires pieceLength > 0 && k < |Windows(data, pieceLength)|
    ensures k * pieceLength < |data|
    ensures Windows(data, pieceLength)[k]
         == data[k * pieceLength..Min((k + 1) * pieceLength, |data|)]
    decreases |data|
  {
    var l := pieceLength;
    if |data| > l && k > 0 {
      WindowContents(data[l..], l, k - 1);
      assert (k - 1) * l + l == k * l;
      assert k * l + l == (k + 1) * l;
      assert data[l..][(k - 1) * l..Min(k * l, |data| - l)]
          == data[k * l..Min((k + 1) * l, |data|)];
    }
  }

  function Min(a: int, b: int): int {
    if a <= b then a else b
  }

  /** Every window but the last is a full piece; the last one is non-empty
      and holds the n - (c - 1) * L bytes left over, which is L exactly when
      the stream ends on a piece boundary. */
  lemma {:induction false} WindowSizes(data: seq<byte>, pieceLength: nat)
    requires pieceLength > 0
    ensures var ws := Windows(data, pieceLength);
      && (forall k :: 0 <= k < |ws| - 1 ==> |ws[k]| == pieceLength)
      && (|ws| > 0 ==> 0 < |ws[|ws| - 1]| == |data| - (|ws| - 1) * pieceLength <= pieceLength)
    decreases |data|
  {
    var l := pieceLength;
    if |data| > l {
      var ws := Windows(data, l);
      var tail := Windows(data[l..], l);
      WindowSizes(data[l..], l);
      assert ws == [data[..l]] + tail;
      assert |tail| > 0;
      forall k | 0 < k < |ws| - 1
        ensures |ws[k]| == l
      {
        assert ws[k] == tail[k - 1];
      }
      MulSucc(|tail| - 1, l);
    }
  }

  /** One more factor adds one more `d`. */
  lemma MulSucc(m: nat, d: nat)
    ensures (m + 1) * d == m * d + d
  {
  }

  /** Concatenating the windows gives the stream back. */
  lemma {:induction false} WindowsPartition(data: seq<byte>, pieceLength: nat)
    requires pieceLength > 0
    ensures Flatten(Windows(data, pieceLength)) == data
    decreases |data|
  {
    var l := pieceLength;
    if |data| > l {
      WindowsPartition(data[l..], l);
      assert data == data[..l] + data[l..];
    } else if |data| > 0 {
      assert Flatten([data]) == data + Flatten([]);
    }
  }

  lemma {:induction false} FlattenDigestsLength(ds: seq<Digest>)
    ensures |Flatten(ds)| == DigestLength * |ds|
    decreases |ds|
  {
    if |ds| > 0 {
      FlattenDigestsLength(ds[1..]);
    }
  }

  /** Digest k of the flat pieces string sits at offset 20 * k. */
  lemma {:induction false} FlattenDigestAt(ds: seq<Digest>, k: nat)
    requires k < |ds|
    ensures |Flatten(ds)| == DigestLength * |ds|
    ensures Flatten(ds)[DigestLength * k..DigestLength * (k + 1)] == ds[k]
    decreases |ds|
  {
    FlattenDigestsLength(ds);
    if k > 0 {
      FlattenDigestAt(ds[1..], k - 1);
      FlattenDigestsLength(ds[1..]);
      assert Flatten(ds) == ds[0] + Flatten(ds[1..]);
      assert DigestLength * k == DigestLength + DigestLength * (k - 1);
    } else {
      assert Flatten(ds) == ds[0] + Flatten(ds[1..]);
    }
  }

  /** The piece accounting of `generatePieces`: the pieces string is
      20 * ceil(n / L) bytes and its k-th digest is the hash of bytes
      [k * L, min((k + 1) * L, n)). */
  lemma PiecesLayout(data: seq<byte>, pieceLength: nat, hash: seq<byte> -> Digest, k: nat)
    requires pieceLength > 0
    ensures |PiecesOf(data, pieceLength, hash)| == DigestLength * CeilDiv(|data|, pieceLength)
    ensures k < CeilDiv(|data|, pieceLength) ==>
      && k * pieceLength < |data|
      && PiecesOf(data, pieceLength, hash)[DigestLength * k..DigestLength * (k + 1)]
         == hash(data[k * pieceLength..Min((k + 1) * pieceLength, |data|)])
  {
    var ws := Windows(data, pieceLength);
    var ds := HashAll(ws, hash);
    WindowCount(data, pieceLength);
    FlattenDigestsLength(ds);
    if k < CeilDiv(|data|, pieceLength) {
      FlattenDigestAt(ds, k);
      WindowContents(data, pieceLength, k);
    }
  }

  /** An empty stream gives an empty pieces string. */
  lemma PiecesOfEmpty(pieceLength: nat, hash: seq<byte> -> Digest)
    requires pieceLength > 0
    ensures PiecesOf([], pieceLength, hash) == []
  {
  }

  /** Two files of ten bytes each (0x00 then 0x01) with L = 16: the first
      piece spans the file boundary without padding, the second holds the
      last four bytes of the second file. */
  lemma CrossFileBoundary(hash: seq<byte> -> Digest)
    ensures var a, b := seq(10, _ => 0), seq(10, _ => 1);
      PiecesOf(a + b, 16, hash) == hash(a + b[..6]) + hash(b[6..])
  {
    var a, b := seq(10, _ => 0), seq(10, _ => 1);
    var data := a + b;
    assert data[..16] == a + b[..6];
    assert data[16..] == b[6..];
    assert Windows(data, 16) == [a + b[..6], b[6..]];
    assert HashAll([a + b[..6], b[6..]], hash) == [hash(a + b[..6]), hash(b[6..])];
    assert Flatten([hash(a + b[..6]), hash(b[6..])]) == hash(a + b[..6]) + (hash(b[6..]) + Flatten<byte>([]));
  }
}
