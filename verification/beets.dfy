/** The beets library reader (beets/beets.go) without its SQL: query
    results arrive as already-fetched rows, and the model covers how they
    are turned into album records. */
module Beets {
  import opened Wrappers
  import opened Paths

  datatype Track = Track(id: int, path: string)

  datatype AlbumSummary = AlbumSummary(id: int, title: string, artist: string)

  datatype Album = Album(
    id: int,
    path: string,
    title: string,
    artist: string,
    artistID: string,
    albumID: string,
    itemCount: int,
    tracks: seq<Track>)

  /** One row of the `items` table as `getAlbumTracks` keeps it. */
  datatype Item = Item(id: int, path: string, title: string, artist: string, artistID: string, albumID: string)

  /** One row of the `albums` query: its columns, or the error scanning it. */
  datatype AlbumRow = AlbumRow(id: int, albumartist: string, album: string) | RowScanError(cause: string)

  datatype BeetsError =
    | NoDbFile
    | OpenFailed(cause: string)
    | QueryFailed(cause: string)
    | ScanFailed(cause: string)
    | RowsFailed(cause: string)
    | ItemsFailed(cause: string)
    | NoItems

  /** A reader bound to a database file. */
  datatype Beets = Beets(dbFile: string)

  /** `New(dbFile)`: an empty path is refused before `sql.Open` is tried;
      `openError` is what `sql.Open` reports. */
  function New(dbFile: string, openError: Option<string>): (r: Result<Beets, BeetsError>)
    ensures r.Failure? <==> dbFile == "" || openError.Some?
    ensures dbFile == "" ==> r == Failure(NoDbFile)
    ensures r.Success? ==> r.value.dbFile == dbFile
  {
    if dbFile == "" then Failure(NoDbFile)
    else if openError.Some? then Failure(OpenFailed(openError.value))
    else Success(Beets(dbFile))
  }

  /** Some row could not be scanned. */
  predicate AnyScanError(rows: seq<AlbumRow>) {
    exists k :: 0 <= k < |rows| && rows[k].RowScanError?
  }

  /** The row loop of `GetAllAlbums`: each row becomes a summary whose
      title is the `album` column and whose artist is `albumartist`; the
      first row that fails to scan ends the loop with an error. */
  function SummariseRows(rows: seq<AlbumRow>): (r: Result<seq<AlbumSummary>, BeetsError>)
    ensures r.Failure? <==> AnyScanError(rows)
    ensures r.Success? ==>
      && |r.value| == |rows|
      && forall k :: 0 <= k < |rows| ==>
           && rows[k].AlbumRow?
           && r.value[k] == AlbumSummary(rows[k].id, rows[k].album, rows[k].albumartist)
  {
    if |rows| == 0 then Success([])
    else
      match rows[0]
      case RowScanError(cause) =>
        assert AnyScanError(rows) by { assert rows[0].RowScanError?; }
        Failure(ScanFailed(cause))
      case AlbumRow(id, albumartist, album) =>
        match SummariseRows(rows[1..])
        case Failure(e) =>
          assert AnyScanError(rows) by {
            var k :| 0 <= k < |rows[1..]| && rows[1..][k].RowScanError?;
            assert rows[k + 1].RowScanError?;
          }
          Failure(e)
        case Success(tail) =>
          assert !AnyScanError(rows) by {
            forall k | 0 < k < |rows|
              ensures rows[k].AlbumRow?
            {
              assert rows[k] == rows[1..][k - 1];
            }
          }
          Success([AlbumSummary(id, album, albumartist)] + tail)
  }

  /** `GetAllAlbums`: `query` is the outcome of the `SELECT` and `rowsErr`
      what `rows.Err()` reports after the loop. */
  function GetAllAlbums(query: Result<seq<AlbumRow>, string>, rowsErr: Option<string>)
    : (r: Result<seq<AlbumSummary>, BeetsError>)
    ensures r.Failure? <==> query.Failure? || AnyScanError(query.value) || rowsErr.Some?
    ensures r.Success? ==>
      && |r.value| == |query.value|
      && forall k :: 0 <= k < |query.value| ==>
           && r.value[k].id == query.value[k].id
           && r.value[k].title == query.value[k].album
           && r.value[k].artist == query.value[k].albumartist
  {
    match query
    case Failure(e) => Failure(QueryFailed(e))
    case Success(rows) =>
      match SummariseRows(rows)
      case Failure(e) => Failure(e)
      case Success(albums) =>
        if rowsErr.Some? then Failure(RowsFailed(rowsErr.value)) else Success(albums)
  }

  /** `GetAlbum(albumID)`: `items` is what `getAlbumTracks` returns. A
      failed lookup and an album without items are errors. Otherwise the
      album lists every item's id and path in order, counts them, and takes
      its directory, title, artist and MusicBrainz ids from the first item
      only. */
  method GetAlbum(albumID: int, items: Result<seq<Item>, string>) returns (r: Result<Album, BeetsError>)
    ensures items.Failure? ==> r == Failure(ItemsFailed(items.error))
    ensures items.Success? && |items.value| == 0 ==> r == Failure(NoItems)
    ensures r.Success? <==> items.Success? && |items.value| > 0
    ensures r.Success? ==>
      var its, a := items.value, r.value;
      && a.id == albumID
      && a.itemCount == |its|
      && |a.tracks| == |its|
      && (forall k :: 0 <= k < |its| ==> a.tracks[k] == Track(its[k].id, its[k].path))
      && a.path == Dir(its[0].path)
      && a.title == its[0].title
      && a.artist == its[0].artist
      && a.artistID == its[0].artistID
      && a.albumID == its[0].albumID
  {
    if items.Failure? {
      return Failure(ItemsFailed(items.error));
    }
    var its := items.value;
    if |its| == 0 {
      return Failure(NoItems);
    }
    var album := Album(albumID, "", "", "", "", "", 0, []);
    var i := 0;
    while i < |its|
      invariant 0 <= i <= |its|
      invariant album.id == albumID
      invariant album.itemCount == i
      invariant |album.tracks| == i
      invariant forall k :: 0 <= k < i ==> album.tracks[k] == Track(its[k].id, its[k].path)
      invariant i > 0 ==>
        && album.path == Dir(its[0].path)
        && album.title == its[0].title
        && album.artist == its[0].artist
        && album.artistID == its[0].artistID
        && album.albumID == its[0].albumID
    {
      var item := its[i];
      album := album.(tracks := album.tracks + [Track(item.id, item.path)]);
      if album.itemCount == 0 {
        album := album.(
          path := Dir(item.path),
          title := item.title,
          artist := item.artist,
          artistID := item.artistID,
          albumID := item.albumID);
      }
      album := album.(itemCount := album.itemCount + 1);
      i := i + 1;
    }
    return Success(album);
  }
}
