/** The music data types of files.go: the kinds of file a folder may hold,
    the scanned file and folder records, and the CUETools database link. */
module MusicFiles {
  import opened Wrappers
  import opened Text

  /** `FileType`: a Go string type with five named values. */
  datatype FileType = Flac | Log | Accurip | Jpg | Jpeg {

    /** `FileType.String`: the text of the constant. */
    function String(): (s: string)
      ensures |s| >= 3 && '.' !in s
    {
      match this
      case Flac => "flac"
      case Log => "log"
      case Accurip => "accurip"
      case Jpg => "jpg"
      case Jpeg => "jpeg"
    }
  }

  /** The inverse of `String`: which constant, if any, has this text. This is
      the match a Go `switch` on an extension string performs. */
  function ParseFileType(s: string): Option<FileType> {
    if s == "flac" then Some(Flac)
    else if s == "log" then Some(Log)
    else if s == "accurip" then Some(Accurip)
    else if s == "jpg" then Some(Jpg)
    else if s == "jpeg" then Some(Jpeg)
    else None
  }

  /** `String` and `ParseFileType` are inverse: each constant's text parses
      back to it, and the only texts that parse are those five. */
  lemma ParseFileTypeRoundTrip(t: FileType, s: string)
    ensures ParseFileType(t.String()) == Some(t)
    ensures ParseFileType(s).Some? ==> ParseFileType(s).value.String() == s
  {
  }

  /** The five constants have pairwise different texts. */
  lemma StringInjective(a: FileType, b: FileType)
    ensures a.String() == b.String() ==> a == b
  {
    ParseFileTypeRoundTrip(a, "");
  }

  datatype MusicFile = MusicFile(path: string, name: string, size: int, fileType: FileType)

  datatype MusicFolder = MusicFolder(
    path: string,
    hasAccurip: bool,
    tocID: string,
    files: seq<MusicFile>,
    fileCnt: int,
    flacCnt: int,
    totalBytes: int)

  /** `cueToolsLookupURL` with its `%s` verb dropped. */
  const CueToolsLookupPrefix: string := "http://db.cuetools.net/top.php?tocid="

  /** `MusicFolder.ToCID`: the lookup URL, ending in the folder's TOC ID. */
  function ToCID(mf: MusicFolder): (url: string)
    ensures IsPrefix(CueToolsLookupPrefix, url)
    ensures TocIDOfURL(url) == Some(mf.tocID)
  {
    CueToolsLookupPrefix + mf.tocID
  }

  /** Reads the TOC ID back out of a lookup URL. */
  function TocIDOfURL(url: string): Option<string> {
    if IsPrefix(CueToolsLookupPrefix, url) then Some(url[|CueToolsLookupPrefix|..]) else None
  }

  /** Two folders get the same link exactly when they have the same TOC ID,
      whatever their other fields. */
  lemma ToCIDDependsOnTocID(a: MusicFolder, b: MusicFolder)
    ensures ToCID(a) == ToCID(b) <==> a.tocID == b.tocID
  {
    if ToCID(a) == ToCID(b) {
      assert TocIDOfURL(ToCID(a)) == Some(a.tocID);
    }
  }
}
