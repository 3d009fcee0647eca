/** TOC-ID detection in rip logs (main.go): a log written by Exact Audio
    Copy counts once it says the rip "has been confirmed", a CUETools log
    counts as it is, and in both cases the id is the first capture group of
    the `[CTDB TOCID: ...] found` regular expression. The expression itself
    is a parameter: `Some(g)` when `FindStringSubmatch` matches with group
    `g`, `None` when it does not. */
module TocDetection {
  import opened Wrappers
  import opened Text

  const EacMarker: string := "Exact Audio Copy"
  const ConfirmedMarker: string := "has been confirmed"
  const CueToolsMarker: string := "CUETools log"

  /** The character EAC scatters through its logs, removed before the
      EAC checks. */
  const Nul: char := '\0'

  /** `tocIDRegexp.FindStringSubmatch`, reduced to the capture group. */
  type Matcher = string -> Option<string>

  /** The capture group the matcher finds in `s`, or "" without a match. */
  function Captured(s: string, matcher: Matcher): string {
    match matcher(s)
    case Some(g) => g
    case None => ""
  }

  /** `detectEACTOCID(str)`: with NULs removed, the log must name EAC and
      report a confirmed rip before the matcher is asked for the id. */
  function DetectEACTOCID(str: string, matcher: Matcher): (id: string)
    ensures id != "" ==>
      && Contains(Without(str, Nul), EacMarker)
      && Contains(Without(str, Nul), ConfirmedMarker)
      && matcher(Without(str, Nul)) == Some(id)
    ensures !Contains(Without(str, Nul), EacMarker) ==> id == ""
    ensures !Contains(Without(str, Nul), ConfirmedMarker) ==> id == ""
    ensures Contains(Without(str, Nul), EacMarker) && Contains(Without(str, Nul), ConfirmedMarker) ==>
      && (matcher(Without(str, Nul)).Some? ==> id == matcher(Without(str, Nul)).value)
      && (matcher(Without(str, Nul)).None? ==> id == "")
  {
    var clean := Without(str, Nul);
    if Contains(clean, EacMarker) && Contains(clean, ConfirmedMarker) then Captured(clean, matcher)
    else ""
  }

  /** `detectCUERipperTOCID(str)`: the log must name CUETools; NULs are not
      removed here. */
  function DetectCUERipperTOCID(str: string, matcher: Matcher): (id: string)
    ensures id != "" ==> Contains(str, CueToolsMarker) && matcher(str) == Some(id)
    ensures !Contains(str, CueToolsMarker) ==> id == ""
    ensures Contains(str, CueToolsMarker) ==>
      && (matcher(str).Some? ==> id == matcher(str).value)
      && (matcher(str).None? ==> id == "")
  {
    if Contains(str, CueToolsMarker) then Captured(str, matcher) else ""
  }

  /** `detectAccuripInFile`: `contents` is the outcome of reading the log.
      A read error is passed on; otherwise the EAC id wins when there is
      one, then the CUETools id, then "". The two detectors never fail, so
      their error returns are not modelled. */
  function DetectAccuripInFile(contents: Result<string, string>, matcher: Matcher): (r: Result<string, string>)
    ensures r.Failure? <==> contents.Failure?
    ensures r.Failure? ==> r.error == contents.error
  {
    match contents
    case Failure(e) => Failure(e)
    case Success(text) =>
      var eac := DetectEACTOCID(text, matcher);
      if |eac| > 0 then Success(eac)
      else
        var cue := DetectCUERipperTOCID(text, matcher);
        if |cue| > 0 then Success(cue) else Success("")
  }

  /** A log that yields an id names one of the two rippers (EAC together
      with a confirmed rip), and the id is the matcher's capture on the text
      that ripper's check looked at. */
  lemma DetectedIdHasMarker(text: string, matcher: Matcher)
    ensures var r := DetectAccuripInFile(Success(text), matcher);
      r.Success? && (r.value != "" ==>
        || (&& Contains(Without(text, Nul), EacMarker)
            && Contains(Without(text, Nul), ConfirmedMarker)
            && matcher(Without(text, Nul)) == Some(r.value))
        || (Contains(text, CueToolsMarker) && matcher(text) == Some(r.value)))
  {
  }

  /** A confirmed EAC log whose capture is non-empty yields that capture,
      whatever the CUETools check would say. */
  lemma EacLogYieldsId(text: string, matcher: Matcher, g: string)
    requires Contains(Without(text, Nul), EacMarker) && Contains(Without(text, Nul), ConfirmedMarker)
    requires matcher(Without(text, Nul)) == Some(g) && g != ""
    ensures DetectAccuripInFile(Success(text), matcher) == Success(g)
  {
  }

  /** A CUETools log that is not a confirmed EAC log with an id yields the
      capture on the raw text, or "" when the expression does not match. */
  lemma CueToolsLogYieldsId(text: string, matcher: Matcher)
    requires !Contains(Without(text, Nul), EacMarker) || !Contains(Without(text, Nul), ConfirmedMarker)
    requires Contains(text, CueToolsMarker)
    ensures matcher(text).Some? ==> DetectAccuripInFile(Success(text), matcher) == Success(matcher(text).value)
    ensures matcher(text).None? ==> DetectAccuripInFile(Success(text), matcher) == Success("")
  {
  }

  /** When both detectors find an id, the EAC one is returned. */
  lemma EacPreferred(text: string, matcher: Matcher)
    requires DetectEACTOCID(text, matcher) != ""
    ensures DetectAccuripInFile(Success(text), matcher) == Success(DetectEACTOCID(text, matcher))
  {
  }

  /** Without an EAC id the CUETools id, possibly "", is returned. */
  lemma CueToolsFallback(text: string, matcher: Matcher)
    requires DetectEACTOCID(text, matcher) == ""
    ensures DetectAccuripInFile(Success(text), matcher) == Success(DetectCUERipperTOCID(text, matcher))
  {
  }

  /** A log mentioning neither ripper yields no id, whatever the matcher
      would find in it. */
  lemma NoMarkerNoId(text: string, matcher: Matcher)
    requires !Contains(Without(text, Nul), EacMarker) && !Contains(text, CueToolsMarker)
    ensures DetectAccuripInFile(Success(text), matcher) == Success("")
  {
  }

  /** NUL characters anywhere in the log do not change what the EAC check
      finds: inserting one gives the same id. */
  lemma {:induction false} EacIgnoresNul(before: string, after: string, matcher: Matcher)
    ensures DetectEACTOCID(before + [Nul] + after, matcher) == DetectEACTOCID(before + after, matcher)
  {
    WithoutConcat(before + [Nul], after, Nul);
    WithoutConcat(before, [Nul], Nul);
    WithoutSingle(Nul, Nul);
    WithoutConcat(before, after, Nul);
    assert Without(before, Nul) + "" == Without(before, Nul);
  }

  /** The EAC check already strips NULs, so stripping them beforehand
      changes nothing. */
  lemma EacStripIdempotent(text: string, matcher: Matcher)
    ensures DetectEACTOCID(Without(text, Nul), matcher) == DetectEACTOCID(text, matcher)
  {
    WithoutAbsent(Without(text, Nul), Nul);
  }
}
