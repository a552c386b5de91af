/**
 * Session-token extraction from an incoming deep link (awdemo/App.js,
 * lines 13-20): the `session=` query form first, then the legacy
 * `/v.php?s=` form, each read with `url.split(key)[1].split('&')[0]`.
 */
module DeepLink {
  import opened Wrappers
  import opened JsString

  const SessionKey := "session="
  const LegacyMarker := "/v.php?s="
  const LegacyKey := "s="
  const Ampersand := "&"

  /** `url.split(key)[1].split('&')[0]`: the text after the first `key`, cut
      at the next `&` and at the next `key`. */
  function SegmentAfter(url: string, key: string): (t: string)
    requires key != [] && Contains(url, key)
    ensures !Contains(t, Ampersand) && !Contains(t, key)
  {
    var piece := Split(url, key)[1];
    var t := Split(piece, Ampersand)[0];
    SplitHead(piece, Ampersand);
    PrefixOfFree(piece, t, key);
    t
  }

  /** The value of `session` after line 18: `None` for JavaScript's `null`. */
  function ExtractSession(url: string): (r: Option<string>)
    ensures r.None? <==> !Contains(url, SessionKey) && !Contains(url, LegacyMarker)
    ensures r.Some? ==> !Contains(r.value, Ampersand)
    ensures r.Some? && Contains(url, SessionKey) ==> !Contains(r.value, SessionKey)
    ensures r.Some? && !Contains(url, SessionKey) ==> !Contains(r.value, LegacyKey)
  {
    if Includes(url, SessionKey) then
      Some(SegmentAfter(url, SessionKey))
    else if Includes(url, LegacyMarker) then
      LegacyMarkerHoldsKey(url);
      Some(SegmentAfter(url, LegacyKey))
    else
      None
  }

  /** `if (session)` on line 20: a token is claimed only when it is present
      and non-empty. */
  function ClaimableToken(url: string): (r: Option<string>)
    ensures r.Some? <==> ExtractSession(url).Some? && ExtractSession(url).value != ""
    ensures r.Some? ==> r.value == ExtractSession(url).value
  {
    match ExtractSession(url)
    case Some(t) => if t != "" then Some(t) else None
    case None => None
  }

  /** Every URL that contains `/v.php?s=` contains `s=`, so the legacy
      branch always has a second piece to read. */
  lemma LegacyMarkerHoldsKey(url: string)
    requires Contains(url, LegacyMarker)
    ensures Contains(url, LegacyKey)
  {
    var i :| OccursAt(url, LegacyMarker, i);
    assert LegacyMarker[7..9] == LegacyKey;
    assert url[i + 7..i + 9] == url[i..i + 9][7..9];
    assert OccursAt(url, LegacyKey, i + 7);
  }

  /** Position `e` ends a token that follows `key`: the end of the URL, an
      `&`, or the start of another `key`. */
  ghost predicate StopsAt(url: string, key: string, e: int)
  {
    e == |url| || (0 <= e < |url| && url[e] == '&') || OccursAt(url, key, e)
  }

  /** `t` starts at index `b` of `url` and runs up to the first stop at or after `b`. */
  ghost predicate TokenAt(url: string, key: string, b: int, t: string)
  {
    0 <= b && b + |t| <= |url| && url[b..b + |t|] == t &&
    StopsAt(url, key, b + |t|) &&
    forall j :: b <= j < b + |t| ==> !StopsAt(url, key, j)
  }

  /** `t` is the text right after the first `key` of `url`, up to the first stop. */
  ghost predicate DelimitedAfter(url: string, key: string, t: string)
  {
    exists i :: FirstOccurrence(url, key, i) && TokenAt(url, key, i + |key|, t)
  }

  /** At most one token starts at a given index. */
  lemma TokenAtUnique(url: string, key: string, b: int, t1: string, t2: string)
    requires TokenAt(url, key, b, t1) && TokenAt(url, key, b, t2)
    ensures t1 == t2
  {
  }

  /** `SegmentAfter` is the delimited token after the first `key`. */
  lemma SegmentAfterTokenAt(url: string, key: string, i: nat)
    requires key != [] && FirstOccurrence(url, key, i)
    ensures TokenAt(url, key, i + |key|, SegmentAfter(url, key))
  {
    var b := i + |key|;
    var rest := url[b..];
    SplitSecond(url, key, i);
    var piece := Split(rest, key)[0];
    SplitHeadStops(rest, key);
    var t := Split(piece, Ampersand)[0];
    SplitHeadStops(piece, Ampersand);
    assert t == SegmentAfter(url, key);
    TokenAfterPieces(url, key, b, piece, t);
  }

  /** The stops of the two nested splits, translated to indices of `url`. */
  lemma TokenAfterPieces(url: string, key: string, b: nat, piece: string, t: string)
    requires b <= |url|
    requires piece <= url[b..]
    requires |piece| == |url| - b || OccursAt(url[b..], key, |piece|)
    requires forall j :: 0 <= j < |piece| ==> !OccursAt(url[b..], key, j)
    requires t <= piece
    requires |t| == |piece| || OccursAt(piece, Ampersand, |t|)
    requires forall j :: 0 <= j < |t| ==> !OccursAt(piece, Ampersand, j)
    ensures TokenAt(url, key, b, t)
  {
    var rest := url[b..];
    assert url[b..b + |t|] == rest[..|t|] == t;
    if |t| < |piece| {
      assert piece[|t|..|t| + 1] == Ampersand;
      assert url[b + |t|] == piece[|t|];
    } else if |piece| < |rest| {
      OccursInSuffix(url, key, b, |piece|);
    }
    forall j | b <= j < b + |t|
      ensures !StopsAt(url, key, j)
    {
      assert !OccursAt(piece, Ampersand, j - b);
      assert piece[j - b..j - b + 1] == [piece[j - b]];
      assert url[j] == piece[j - b];
      OccursInSuffix(url, key, b, j - b);
    }
  }

  /** Reading `url.split(key)[1].split('&')[0]` yields exactly the text after
      the first `key` up to the next `&`, the next `key` or the end. */
  lemma SegmentAfterIsDelimited(url: string, key: string, t: string)
    requires key != [] && Contains(url, key)
    ensures SegmentAfter(url, key) == t <==> DelimitedAfter(url, key, t)
  {
    var i := IndexOf(url, key).value;
    var seg := SegmentAfter(url, key);
    SegmentAfterTokenAt(url, key, i);
    if seg == t {
      assert FirstOccurrence(url, key, i) && TokenAt(url, key, i + |key|, t);
    }
    if DelimitedAfter(url, key, t) {
      var i' :| FirstOccurrence(url, key, i') && TokenAt(url, key, i' + |key|, t);
      FirstOccurrenceUnique(url, key, i, i');
      TokenAtUnique(url, key, i + |key|, t, seg);
    }
  }

  /** A URL holding `session=` is read by the first branch, whatever else it holds. */
  lemma SessionFormWins(url: string, t: string)
    requires Contains(url, SessionKey)
    ensures ExtractSession(url) == Some(t) <==> DelimitedAfter(url, SessionKey, t)
  {
    SegmentAfterIsDelimited(url, SessionKey, t);
  }

  /** Without `session=`, a URL holding `/v.php?s=` is read after its first
      `s=`, which need not be the one inside `/v.php?s=`. */
  lemma LegacyFormReadsFirstKey(url: string, t: string)
    requires !Contains(url, SessionKey) && Contains(url, LegacyMarker)
    ensures ExtractSession(url) == Some(t) <==> DelimitedAfter(url, LegacyKey, t)
  {
    LegacyMarkerHoldsKey(url);
    SegmentAfterIsDelimited(url, LegacyKey, t);
  }
}
