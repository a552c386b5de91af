/**
 * Concrete deep links and the token the handler reads from each, derived
 * from the characterisations in `DeepLink`.
 */
module DeepLinkExamples {
  import opened Wrappers
  import opened JsString
  import opened DeepLink

  /** `session=abc&x=1`: the token stops at the `&`. */
  lemma QueryTokenStopsAtAmpersand()
    ensures ExtractSession("myapp://open?session=abc&x=1") == Some("abc")
  {
    var url := "myapp://open?session=abc&x=1";
    NoOccurrenceIn(url, SessionKey, 0, 13);
    NoOccurrenceIn(url, SessionKey, 21, 24);
    assert FirstOccurrence(url, SessionKey, 13);
    assert TokenAt(url, SessionKey, 21, "abc");
    SessionFormWins(url, "abc");
  }

  /** A second `session=` ends the token just as an `&` does. */
  lemma QueryTokenStopsAtRepeatedKey()
    ensures ExtractSession("app:?session=ab?session=cd") == Some("ab?")
  {
    var url := "app:?session=ab?session=cd";
    NoOccurrenceIn(url, SessionKey, 0, 5);
    NoOccurrenceIn(url, SessionKey, 13, 16);
    assert FirstOccurrence(url, SessionKey, 5);
    assert OccursAt(url, SessionKey, 16);
    assert TokenAt(url, SessionKey, 13, "ab?");
    SessionFormWins(url, "ab?");
  }

  /** With both forms present, `session=` wins although the legacy form comes first. */
  lemma SessionFormTakesPriority()
    ensures ExtractSession("myapp://v/v.php?s=OLD&session=NEW") == Some("NEW")
  {
    var url := "myapp://v/v.php?s=OLD&session=NEW";
    NoOccurrenceIn(url, SessionKey, 0, 22);
    assert FirstOccurrence(url, SessionKey, 22);
    NoOccurrenceIn(url, SessionKey, 30, 33);
    assert TokenAt(url, SessionKey, 30, "NEW");
    SessionFormWins(url, "NEW");
  }

  /** The legacy branch splits on the first `s=` of the whole URL: here that
      is the one in `as=`, before `/v.php?s=`, and the token runs up to the
      `s=` of the marker. */
  lemma LegacyFormReadsEarlierKey()
    ensures ExtractSession("myapp://v?as=9/v.php?s=ABC") == Some("9/v.php?")
  {
    var url := "myapp://v?as=9/v.php?s=ABC";
    NoOccurrenceIn(url, SessionKey, 0, |url|);
    assert OccursAt(url, LegacyMarker, 14);
    NoOccurrenceIn(url, LegacyKey, 0, 11);
    assert FirstOccurrence(url, LegacyKey, 11);
    NoOccurrenceIn(url, LegacyKey, 13, 21);
    assert OccursAt(url, LegacyKey, 21);
    assert TokenAt(url, LegacyKey, 13, "9/v.php?");
    LegacyFormReadsFirstKey(url, "9/v.php?");
  }

  /** `session=` followed directly by `&` gives an empty token, which the
      handler treats as no token at all. */
  lemma EmptyTokenIsNotClaimed()
    ensures ExtractSession("myapp://open?session=&x=1") == Some("")
    ensures ClaimableToken("myapp://open?session=&x=1") == None
  {
    var url := "myapp://open?session=&x=1";
    NoOccurrenceIn(url, SessionKey, 0, 13);
    assert FirstOccurrence(url, SessionKey, 13);
    assert TokenAt(url, SessionKey, 21, "");
    SessionFormWins(url, "");
  }

  /** A link with neither form yields no token. */
  lemma PlainLinkHasNoToken()
    ensures ExtractSession("myapp://home?page=1") == None
  {
    var url := "myapp://home?page=1";
    NoOccurrenceIn(url, SessionKey, 0, |url|);
    NoOccurrenceIn(url, LegacyMarker, 0, |url|);
  }
}
