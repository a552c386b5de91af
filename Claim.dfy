/**
 * The claim request and the interpretation of its outcome
 * (awdemo/App.js, lines 21-43): the claim URL, the terminal status chosen
 * from the reply's `ok` and `error` members or from a thrown error, and the
 * status texts the screen shows.
 */
module Claim {
  import opened Wrappers
  import opened JsString

  const ClaimHost := "https://jzm.qah.mybluehost.me"
  const ClaimPath := "/website_10f009d1/claim.php?s="
  const ClaimEndpoint := ClaimHost + ClaimPath

  /** Line 24: the token is appended to the endpoint as it is, without URL encoding. */
  function ClaimUrl(token: string): (u: string)
    ensures |u| == |ClaimEndpoint| + |token|
    ensures u[..|ClaimEndpoint|] == ClaimEndpoint && u[|ClaimEndpoint|..] == token
  {
    ClaimEndpoint + token
  }

  /** Different tokens are claimed at different URLs. */
  lemma ClaimUrlInjective(t1: string, t2: string)
    requires ClaimUrl(t1) == ClaimUrl(t2)
    ensures t1 == t2
  {
  }

  /** A token without `&` adds no query parameter beyond `s` to the claim URL. */
  lemma ClaimUrlHasOneParameter(token: string)
    requires !Contains(token, "&")
    ensures !Contains(ClaimUrl(token), "&")
  {
    ContainsChar(token, '&');
    assert '&' !in ClaimHost && '&' !in ClaimPath;
    ContainsChar(ClaimUrl(token), '&');
  }

  /** A JavaScript value, as finely as `data.ok === true` tells values apart. */
  datatype JsValue = Undefined | Null | Bool(b: bool) | Number(n: int) | Text(s: string) | Structured

  /** The decoded reply body: its `ok` member and its `error` member (absent or a string). */
  datatype ClaimReply = ClaimReply(ok: JsValue, error: Option<string>)

  /** What `await fetch(claimUrl)` followed by `await response.json()` gives:
      a decoded reply, or the message of the error either of them threw. */
  datatype ClaimOutcome = Replied(reply: ClaimReply) | Threw(message: string)

  /** The states the status line goes through. */
  datatype Phase = Ready | Claiming(token: string) | Verified | Failed(reason: string) | Errored(message: string)
  {
    predicate IsTerminal()
    {
      Verified? || Failed? || Errored?
    }
  }

  const ReadyText := "Ready to verify"
  const ClaimingPrefix := "Claiming session: "
  const VerifiedText := "✓ Verified!"
  const FailedPrefix := "Failed: "
  const ErrorPrefix := "Error: "
  const UnknownError := "Unknown error"

  /** `data.error || 'Unknown error'`: an absent or empty error falls back to
      the default, so a failure always has a reason to show. */
  function FailureReason(error: Option<string>): (r: string)
    ensures r != ""
    ensures error.Some? && error.value != "" ==> r == error.value
    ensures error.None? || error.value == "" ==> r == UnknownError
  {
    match error
    case Some(e) => if e != "" then e else UnknownError
    case None => UnknownError
  }

  /** Lines 32-41: the terminal phase a claim outcome leads to. */
  function Interpret(o: ClaimOutcome): (p: Phase)
    ensures p.IsTerminal()
    ensures p == Verified <==> o.Replied? && o.reply.ok == Bool(true)
    ensures p.Errored? <==> o.Threw?
    ensures o.Threw? ==> p.message == o.message
    ensures p.Failed? ==> p.reason == FailureReason(o.reply.error)
  {
    match o
    case Replied(reply) =>
      if reply.ok == Bool(true) then Verified else Failed(FailureReason(reply.error))
    case Threw(message) => Errored(message)
  }

  /** The text `setStatus` is given in each phase (lines 6, 21, 33, 36 and 41).
      The terminal phases, and only they, show one of the three terminal forms. */
  function StatusText(p: Phase): (s: string)
    ensures p.IsTerminal() <==> s == VerifiedText || FailedPrefix <= s || ErrorPrefix <= s
  {
    match p
    case Ready =>
      assert ReadyText[0] == 'R';
      ReadyText
    case Claiming(token) =>
      var s := ClaimingPrefix + token;
      assert s[0] == 'C';
      s
    case Verified => VerifiedText
    case Failed(reason) => FailedPrefix + reason
    case Errored(message) => ErrorPrefix + message
  }

  /** Reads a status text back into the phase that produced it. */
  function ParseStatus(s: string): Option<Phase>
  {
    if s == ReadyText then Some(Ready)
    else if s == VerifiedText then Some(Verified)
    else if ClaimingPrefix <= s then Some(Claiming(s[|ClaimingPrefix|..]))
    else if FailedPrefix <= s then Some(Failed(s[|FailedPrefix|..]))
    else if ErrorPrefix <= s then Some(Errored(s[|ErrorPrefix|..]))
    else None
  }

  /** The status texts of different phases never coincide: each text tells
      its phase and its payload apart from every other. */
  lemma ParseStatusText(p: Phase)
    ensures ParseStatus(StatusText(p)) == Some(p)
  {
    var s := StatusText(p);
    match p
    case Ready =>
    case Verified =>
    case Claiming(token) =>
      assert s[0] == 'C';
    case Failed(reason) =>
      assert s[0] == 'F';
    case Errored(message) =>
      assert s[0] == 'E';
  }

  /** The final status has exactly one of the three terminal forms, chosen
      by the outcome: verified only for `ok === true`, failed for any other
      reply, error for a thrown error. */
  lemma ExactlyOneTerminalForm(o: ClaimOutcome)
    ensures var s := StatusText(Interpret(o));
      && (s == VerifiedText <==> o.Replied? && o.reply.ok == Bool(true))
      && (FailedPrefix <= s <==> o.Replied? && o.reply.ok != Bool(true))
      && (ErrorPrefix <= s <==> o.Threw?)
  {
    var s := StatusText(Interpret(o));
    assert s[0] == if o.Threw? then 'E' else if o.reply.ok == Bool(true) then '✓' else 'F';
  }
}
