/**
 * The screen component of awdemo/App.js: its `status` state (line 6), the
 * deep-link handler `handleUrl` (lines 9-45) and the delivery of the URL
 * the app was opened with (lines 49-53).
 */
module App {
  import opened Wrappers
  import opened JsString
  import opened DeepLink
  import opened Claim

  /** Every token the handler claims gives a claim URL whose only query
      parameter is `s`. */
  lemma ClaimedUrlHasOneParameter(url: string)
    requires ClaimableToken(url).Some?
    ensures !Contains(ClaimUrl(ClaimableToken(url).value), "&")
  {
    ClaimUrlHasOneParameter(ClaimableToken(url).value);
  }

  class VerifyScreen {
    /** The `status` state shown on the screen. */
    var status: string
    /** Every text passed to `setStatus`, oldest first. */
    ghost var shown: seq<string>
    /** Every claim URL requested, oldest first. */
    ghost var requested: seq<string>

    /** Between runs of the handler the status is the initial text or one of
        the three terminal texts. */
    ghost predicate Valid()
      reads this
    {
      ParseStatus(status).Some? &&
      (ParseStatus(status).value == Ready || ParseStatus(status).value.IsTerminal())
    }

    /** Line 6: the screen starts out ready, having shown and requested nothing. */
    constructor ()
      ensures Valid()
      ensures status == StatusText(Ready) && shown == [] && requested == []
    {
      status := ReadyText;
      shown := [];
      requested := [];
      ParseStatusText(Ready);
    }

    /** `setStatus(text)`. */
    method SetStatus(text: string)
      modifies this
      ensures status == text && shown == old(shown) + [text] && requested == old(requested)
    {
      status := text;
      shown := shown + [text];
    }

    /** `handleUrl`, with the outcome of the claim request given as an input.
        Without a non-empty token nothing changes and nothing is requested;
        with one, the status shows the claim in progress, the token's claim
        URL is requested once, and the status ends in the terminal text the
        outcome selects. */
    method HandleUrl(url: string, outcome: ClaimOutcome)
      requires Valid()
      modifies this
      ensures Valid()
      ensures match ClaimableToken(url)
        case None =>
          status == old(status) && shown == old(shown) && requested == old(requested)
        case Some(token) =>
          && status == StatusText(Interpret(outcome))
          && shown == old(shown) + [StatusText(Claiming(token)), status]
          && requested == old(requested) + [ClaimUrl(token)]
    {
      var session := ExtractSession(url);
      if session.Some? && session.value != "" {
        var token := session.value;
        SetStatus(ClaimingPrefix + token);
        var claimUrl := ClaimUrl(token);
        requested := requested + [claimUrl];
        match outcome {
          case Replied(data) =>
            if data.ok == Bool(true) {
              SetStatus(VerifiedText);
            } else {
              SetStatus(FailedPrefix + FailureReason(data.error));
            }
          case Threw(message) =>
            SetStatus(ErrorPrefix + message);
        }
        ParseStatusText(Interpret(outcome));
      }
    }

    /** Lines 49-53: the URL the app was opened with, if any and non-empty,
        goes to the handler like any later link. */
    method OnInitialUrl(initial: Option<string>, outcome: ClaimOutcome)
      requires Valid()
      modifies this
      ensures Valid()
      ensures match ClaimableToken(if initial.Some? then initial.value else "")
        case None =>
          status == old(status) && shown == old(shown) && requested == old(requested)
        case Some(token) =>
          && status == StatusText(Interpret(outcome))
          && shown == old(shown) + [StatusText(Claiming(token)), status]
          && requested == old(requested) + [ClaimUrl(token)]
    {
      if initial.Some? && initial.value != "" {
        HandleUrl(initial.value, outcome);
      }
    }
  }
}
