# Deep-link session claim of the AW Demo app, in Dafny

The AW Demo mobile app is opened through a deep link that carries an
age-verification session token. Its screen component (`awdemo/App.js`) reads
the token out of the link, shows `Claiming session: <token>`, requests the
claim endpoint with the token appended, and ends in one of three status
texts: `✓ Verified!`, `Failed: <reason>` or `Error: <message>`.

This project models that handler:

- `JsString.dfy` (module `JsString`): the JavaScript string operations the
  handler is built from. `includes`, `indexOf` and `split` work on strings
  as sequences of characters. `Join` undoes `Split`.
- `DeepLink.dfy` (module `DeepLink`): token extraction (lines 13-18) and the
  `if (session)` test (line 20). Each branch reads
  `url.split(key)[1].split('&')[0]`. This is proved equal to an independent
  description: the text after the first `key`, up to the first `&`, the
  next `key` or the end of the URL.
- `DeepLinkExamples.dfy` (module `DeepLinkExamples`): concrete links and
  the token read from each. They cover priority of `session=`, the legacy
  branch reading an earlier `s=`, an empty token, and a link without a token.
- `Claim.dfy` (module `Claim`): the claim URL (line 24), the reading of the
  reply (lines 32-41), and the status texts. `ParseStatus` reads a status
  text back into the phase that produced it.
- `App.dfy` (module `App`): the class `VerifyScreen`. It has the mutable
  `status` field of the component and two ghost logs: every text passed to
  `setStatus`, and every claim URL requested. `HandleUrl` is `handleUrl`
  with the network outcome given as an input. `OnInitialUrl` delivers the
  URL the app was opened with.

The network exchange (`fetch` followed by `response.json()`) is an input.
Its outcome is `ClaimOutcome`: either a decoded reply with an `ok` value
and an optional `error` string, or the message of a thrown error.

The model covers query-style extraction only, a GET of
`claim.php?s=<token>`, and success decided by `data.ok === true`.

## Model

| member | source | states |
|---|---|---|
| `JsString.IndexFrom` | awdemo/App.js:14-17 | the index found is an occurrence at or after the start, and no occurrence lies before it |
| `JsString.IndexOf` | awdemo/App.js:14-17 | an index is found exactly when the pattern occurs, and it is the leftmost occurrence |
| `JsString.Includes` | awdemo/App.js:14-16 | `includes` holds exactly when the pattern occurs somewhere in the string |
| `JsString.Split` | awdemo/App.js:15-17 | `split` with a non-empty separator gives at least one piece, more than one exactly when the separator occurs, and no piece contains the separator |
| `JsString.JoinSplit` | awdemo/App.js:15-17 | joining the pieces of a split with the separator gives back the original string |
| `JsString.SplitHeadStops` | awdemo/App.js:15-17 | the first piece is a prefix that ends at the end of the string or at an occurrence of the separator, with no occurrence starting inside it |
| `JsString.SplitSecond` | awdemo/App.js:15-17 | the second piece is the first piece of what follows the first occurrence of the separator |
| `DeepLink.SegmentAfter` | awdemo/App.js:15-17 | `url.split(key)[1].split('&')[0]` contains neither `&` nor `key` |
| `DeepLink.SegmentAfterTokenAt` | awdemo/App.js:15-17 | that segment starts right after the first `key`, ends at the end of the URL, an `&` or another `key`, and crosses none of them |
| `DeepLink.SegmentAfterIsDelimited` | awdemo/App.js:15-17 | a string is that segment if and only if it is the delimited text after the first `key` |
| `DeepLink.TokenAtUnique` | awdemo/App.js:15-17 | only one delimited token can start at a given index |
| `DeepLink.LegacyMarkerHoldsKey` | awdemo/App.js:16-17 | a URL containing `/v.php?s=` contains `s=`, so the legacy branch always has a second piece to read |
| `DeepLink.ExtractSession` | awdemo/App.js:13-18 | no token exactly when the URL contains neither `session=` nor `/v.php?s=`; a token never contains `&`; in the first branch it never contains `session=`, in the second never `s=` |
| `DeepLink.SessionFormWins` | awdemo/App.js:14-15 | with `session=` present, the token is exactly the text after the first `session=` up to the next `&`, `session=` or end, whatever else the URL holds |
| `DeepLink.LegacyFormReadsFirstKey` | awdemo/App.js:16-17 | without `session=` but with `/v.php?s=`, the token is exactly the text after the first `s=` anywhere in the URL up to the next `&`, `s=` or end |
| `DeepLink.ClaimableToken` | awdemo/App.js:20 | a token is claimed exactly when one was extracted and it is not empty, and it is the extracted one |
| `DeepLinkExamples.QueryTokenStopsAtAmpersand` | awdemo/App.js:14-15 | `myapp://open?session=abc&x=1` gives `abc` |
| `DeepLinkExamples.QueryTokenStopsAtRepeatedKey` | awdemo/App.js:14-15 | `app:?session=ab?session=cd` gives `ab?`: a second `session=` ends the token |
| `DeepLinkExamples.SessionFormTakesPriority` | awdemo/App.js:14-17 | `myapp://v/v.php?s=OLD&session=NEW` gives `NEW` although the legacy form comes first |
| `DeepLinkExamples.LegacyFormReadsEarlierKey` | awdemo/App.js:16-17 | `myapp://v?as=9/v.php?s=ABC` gives `9/v.php?`: the legacy branch reads from the `s=` of `as=` |
| `DeepLinkExamples.EmptyTokenIsNotClaimed` | awdemo/App.js:14-20 | `myapp://open?session=&x=1` extracts the empty token, which is not claimed |
| `DeepLinkExamples.PlainLinkHasNoToken` | awdemo/App.js:13-18 | `myapp://home?page=1` yields no token |
| `Claim.ClaimUrl` | awdemo/App.js:24 | the claim URL is the fixed endpoint followed by the raw token, unencoded |
| `Claim.ClaimUrlInjective` | awdemo/App.js:24 | different tokens give different claim URLs |
| `Claim.ClaimUrlHasOneParameter` | awdemo/App.js:24 | a token without `&` adds no query parameter beyond `s` to the claim URL |
| `Claim.FailureReason` | awdemo/App.js:36 | `data.error`, or `Unknown error` when that is falsy: never empty, the error when it is a non-empty string, `Unknown error` when absent or empty |
| `Claim.Interpret` | awdemo/App.js:32-41 | the phase is terminal; verified exactly when the reply's `ok` is the boolean `true`; an error exactly when the request or decoding threw, carrying its message; otherwise failed with the failure reason |
| `Claim.StatusText` | awdemo/App.js:6-41 | the text each phase shows: the ready text, the claiming prefix plus token, the verified text, the failed and error prefixes plus payload; a phase is terminal exactly when its text has one of the three terminal forms |
| `Claim.ParseStatusText` | awdemo/App.js:6-41 | every status text reads back to the phase that produced it, so no two phases share a text |
| `Claim.ExactlyOneTerminalForm` | awdemo/App.js:32-41 | the final status is `✓ Verified!` exactly for `ok === true`, starts with `Failed: ` exactly for any other reply, and starts with `Error: ` exactly for a thrown error |
| `App.ClaimedUrlHasOneParameter` | awdemo/App.js:13-24 | every token the handler claims gives a claim URL without `&`, so `s` is its only query parameter |
| `App.VerifyScreen.constructor` | awdemo/App.js:6 | the status starts as `Ready to verify`, with nothing shown or requested |
| `App.VerifyScreen.SetStatus` | awdemo/App.js:21-41 | `setStatus` replaces the status and appends it to the shown texts |
| `App.VerifyScreen.HandleUrl` | awdemo/App.js:9-45 | without a non-empty token nothing changes and nothing is requested; with one, `Claiming session: <token>` is shown, its claim URL is requested once, and the status ends in the terminal text the outcome selects; the status stays ready or terminal between runs |
| `App.VerifyScreen.OnInitialUrl` | awdemo/App.js:49-53 | an absent or empty initial URL changes nothing; any other goes through the handler with the same effect |

## Left out

- Network I/O (`fetch`, `response.json()`, lines 27-28) is not modelled. Its outcome is an input to `HandleUrl`. A `null` reply body makes `data.ok` throw, and falls under a thrown error; a primitive body reads as `ok` and `error` undefined.
- `Alert.alert` and `console.log`/`console.error` (lines 11, 25, 30, 34, 37, 40, 42) are not modelled. They are side-effect-only UI and logging.
- Event plumbing is not modelled: `Linking.addEventListener`, `getInitialURL` and removing the subscription (lines 47-55). Only the handing of each delivered URL to the handler is modelled.
- React rendering and styles (lines 58-83) are presentation only.
- Handler runs that overlap are not modelled. The code awaits the network without coordination. `HandleUrl` runs one handler call to completion, so `Claiming session: …` is only recorded in the log of shown texts.
- Claim.ClaimReply: the `error` member is absent or a string. A non-string truthy `error`, such as a number or an object, would be converted to text by `+`, and that is not modelled. The falsy values `null`, `false` and `0` behave like an absent member.
- Claim.JsValue: numbers are integers. This does not affect the outcome, since any `ok` other than the boolean `true` fails.
- Strings are sequences of Unicode characters, while JavaScript strings are UTF-16 code units. The separators are ASCII, so splitting gives the same pieces either way; only lengths counted in code units would differ.
