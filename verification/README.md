# Target stock monitor: classifier and change notifier

This project models a single-product stock monitor in Dafny. The monitor exists in two deployments, `server.cjs` and `server.js`. On every poll it fetches a Target product page and classifies it as `in_stock` or `oos`. It broadcasts a `stock_update` event only when that status differs from the last one it announced.

The model has five modules:

- `Text` holds the character classes the patterns use. `IsWs` is the full `\s` class of JavaScript. Matching ignores ASCII case.
- `Patterns` covers the two structured-data flags of the page. One is `"availability"` with value `InStock`, optionally prefixed by `http://schema.org/` or `https://schema.org/`. The other is `"availabilityStatus"` with value `IN_STOCK`. Both ignore case and allow whitespace around the colon. `Patterns` also holds the purchase phrases of the button text: `add to cart`, `ship it` and `pick up`. Each signal has two forms:
  - a declarative meaning: an index-level shape of a match, and the equivalent decomposition of the text;
  - the scanner that decides it.

  A lemma proves each pair equivalent. Greedy whitespace skipping is exact here because neither the colon nor the quote is whitespace.
- `Classifier.Classify` tests the JSON flags first. It consults the button text only when neither flag matched. Otherwise it answers `Oos`.
- `Notifier` holds `lastStatus`, which starts as `Unknown`. `Notify` emits an event carrying the product's site, name and url, the kind `stock_update` and the new status. It does so exactly when the status changed.
- `Monitor` joins these into one poll, `Check`:
  - A fetch that throws, or a response status outside `[200, 400)`, changes nothing.
  - Otherwise the body is classified and the notifier is updated.

  `Replay` (a recursive definition) and `Poll` (a loop proved equal to it) model the run of polls that the interval timer drives.

The deployments differ in their product constants (`GuardedTarget`, `UnguardedTarget`) and in one flag:

- `server.cjs` replaces a non-string response body by the empty markup.
- `server.js` tests the body as is. JavaScript's regular-expression `test` sees a non-string body through its string conversion, and the model uses that conversion.

Both deployments use the same module, and `Config.coerceNonString` selects the behaviour.

Inputs stand in for what the model cannot see:

- The network fetch is a `FetchOutcome`.
- The HTML parser's extraction of `button, a.button` text is a function parameter `buttons: string -> string` that is applied to the markup.

The monitor watches one product and has exactly three status values: `unknown`, `in_stock` and `oos`. `unknown` is only the initial value of `lastStatus`.

## Model

| member | source | states |
|---|---|---|
| Text.SkipWs | server.cjs:46 | the greedy `\s*` stops at the first position that does not hold whitespace, and everything it skipped is whitespace |
| Text.LowerStr | server.cjs:53 | lowering the button text keeps its length, leaves no upper-case ASCII letter, and spells the same text ignoring case |
| Text.Find | server.cjs:54 | the substring search answers true exactly when the phrase occurs somewhere in the text |
| Text.OccursInLoweredIffFold | server.cjs:53-54 | a lower-case phrase occurs in the lowered text at a position exactly when it occurs there in the original text in any ASCII case |
| Patterns.ScanAtIffMatchesAt | server.js:46-47 | trying a JSON flag at one position (key, greedy whitespace, colon, greedy whitespace, quote, accepted tail) succeeds exactly when the pattern matches there |
| Patterns.ScanFrom | server.cjs:45-47 | scanning from a position finds a match exactly when some later position matches the flag |
| Patterns.Test | server.cjs:46-47 | the pattern test is true exactly when the flag's pattern matches somewhere in the markup |
| Patterns.FormMatches | server.js:46-47 | any text holding the key in any case, whitespace, a colon, whitespace, a quote and an accepted prefix and value in any case matches the flag |
| Patterns.MatchHasForm | server.cjs:46-47 | every match of a flag splits the markup into exactly that shape, so nothing else is accepted |
| Patterns.ButtonsMatch | server.cjs:53-54 | lower-casing the button text and searching for the phrases finds one exactly when the text contains `add to cart`, `ship it` or `pick up` in any case |
| Patterns.LoweredFindIsCaseInsensitive | server.js:52-53 | searching the lowered button text for a lower-case phrase is the same as a case-insensitive search of the original text |
| Classifier.NamesIdentifyStatus | server.cjs:57-59 | the status strings `unknown`, `in_stock` and `oos` are distinct, so comparing strings is comparing statuses |
| Classifier.Classify | server.cjs:44-57 | the status is never `unknown`; it is `in_stock` exactly when a JSON flag matches or the buttons carry a purchase phrase, and `oos` exactly when neither holds |
| Classifier.JsonFlagOverridesButtons | server.cjs:45-57 | when a JSON flag matches, the page is `in_stock` and the button text has no influence |
| Classifier.NoSignalIsOutOfStock | server.js:49-56 | with no JSON flag and no purchase phrase in the button text, the status is `oos` |
| Classifier.ButtonCaseIsIgnored | server.cjs:53 | two button texts that differ only in ASCII case classify alike |
| Classifier.AvailabilityFlagMeansInStock | server.js:46 | `"availability"` with `InStock`, `http://schema.org/InStock` or `https://schema.org/InStock`, in any case and with any whitespace around the colon, makes the page `in_stock` |
| Classifier.AvailabilityStatusFlagMeansInStock | server.cjs:47 | `"availabilityStatus"` with `IN_STOCK`, in any case and with any whitespace around the colon, makes the page `in_stock` |
| Classifier.InStockHasEvidence | server.js:45-56 | an `in_stock` page carries a purchase phrase or a JSON flag of exactly the documented shape |
| Classifier.StatusFlagExample | server.js:47 | a page holding `"availabilityStatus":"IN_STOCK"` is `in_stock` whatever the buttons say |
| Notifier.Notify | server.cjs:59-68 | an event is emitted exactly when the status differs from `lastStatus`; afterwards `lastStatus` is the new status; the event has kind `stock_update`, the product's site, name and url, and the new status; without an event nothing changes |
| Notifier.NotifyIsIdempotent | server.js:58-59 | announcing the same status a second time emits nothing and leaves the state as it is |
| Notifier.FirstStatusIsAnnounced | server.cjs:28-59 | from the initial `unknown`, the first classified status is always announced |
| Monitor.Check | server.cjs:30-73 | a thrown fetch or a status outside 200..399 changes nothing and emits nothing; a success leaves `lastStatus` equal to the page's classification (never `unknown`), emits exactly when it changed, and the event carries the configured product |
| Monitor.CheckIsIdempotent | server.cjs:59-60 | polling again with the same outcome emits nothing and changes nothing |
| Monitor.FirstSuccessEmits | server.js:29-58 | the first successful poll always emits |
| Monitor.GuardedNonStringIsEmptyMarkup | server.cjs:42 | with the type guard, a non-string body behaves as empty markup, and is `oos` when empty markup has no button text |
| Monitor.UnguardedNonStringIsItsText | server.js:33-47 | without the guard, a non-string body behaves as markup equal to its string conversion |
| Monitor.DeploymentsAgreeOnMarkup | server.js:31-73 | two deployments of the same product that differ only in the guard act alike on failures and on string bodies |
| Monitor.Replay | server.cjs:28-78 | over any run of polls, no two consecutive events carry the same status, `lastStatus` is the last event's status (or `unknown` if none), there is an event exactly when some poll succeeded, and every event carries the product and a known status |
| Monitor.RepeatedOutcomeIsSuppressed | server.js:58-59 | the same outcome twice in a row leaves the same state and events as once |
| Monitor.Poll | server.js:76-77 | polling once per outcome gives the state and events of `Replay`, with no repeated status and `lastStatus` matching the last event |

## Left out

- The web server, the health-check route and the socket server's connection handshake are I/O plumbing. Emission is modelled as the returned event, and the log of `Poll`.
- The HTTP client call is an input `FetchOutcome`. Its URL, timeout and request headers are not modelled.
- The HTML parser is a foreign library. Its `button, a.button` text extraction is the parameter `buttons`.
- The event timestamp, console logging and the `PORT` setting are not modelled: they are clock, logging and configuration.
- The 3-second interval timer and the initial call are modelled only as the order of outcomes given to `Replay` and `Poll`. Overlapping in-flight polls are concurrency and are not modelled.
- Patterns.ButtonsMatch: lower-cases ASCII letters only. JavaScript's `toLowerCase` also folds non-ASCII letters, some into ASCII ones (the Kelvin sign becomes `k`). Such button texts are not recognised as purchase phrases in the model. The case-insensitive JSON patterns are exact, because for these ASCII literals JavaScript's case folding never relates a non-ASCII character to an ASCII one.
- Monitor.UnguardedNonStringIsItsText: the parser is given the string conversion of a non-string body. An exception the real parser might throw on such a value, which would take the failure path, is not modelled.
- Monitor.Check: assumes the event broadcast does not throw. In the source, `lastStatus` is assigned before the broadcast.
