# Shopee affiliate-link crawler: the decision logic of `crawlProduct`

`crawlProduct(productId)` in `crawler.js` does four things:

1. It opens the product's offer page in a browser, after injecting the
   cookies saved in `cookies.json`.
2. If the page reads as blocked, it tries to get past a slider captcha up to
   three times.
3. If the page is still blocked, it waits for someone to sign in by hand.
4. It clicks the "get link" button and reads the affiliate link out of the
   modal that opens.

This project models the decisions taken along the way and proves what they
promise. The browser, the files, the network and the paid captcha-solving
service are replaced by the answers they gave. The model uses:

- `Page`: the address and text the classifier reads;
- `Attempt`: whether the captcha container was there, what a solve met, and
  the page after it;
- `SolveEnv`: the key file, the challenge images as the page script sees
  them, the downloads, and the service's replies;
- `ExtractionEnv`: the button, the modal, the address and the timestamp;
- `CookieFile`: the parsed cookie file.

One module per concern, one file per module:

| file | module | what it holds |
|---|---|---|
| `wrappers.dfy` | `Wrappers` | `Option` for null/undefined; JavaScript truthiness of a nullable string |
| `strings.dfy` | `Strings` | `startsWith`, `includes`, `indexOf` |
| `page_state.dfy` | `PageState` | the "blocked" classifier and the manual-wait release test |
| `parse_int.dfy` | `ParseInt` | global `parseInt` with no radix: white space, sign, `0x`, longest digit run |
| `challenge.dfy` | `Challenge` | the page script that finds the piece and background images; `imgUrlToBase64` |
| `drag.dfy` | `Drag` | the 40-step ease-out drag, over exact reals |
| `solver.dfy` | `Solver` | `solveSliderCaptcha`: its guard chain, the poll loop, the answer check |
| `escalation.dfy` | `Escalation` | the three-attempt loop and the manual wait |
| `cookies.dfy` | `Cookies` | normalisation and filtering of `cookies.json` entries |
| `extraction.dfy` | `Extraction` | the input priority chain and the returned record |
| `crawl.dfy` | `Crawler` | the phases in order |

Where the source changes state step by step, the model does too. Each of
these is a method whose `ensures` ties its result to a specification
function. The properties are then proved as lemmas about that function.
The methods are:

- the escalation loop with its `attempt` counter, mutable `isBlocked` and
  `break`s;
- the poll loop;
- the drag loop;
- the slot assignment with its CSS pass;
- the reassignments of `productData`.

The page tests, `parseInt`, the cookie `map`/`filter`, the data-URL split and
the `||` priority chain are pure functions.

## Behaviour as written

The model follows the code where the code does something other than its
design suggests:

- **A failed solve still uses up an attempt.** `checkAndSolveCaptcha` returns
  true whenever `.sec-container` exists, even when the solve aborted or threw
  (crawler.js:385-391). The loop therefore goes on to the re-check and the
  next attempt rather than stopping.
- **A manual-wait timeout is swallowed.** The timeout is only logged, and the
  extraction phase runs anyway (crawler.js:433-443).
- **The CSS scan always runs.** The background-image scan runs whatever the
  number of `<img>` elements (crawler.js:198). It changes nothing when both
  slots are already filled with non-empty URLs.
- **Unexpected poll replies keep the loop going.** A reply that is neither
  "solved" nor `CAPCHA_NOT_READY` is logged and polling continues
  (crawler.js:300-302). A `null` reply passes the `typeof === 'object'` test
  and then throws on `.status`, which ends the solve through its `catch`.
- **The release test ignores the page text.** It reads only the address
  (crawler.js:427-429). A page whose address releases the manual wait can
  therefore still read as blocked to the classifier.
- **`parseInt` and a leading "0x".** `parseInt` reads "0x"/"0X" as the start
  of a hexadecimal number. The answer "0x1A" is 26, and "0x" alone is NaN.
- **Only the second comma field of a data URL is kept.** The data-URL branch
  of `imgUrlToBase64` keeps `split(',')[1]`: the text between the first comma
  and the next one, or undefined when there is no comma.
- **An empty input wins over a filled one.** The modal's `||` chain picks the
  first element found, not the first non-empty value (crawler.js:480-485). An
  empty `input.ant-input` hides a filled `textarea`, and the result is the
  "could not find link input" error.

## Model

| member | source | states |
|---|---|---|
| PageState.IsBlocked | crawler.js:374-379 | `checkVerificationState`: blocked exactly when the address contains "/verify/" or "shopee.vn/login", or the text contains "Đăng nhập" or "Xác minh" |
| PageState.Released | crawler.js:427-429 | the manual wait's test: the address contains "product_offer/<id>" and neither "/verify/" nor "/login" |
| PageState.ReleasedUrlIsUnmarked | crawler.js:427-429 | an address that releases the manual wait contains neither "/verify/" nor "shopee.vn/login" |
| PageState.OfferPageReleases | crawler.js:427-429 | the offer-page path "product_offer/1" releases the wait for product "1" |
| PageState.ReleasedPageCanStillBeBlocked | crawler.js:374-379 | some page has an address that releases the wait while its text ("Xác minh") still makes the classifier read it as blocked |
| Strings.IndexOf | crawler.js:231 | the index returned is an occurrence and no earlier position is one; None exactly when there is no occurrence |
| Strings.ContainsIffOccurs | crawler.js:376-379 | `includes` holds exactly when `indexOf` finds an occurrence |
| ParseInt.ParseInt | crawler.js:311 | `parseInt(result)`: skip white space, take one sign, switch to base 16 after "0x"/"0X", read the longest digit run; no digit is NaN (None) |
| ParseInt.TrimStartSkipsSpace | crawler.js:311 | `parseInt` skips only white space, and what it keeps does not start with white space |
| ParseInt.DigitRunIsLongest | crawler.js:311 | the digits read are all digits of the base, and reading stops at the first non-digit |
| ParseInt.NumeralValue | crawler.js:311 | the decimal numeral of n is all digits and reads back as n |
| ParseInt.MagnitudeOfNumeral | crawler.js:311 | a numeral followed by a non-digit is read in base 10 as its number, unless it is "0" followed by "x"/"X" |
| ParseInt.NumeralNotHex | crawler.js:311 | only "0" followed by "x"/"X" looks like a hexadecimal prefix |
| ParseInt.NumeralRoundTrip | crawler.js:311 | `parseInt` of a signed decimal numeral, with any non-digit tail (not "x" after "0"), gives back its integer |
| ParseInt.NonNegativeRoundTrip | crawler.js:311 | an unsigned numeral with a non-digit tail parses to its number |
| ParseInt.NegativeRoundTrip | crawler.js:311 | "-" before a positive numeral parses to the negated number |
| ParseInt.HexPrefixReadsBase16 | crawler.js:311 | "0x1A" parses as 26 |
| ParseInt.BareHexPrefixIsNaN | crawler.js:311-312 | "0x" with no hexadecimal digit after it is NaN |
| ParseInt.NoDigitIsNaN | crawler.js:311-312 | an answer without any decimal digit, such as an error code, is NaN |
| Challenge.ExtractSlots | crawler.js:176-207 | the page script's assignment loop yields exactly the slots of the specification `AssignSlots` |
| Challenge.CssPassKeepsFilled | crawler.js:204-205 | the CSS pass never overwrites a slot that already holds a truthy value |
| Challenge.CssPassFillsPiece | crawler.js:198-207 | with the background truthy, the piece falsy (null or empty) and non-empty CSS URLs, the first CSS URL, if any, becomes the piece and later ones are ignored; without a URL the piece keeps its value |
| Challenge.CssPassFillsBackground | crawler.js:198-207 | with the piece truthy, the background falsy (null or empty) and non-empty CSS URLs, the first CSS URL, if any, becomes the background and later ones are ignored; without a URL the background keeps its value |
| Challenge.CssPassFillsBoth | crawler.js:198-207 | with both slots falsy (null or empty) and non-empty CSS URLs, the first CSS URL becomes the background, the second the piece, and later ones are ignored; a slot without a URL keeps its value |
| Challenge.TwoImagesDecide | crawler.js:190-192 | with two or more images whose first two `src` values are non-empty, img[0] is the piece and img[1] the background, whatever the CSS holds |
| Challenge.EmptyImagesGiveWayToCss | crawler.js:190-205 | with two or more images whose first two `src` values are empty, and non-empty CSS URLs, the first CSS URL is the background and the second the piece; a slot with no URL keeps "" |
| Challenge.EmptySecondImageGivesWayToCss | crawler.js:190-205 | with two or more images whose first `src` is non-empty and second empty, and non-empty CSS URLs, img[0] is the piece and the first CSS URL the background; with no URL the background stays "" |
| Challenge.OneImageIsBackground | crawler.js:193-205 | with exactly one image whose `src` is non-empty, and non-empty CSS URLs, that image is the background and the first CSS URL, if any, is the piece |
| Challenge.NoImageUsesCss | crawler.js:198-205 | with no image and non-empty CSS URLs, the first CSS URL is the background and the second the piece |
| Challenge.CssUrl | crawler.js:202 | the two first-match `replace` calls: remove the first "url(" with one quote after it, then the first ")" or quote-and-")" |
| Challenge.CssUrlUnwraps | crawler.js:202 | the two `replace` calls read a plain URL back out of `url(...)`, `url('...')` or `url("...")` |
| Challenge.SecondField | crawler.js:231 | `split(',')[1]`: the text between the first comma and the next one or the end; undefined without a comma |
| Challenge.SecondFieldStopsAtComma | crawler.js:231 | a data URL with a second comma keeps only the text between the first two commas |
| Challenge.ImageBase64 | crawler.js:226-244 | `imgUrlToBase64`: null for a falsy source, the second comma field of a "data:image" URL, otherwise the download's base64 text or a rejection |
| Challenge.DataUrlPayload | crawler.js:230-232 | an inline "data:image…,payload" yields its payload without any download |
| Solver.Poll | crawler.js:287-303 | the poll loop ends in the state given by the specification `Polling` |
| Solver.PollingStopsAtFirst | crawler.js:288-303 | polling stops at the first status-1 reply, and its result is exactly that reply's `request`; it also stops at the first null reply (which throws); "not ready" and unexpected replies continue it; it never exceeds 30 polls |
| Solver.NoStatusOneNoSolution | crawler.js:288-308 | 30 polls without status 1, "not ready" or unexpected, leave no solution and no exception |
| Solver.SolveSliderCaptcha | crawler.js:149-361 | the solve returns the outcome of the specification `Solve`, guard by guard in the source's order |
| Solver.SubmitAndDrag | crawler.js:257-354 | from the image check on, the solve returns the outcome of `WithImages` |
| Solver.SolveDragsIffGuardsPass | crawler.js:160-331 | a drag happens exactly when every guard passes (key, images, task id, solution, number, handle, box), and then by the parsed offset from the handle's centre |
| Solver.WithImagesDrags | crawler.js:257-331 | from the image check on, a drag happens exactly when both images are truthy, the task id, solution and number checks pass and the handle is there |
| Solver.WithPolledDrags | crawler.js:305-331 | after polling, no solution or a NaN answer means no drag; otherwise the drag is by the parsed answer |
| Solver.DragByAnswer | crawler.js:311-331 | with every guard passing, the solve drags by the parsed answer from the handle's centre |
| Solver.AnswerParses | crawler.js:311-315 | an answer written as a signed decimal numeral passes the NaN check with its own value |
| Solver.AnswerIsDragDistance | crawler.js:311-351 | an answer "n" makes the final move land at the handle's centre plus n |
| Drag.Drag | crawler.js:335-354 | the drag loop sends exactly the events of `DragTrace`: move, press, 40 eased moves, the final move, release |
| Drag.EasedEnds | crawler.js:342 | the ease-out curve is 0 at progress 0 and 1 at progress 1 |
| Drag.EasedWithin | crawler.js:342 | for progress in [0, 1] the curve stays in [0, 1] |
| Drag.EasedBelowOne | crawler.js:342 | before progress 1 the curve is below 1 |
| Drag.EasedIncreasing | crawler.js:342 | the curve rises strictly on [0, 1] |
| Drag.EaseEnds | crawler.js:341-342 | step 0 has eased progress 0; step 40 would have 1 |
| Drag.EaseBounds | crawler.js:340-342 | every step's eased progress is in [0, 1], and below 1 for the 40 intermediate steps |
| Drag.EaseIncreasing | crawler.js:340-342 | eased progress grows strictly with the step |
| Drag.TraceShape | crawler.js:335-354 | the trace has 44 events: move to the handle, press, 40 moves of which the first is on the handle, the exact final move to startX + solutionX, release |
| Drag.PositionBetween | crawler.js:343 | for a target right of the start, larger progress below 1 gives a point further right, never reaching the target |
| Drag.PositionMirror | crawler.js:343 | mirroring both ends mirrors each point |
| Drag.IntermediateBelowTarget | crawler.js:329-348 | for a positive offset the intermediate moves start on the handle, go strictly right and stay short of the target |
| Drag.IntermediateAboveTarget | crawler.js:329-348 | for a negative offset the intermediate moves start on the handle, go strictly left and stay short of the target |
| Escalation.RunEscalation | crawler.js:395-436 | the loop with its counter, `isBlocked` and `break`s ends in the state given by the specification `Escalate` |
| Escalation.AttemptsFromStops | crawler.js:401-419 | every attempt before the last found a container and left the page blocked; the loop stops early only on no container or an unblocked re-check; it ends blocked exactly when its last attempt found no container or stayed blocked |
| Escalation.AttemptsFromCountsSolves | crawler.js:385-419 | one solve is started per attempt, except a last attempt without a container |
| Escalation.AttemptsFromIgnoresSolves | crawler.js:401-419 | the loop's course depends only on containers and re-checked pages, not on what the solves did |
| Escalation.EscalationBounds | crawler.js:395-419 | an unblocked first check skips the escalation; otherwise `checkAndSolveCaptcha` runs one to three times, starting a solve on each call but possibly the last |
| Escalation.StopsAtFirstNoContainerOrUnblocked | crawler.js:383-419 | the loop stops at the first attempt with no container or an unblocked re-check; a failed solve does not stop it; the solves started are those of the attempts with a container, in order |
| Escalation.ManualWaitIffStillBlocked | crawler.js:406-436 | the manual wait is entered exactly when the page is still blocked after the loop, and a "no container" break always leads there |
| Escalation.ControlIgnoresSolveOutcomes | crawler.js:383-436 | the number of attempts, the final blocked state and the manual wait depend only on containers, re-checked pages and wait addresses |
| Escalation.ManualOutcome | crawler.js:425-435 | the manual wait: access granted when some address seen before the timeout passes the release test, otherwise timed out |
| Escalation.ManualWaitRelease | crawler.js:422-435 | when still blocked, the wait grants access exactly when some address it sees releases it; such an address shows the product's offer page and carries no verification or login marker; otherwise it times out |
| Cookies.Entries | crawler.js:78 | an array is used as-is, an object through its `cookies` field or `[]`; a missing or unreadable file gives nothing |
| Cookies.Normalise | crawler.js:83-91 | the field map keeps the name and always gives a non-empty path |
| Cookies.Injected | crawler.js:80-95 | `setCookie` is called only with a non-empty list no longer than the file's entries |
| Cookies.FilterCommutes | crawler.js:83-92 | filtering the template after the field map gives the same list, in the same order, as mapping the non-template entries |
| Cookies.ValidCookiesMembers | crawler.js:83-92 | a cookie is in the filtered list exactly when it is the normalised form of some non-template entry |
| Cookies.ValidCookiesAreClean | crawler.js:83-92 | every cookie kept has a non-empty path, is not the template and has no `sameSite: 'unspecified'` |
| Cookies.NormaliseFields | crawler.js:83-91 | `path` defaults to "/" when absent or empty; `expires` is `expirationDate`; `sameSite` 'unspecified' is dropped and any other `sameSite` copied unchanged; name, value, domain, httpOnly and secure are copied, and no other field of the entry is kept |
| Cookies.InjectedIffSomeValid | crawler.js:78-95 | an array is used as-is and an object through `cookies` (or `[]`); `setCookie` is called, with a non-empty list, exactly when some entry is not the template |
| Extraction.ExtractLink | crawler.js:442-515 | the reassignments of `productData` end in the record given by the specification `Extract` |
| Extraction.FindInput | crawler.js:480-485 | the `||` chain: the value of the first selector that matched, even when that value is empty |
| Extraction.FirstPresentIsFirst | crawler.js:480-483 | the reference "first present" answer is at a position after only empty ones, and nothing only when all are empty |
| Extraction.FindInputFollowsPriority | crawler.js:480-485 | the link is read from the first selector that matches, in the order `input.ant-input`, `input[type="text"]`, `textarea`, `input` |
| Extraction.EmptyMatchHidesLaterInput | crawler.js:480-488 | an empty first match hides a filled later input and gives the "could not find link input" error |
| Extraction.ExtractOutcome | crawler.js:442-515 | never the initial placeholder; success exactly when the button appeared and the chosen input is non-empty, with that link, the address and the timestamp; a missing button gives its exception message; any other failure gives the "could not find link input" error (the click, the link read and the modal dump are taken not to throw) |
| Crawler.CrawlProduct | crawler.js:70-522 | the crawl injects cookies, runs the escalation and extracts, giving the record `Crawl` specifies |
| Crawler.RecordIgnoresEscalation | crawler.js:441-522 | the returned record depends only on the extraction phase, whatever cookies, captchas and manual waits did, and it is never the placeholder (the escalation's page reads are taken not to throw) |
| Crawler.TimedOutWaitStillExtracts | crawler.js:433-496 | after a manual wait that timed out, a readable link still gives a success record with that link |

## Left out

- Browser launch, profile-lock recovery and navigation (crawler.js:23-69, 363-369): process, file-system and driver side effects.
- Reading `cookies.json` and `anticaptcha_key.txt`, and writing the debug images (crawler.js:72-75, 154-158, 252-255): the parsed contents are inputs (`CookieFile`, `SolveEnv.apiKey`).
- `makeRequest` and the image download (crawler.js:117-146, 235-243): their results are inputs (`Reply`, `Download`). A request that fails throws like a `null` reply, so `Null` stands for both.
- The solving service's protocol and the request payload (crawler.js:262-273, 291): an external paid service; only the classification of its replies is modelled.
- Puppeteer calls (`page.evaluate`, `page.$`, `waitForSelector`, `waitForFunction`, `boundingBox`, `mouse.*`): replaced by what they returned. The manual wait is the list of addresses it saw before its timeout, and the modal and input waits are the modal's state when the link is read. Their timeouts are swallowed.
- Exceptions from the escalation's page calls: `checkVerificationState`'s `page.evaluate` (crawler.js:373-380, called at 395 and 412) and `page.$('.sec-container')` (crawler.js:385) are outside any `try`, so a throw there rejects `crawlProduct` itself. The model takes them not to throw, so `Crawler.RecordIgnoresEscalation` holds only for crawls that reach the extraction phase.
- Extraction.ExtractLink: only the wait for `.get-link-btn` may throw. A throw from the click (crawler.js:451-454), the link read (crawler.js:474-486) or the modal dump (crawler.js:500-503) would also give `{error: err.message}` (crawler.js:512-514). The model does not produce that outcome, so `Extraction.ExtractOutcome` describes only runs in which those calls return.
- `humanDelay`, the sleeps between polls and moves, and the 300000 ms, 15000 ms, 10000 ms and 5000 ms timeouts: time and randomness.
- Logging, the `debug` list and the `innerHTML` dumps (crawler.js:178-187, 209-218, 478, 500-504): no effect on the decisions.
- The ISO timestamp and `page.url()` of the success record: opaque inputs.
- server.js is not part of this model: it only answers 400 for a missing id and otherwise calls `crawlProduct`.
- Drag.Drag: the y coordinate is not modelled, because it is the handle's centre plus a random jitter of up to 2 px either way. A move carries only its x coordinate.
- Drag: positions are exact reals, not IEEE doubles, so rounding in `i / steps` and in the products is not modelled.
- ParseInt.ParseInt: the result is an exact integer. JavaScript's `parseInt` returns a double, which loses precision above 2^53.
- Solver.SolveEnv: a `request` field that is not a string (a number, say) is not modelled. The key is the trimmed file text.
- Cookies.CookieFile: entries that are not objects, and a `cookies` field that is not an array, are not modelled. Field values are taken as already typed (absent or null is None).
- Escalation.Escalation: the solve outcomes it records are never read by the source. The model keeps them only so that the lemmas can say which solves were started, on which attempt.
