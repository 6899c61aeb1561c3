# GitMad Roaster, modelled in Dafny

GitMad Roaster is a single-page React front-end. The user pastes code, or a
GitHub file-view link whose raw file is fetched into the box. A
hosted language model writes a "roast card" for it, shown with a generated
image, and a "purify" step asks the same model for a cleaned-up version
that is revealed character by character. This project models the logic
under that front-end and proves what it does:

- `strings.dfy` (module `Strings`): the ECMAScript string operations the
  code relies on: `includes`, `startsWith`, `replace` with a string pattern
  (first occurrence only), `trim` with the ECMAScript whitespace set, and
  the decimal rendering of an integer in a template literal.
- `uri.dfy` (module `Uri`): `encodeURIComponent`, as section 19.2.6.5 of
  ECMA-262 defines it (UTF-8 bytes, `%XX` with upper-case hex digits).
- `types.dfy` (module `Types`): the records of `types.ts`. The reply type
  is an object that may carry a card, a fix result, both or neither,
  because `JSON.parse(text) as RoastResponse` is an unchecked cast.
- `code_input.dfy` (module `CodeInput`): the detector
  `/^https?:\/\/(www\.)?github\.com\/[\w-]+\/[\w-]+\/blob\/.+/` as a
  parser with a soundness and a completeness proof. It also holds the rewrite
  to the raw-content URL, both as written and as intended, and the input box
  as a class with its buffer and fetching flag.
- `gemini_service.dfy` (module `GeminiService`): mode selection by the
  `"MODE: FIX"` prefix, the request and its response schemas, the
  empty-text check, and the policy that turns a roast-mode failure into
  the fallback card and re-raises a fix-mode failure. The service call is an
  input (`Outcome`).
- `app.dfy` (module `App`): the session state machine of `handleRoast`
  with its consistency invariant, and the rendering guards.
- `redemption_arc.dfy` (module `RedemptionArc`): the purify machine, which
  accepts only `mode === 'fix'` results, and the typewriter. The
  typewriter is a `Tick` method and a loop proved to emit every prefix of
  the fixed code in order.
- `roast_result.dfy` (module `RoastResult`): the primary image URL with
  its seed, the single fallback by archetype, the theme-colour default and
  the stat bars.

The model follows the code where it departs from its comments or from
what its types suggest:

- The code never checks a parsed reply's shape. A non-conforming reply is
  therefore a success of the client, not a failure.
- Stat bars are not clamped to 0..100.
- The comment above the detector says "no whitespace", but the pattern's
  `.+` accepts whitespace after `/blob/` (`CodeInput.WellFormed` asks only
  that the first character after `/blob/` is not a line terminator).

## Model

| member | source | states |
|---|---|---|
| CodeInput.ParseBlobLink | components/CodeInput.tsx:44 | a text the pattern accepts is the text of a well-formed link (scheme, optional `www.`, `[\w-]+` owner and repository, `/blob/`, a non-line-terminator, anything) built from the parsed parts |
| CodeInput.ParseComplete | components/CodeInput.tsx:44 | every well-formed link is accepted and parses back to exactly its own parts |
| CodeInput.DetectorExact | components/CodeInput.tsx:44 | the detector accepts a text if and only if it is the text of some well-formed link |
| CodeInput.LinkTextInjective | components/CodeInput.tsx:44 | two well-formed links with the same text are the same link, so the parts of an accepted text are determined |
| CodeInput.IsGithubBlobLink | components/CodeInput.tsx:44 | the `isGithubUrl` test: the parser accepts the text (its language is stated by `DetectorExact`) |
| CodeInput.RawUrl | components/CodeInput.tsx:18-21 | a URL outside the guard (no `github.com`, or already naming the raw host) is returned unchanged; inside it the result names the raw host |
| CodeInput.RawUrlGuarded | components/CodeInput.tsx:19-20 | inside the guard the rewrite is the first-occurrence replacement of `github.com` by the raw host followed by that of `/blob/` by `/` |
| CodeInput.RawUrlIdempotent | components/CodeInput.tsx:19-20 | rewriting a rewritten URL gives it back, since the result names the raw host |
| CodeInput.RawUrlOfLink | components/CodeInput.tsx:19-20 | for a well-formed link whose text does not name the raw host and whose owner is not "blob", the rewrite is scheme + optional `www.` + raw host + `/owner/repo/` + rest (the `www.` is kept) |
| CodeInput.RawUrlOwnerBlob | components/CodeInput.tsx:20 | for a well-formed link whose text does not name the raw host and whose owner is named "blob", the rewrite deletes the owner instead: scheme + optional `www.` + raw host + `/repo/blob/` + rest |
| CodeInput.RawUrlOwnerBlobMisroutes | components/CodeInput.tsx:20 | for such a link with a repository not named "blob" the rewrite differs from the link's raw-content URL |
| CodeInput.OwnerBlobExample | components/CodeInput.tsx:20 | https://github.com/blob/widgets/blob/main/a.ts is accepted by the detector and rewritten to the raw host + /widgets/blob/main/a.ts, not to its raw-content URL |
| CodeInput.FixedRawUrl | components/CodeInput.tsx:14-21 | the corrected rewrite returns a URL outside the guard unchanged and otherwise a URL naming the raw host |
| CodeInput.FixedRawUrlOfLink | components/CodeInput.tsx:14-21 | the corrected rewrite takes every well-formed link that does not name the raw host to its raw-content URL, owner "blob" included; a `www.` link keeps its `www.`, giving the host `www.raw.githubusercontent.com`, which the comment's target does not show |
| CodeInput.FixedRawUrlAgrees | components/CodeInput.tsx:18-21 | the corrected rewrite equals the rewrite as written on every URL that is not a link with owner "blob" |
| CodeInput.FixedRawUrlIdempotent | components/CodeInput.tsx:19-20 | the corrected rewrite is idempotent |
| CodeInput.FetchRequest | components/CodeInput.tsx:43-48 | a fetch is requested exactly when the trimmed value matches the pattern, and its URL is the rewrite as written (`RawUrl`) of the trimmed value |
| CodeInput.PaddedLinkAccepted | components/CodeInput.tsx:43-44 | a well-formed link that does not end in whitespace, padded with whitespace on both sides, trims to the link itself, which the detector accepts and parses back to its parts |
| CodeInput.FetchRequestOfLink | components/CodeInput.tsx:18-48 | such a padded link whose text does not name the raw host and whose owner is not "blob" requests exactly its raw-content URL |
| CodeInput.FetchRequestOwnerBlob | components/CodeInput.tsx:18-48 | such a padded link whose text does not name the raw host and whose owner is "blob" requests scheme + optional `www.` + raw host + `/repo/blob/` + rest, which is not its raw-content URL when the repository is not "blob" |
| CodeInput.FixedFetchRequest | components/CodeInput.tsx:14-48 | the corrected box requests a fetch on the same inputs, with the corrected rewrite of the trimmed value |
| CodeInput.FixedFetchRequestOfLink | components/CodeInput.tsx:14-48 | the corrected box requests the raw-content URL of every padded well-formed link whose text does not name the raw host, owner "blob" included (a `www.` link keeps its `www.`, as in `FixedRawUrlOfLink`) |
| CodeInput.InputBox.constructor | components/CodeInput.tsx:10-11 | the box starts with an empty buffer and no fetch in flight |
| CodeInput.InputBox.TextareaDisabled | components/CodeInput.tsx:71 | the textarea is disabled exactly while the parent is loading or a fetch runs |
| CodeInput.InputBox.SubmitDisabled | components/CodeInput.tsx:82 | the submit button is disabled exactly while loading, while the trimmed buffer is empty, or while a fetch runs |
| CodeInput.InputBox.Edit | components/CodeInput.tsx:37-48 | every edit stores the untrimmed value; the box becomes busy exactly when the fetch starts, and the request is `FetchRequest` of the value |
| CodeInput.InputBox.FetchDone | components/CodeInput.tsx:23-34 | an ok response replaces the buffer with its body; a failure or non-ok status keeps the buffer; the flag ends false either way |
| CodeInput.InputBox.Submission | components/CodeInput.tsx:51-54 | nothing is forwarded exactly when the buffer is all whitespace; otherwise the buffer is forwarded untrimmed |
| CodeInput.SubmitEnabledForwards | components/CodeInput.tsx:51-54 | when the submit button is enabled, submitting forwards the whole buffer and the textarea is enabled |
| CodeInput.FetchingLocksInput | components/CodeInput.tsx:71-82 | while fetching, both the textarea and the submit button are disabled, loading or not |
| Strings.Trim | components/CodeInput.tsx:43 | `trim` is empty exactly when the text is all whitespace, and otherwise neither end of the result is whitespace |
| Strings.TrimIsSlice | components/CodeInput.tsx:43 | `trim` removes only whitespace: its result is the slice between a leading and a trailing whitespace run |
| Strings.TrimPadded | components/CodeInput.tsx:43 | trimming whitespace padding off a text whose ends are not whitespace gives back the text |
| Strings.IndexOf | components/CodeInput.tsx:19-20 | the search finds the first occurrence, and reports none exactly when there is none |
| Strings.ReplaceFirst | components/CodeInput.tsx:20 | `replace` with a string pattern splices the replacement in at the first occurrence and changes nothing when there is none |
| Strings.Contains | components/CodeInput.tsx:19 | `includes`: the search finds an occurrence (by `IndexOf`, exactly when one exists) |
| Strings.StartsWith | services/geminiService.ts:67 | `startsWith`: the text's prefix of the pattern's length is the pattern |
| GeminiService.ModeOf | services/geminiService.ts:67 | fix mode exactly when the input starts with "MODE: FIX" |
| GeminiService.BuildRequest | services/geminiService.ts:64-116 | the request sends the input unchanged to gemini-3-pro-preview at temperature 0.9 as JSON, with the fix persona and schema exactly in fix mode and the roast ones otherwise |
| GeminiService.SchemasRequireAll | services/geminiService.ts:9-62 | each schema's required list is its property names in order: eight card fields, three stats, four fix fields; stats is a nested object and `mode` is restricted to "fix" |
| GeminiService.Attempt | services/geminiService.ts:107-123 | the attempt succeeds exactly when the reply text is present, non-empty and parses; the parsed value is returned unvalidated; a failed call fails with its own error, an empty or absent text with "Empty response from mainframe.", and a non-empty text that does not parse with the parse error itself |
| GeminiService.GenerateRoast | services/geminiService.ts:124-143 | a success is returned as is; a failure is re-raised unchanged in fix mode and becomes the fallback card in roast mode |
| GeminiService.RoastModeNeverThrows | services/geminiService.ts:124-142 | in roast mode the client never throws, and every failure (call error, empty text, parse error) yields exactly the fallback card |
| GeminiService.FixModeReraises | services/geminiService.ts:128-130 | in fix mode the client throws exactly when the attempt failed, and throws the attempt's own error |
| GeminiService.EmptyTextIsFailure | services/geminiService.ts:118-121 | an empty reply text is a failure in both modes: the empty-reply error in fix mode, the fallback card in roast mode |
| GeminiService.FallbackCardShape | services/geminiService.ts:133-142 | the fallback is a card: archetype "System Failure", score 0, theme "#FF0000", stats all 0 |
| App.Message | App.tsx:51 | the error's message when it is non-empty, "Unknown system failure." otherwise; never empty |
| Types.HasArchetype | App.tsx:29 | the `'archetype' in result` test: the reply carries a card |
| Types.IsFixResult | components/RedemptionArc.tsx:22 | the `'mode' in result && result.mode === 'fix'` test: the reply carries a fix result whose mode is "fix" |
| App.InputIsLoading | App.tsx:71 | the input box is told it is loading exactly when the status is loading |
| App.ShowsErrorBanner | App.tsx:73 | the error banner shows exactly when the status is error |
| App.ShowsCard | App.tsx:80 | the card shows exactly when the state holds card data |
| App.AfterJoin | App.tsx:25-52 | success exactly when the joined result has an archetype, with that card and no message; a reply without archetype gives error "Unexpected response type"; a failure gives error with its message; the state is consistent |
| App.GuardsAgree | App.tsx:71-80 | in a consistent state the card shows exactly on success, never beside the error banner or while loading |
| App.Session.Submit | App.tsx:18-19 | submitting records the code and goes to loading with no data and no message, from any prior state |
| App.Session.Settle | App.tsx:25-52 | the joined result moves the state to `AfterJoin` of it, keeps the recorded code and keeps the invariant |
| App.Session.constructor | App.tsx:10-15 | the session starts with no code and in the idle state with no data and no message, which is consistent |
| App.Session.HandleRoast | App.tsx:17-54 | a whole submission ends in `AfterJoin` of the client's answer for this code and outcome |
| App.RoastSubmissionOutcome | App.tsx:17-54 | a roast-mode submission ends in error only when the service's reply has no archetype; a failed call shows the fallback card |
| App.FixPrefixedSubmission | App.tsx:43-52 | code starting with "MODE: FIX" takes the fix branch, so a reply without a card, such as a well-shaped fix reply (`FixReply`), ends in "Unexpected response type" and a failure in error with the failure's message |
| RedemptionArc.PurifyRequest | components/RedemptionArc.tsx:20 | the request is "MODE: FIX \n\n" followed by the original code, unchanged |
| RedemptionArc.PurifyTakesFixMode | components/RedemptionArc.tsx:20 | every purify request starts with "MODE: FIX", so the client uses the fix schema |
| RedemptionArc.PurifyAcceptance | components/RedemptionArc.tsx:19-27 | a purify attempt is accepted exactly when the service produced a reply whose `mode` is "fix" |
| RedemptionArc.Accepts | components/RedemptionArc.tsx:19-27 | a result is accepted exactly when the call returned without throwing and passes the fix-mode test |
| RedemptionArc.Redemption.constructor | components/RedemptionArc.tsx:11-13 | the panel starts idle, with no fix result and an empty display, and its invariant holds |
| RedemptionArc.Redemption.ButtonShown | components/RedemptionArc.tsx:58 | the purify button is rendered exactly while the status is not success |
| RedemptionArc.Redemption.ButtonDisabled | components/RedemptionArc.tsx:62 | the purify button is disabled exactly while loading |
| RedemptionArc.Redemption.ShowsResult | components/RedemptionArc.tsx:86 | the result panel shows exactly on success with a fix result held |
| RedemptionArc.Redemption.Purify | components/RedemptionArc.tsx:15-20 | purify goes to loading, empties the display and sends the purify request |
| RedemptionArc.Redemption.PurifyDone | components/RedemptionArc.tsx:21-38 | an accepted result is stored and gives success, starting the reveal exactly when the fixed code is non-empty; anything else returns to idle without storing a result |
| RedemptionArc.Redemption.Tick | components/RedemptionArc.tsx:42-48 | a tick shows the prefix of length `i`, advances `i`, and stops the interval once `i` passes the length |
| RedemptionArc.Redemption.RunReveal | components/RedemptionArc.tsx:36-52 | the ticks show the prefixes of lengths 0, 1, ..., N in order and stop, leaving the whole fixed code displayed |
| RedemptionArc.SuccessHidesButton | components/RedemptionArc.tsx:58-86 | on success the result shows and the purify button is gone |
| RoastResult.PrimaryUrl | components/RoastResult.tsx:23-29 | the image URL starts with the pollinations prefix (where its query begins is `PrimaryQueryStart`) |
| RoastResult.PrimaryQueryStart | components/RoastResult.tsx:26-29 | the first `?` of the image URL is the one after the encoded prompt, whatever the prompt |
| RoastResult.PrimaryIsNotFallback | components/RoastResult.tsx:29-46 | the primary and fallback URLs differ (different hosts), so the first error always switches source |
| RoastResult.ThemeColor | components/RoastResult.tsx:57 | `theme_color` when non-empty, "#00ff41" otherwise |
| RoastResult.StatBar | components/RoastResult.tsx:238-243 | the bar's width is the label text followed by `%`, and the label reads back as the raw value, unclamped |
| RoastResult.FallbackUrl | components/RoastResult.tsx:46 | the fallback URL starts with the robohash prefix |
| RoastResult.ImagePanel.constructor | components/RoastResult.tsx:12-36 | mounting with a roast shows the spinner with the primary URL as the only source tried |
| RoastResult.ImagePanel.NewRoast | components/RoastResult.tsx:16-36 | a new roast shows the spinner again and sets the primary URL for a seed below 1000000 |
| RoastResult.ImagePanel.ImageLoaded | components/RoastResult.tsx:38-40 | a load only hides the spinner; source, sources tried and seed are unchanged |
| RoastResult.ImagePanel.ImageFailed | components/RoastResult.tsx:42-53 | the first error switches to the fallback URL and appends it to the sources tried; an error of the fallback hides the spinner and keeps the source; at most two sources are tried, and the seed is unchanged |
| Strings.IntToStringRoundTrip | components/RoastResult.tsx:240-243 | the decimal text of an integer reads back as that integer |
| Strings.IntToString | components/RoastResult.tsx:240-243 | `${value}` for a stat: the decimal text of an integer, never empty (read back by `IntToStringRoundTrip`) |
| Strings.NatToString | components/RoastResult.tsx:29 | `${seed}` for the image seed: a non-empty run of decimal digits |
| Uri.EncodeURIComponent | components/RoastResult.tsx:26 | the encoding holds only unreserved characters and `%` and is never shorter than its input |
| Uri.EncodeAppend | components/RoastResult.tsx:26 | the encoding of a concatenation is the concatenation of the encodings |
| Uri.EncodeUnreserved | components/RoastResult.tsx:26 | a text made of unreserved characters is its own encoding |
| Uri.EncodeHasNoDelimiters | components/RoastResult.tsx:46 | no `?`, `&`, `/` or `#` survives encoding, so the prompt or archetype cannot break the query |

## Left out

- The Gemini call itself and the prompt texts (services/geminiService.ts:4-7, 73-104, 107-116). The service is an input `Outcome`. The two system instructions are the tags `GitMad` and `CleanCodeArchitect`. The "never the same archetype twice" line is a prompt hint that no code enforces.
- `JSON.parse`: the parse is part of the `Outcome`, either a reply or a parse error. A reply that is not an object (such as `null`), for which the `'archetype' in result` test would throw, is not modelled.
- `GeminiService.BuildRequest`: the temperature 0.9 is written as the whole number 9 tenths, because the model has no floating point.
- The raw-file `fetch` and `response.text()` (components/CodeInput.tsx:25-27): their result is the input `FetchResponse`.
- `CodeInput.InputBox.Edit` requires that the textarea is enabled, because a disabled textarea fires no change events.
- Timers and concurrency: the 2000 ms minimum delay and the `Promise.all` join (App.tsx:22-26) are one step with the joined result. The 10 ms interval is one `Tick` per firing. The scroll `setTimeout` and the effect cleanup that clears the interval are not modelled.
- Nothing guards against a stale response arriving after a newer submission, and the model adds no such guard.
- `Math.random` for the image seed and the footer reference: the seed is a parameter below 1000000.
- `RoastResult.ImagePanel`: the empty `imgSrc` before the first effect run is not modelled; the constructor is mounting and running the effect together.
- Rendering and side effects: JSX, styling, `ReactMarkdown`, `alert`, console logging, `components/TerminalHeader.tsx`, and the unused `RoastMood` enum.
- JavaScript numbers are integers here. Scores and stats that are not integers are not modelled.
- RedemptionArc.Redemption.RunReveal counts the fixed code in Unicode scalar values, where `substring` and `length` (components/RedemptionArc.tsx:43-45) count UTF-16 code units. For code with characters outside the Basic Multilingual Plane the source shows more frames, some ending in half a surrogate pair; Dafny's characters are scalar values and the model does not split them.
- RedemptionArc.Redemption.Tick: the prefix length `i` counts scalar values, not UTF-16 code units, for the same reason.
- `encodeURIComponent` throws on a lone surrogate. Dafny characters are Unicode scalar values, so that error cannot arise.

## Findings

| source | as written | input that shows it | evidently intended | confidence | as-written member | corrected member |
|---|---|---|---|---|---|---|
| components/CodeInput.tsx:20 | the rewrite replaces the first `/blob/` in the URL, which is the owner segment when the owner is named "blob" | https://github.com/blob/widgets/blob/main/a.ts is rewritten to https://raw.githubusercontent.com/widgets/blob/main/a.ts | https://raw.githubusercontent.com/blob/widgets/main/a.ts, the raw-content URL of the same owner, repository and path (the target in the comment at lines 15-16) | not executed | CodeInput.RawUrlOwnerBlobMisroutes | CodeInput.FixedRawUrlOfLink |
