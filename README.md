# English tutor chat: a verified model of its core

This project models the core of a chat tutor for Chinese students learning English: a Next.js web app whose
browser component keeps a conversation with a language model, estimates the learner's CEFR level from
their messages, and counts consecutive practice days. The model covers five source files.

- `src/utils/sanitize.ts` (module `Sanitize`). The input filter: tag stripping, HTML escaping, the
  denylist of suspicious regular expressions, the dangerous-scheme check, the
  validate-then-sanitize pipeline and the display sanitizer.
- `src/utils/localStorage.ts` (module `LocalStorage`). The safe browser-storage layer:
  - an availability probe;
  - reads that fall back to a default;
  - writes that protect the quota, truncating arrays to their last 70% or 50%;
  - removal, and clearing of the app's `english-tutor-` namespace;
  - history truncation to the last 150 messages;
  - the per-key debounce table.
- `src/utils/apiRetry.ts` (module `ApiRetry`). Fetch with retries and exponential backoff, and its JSON
  wrappers.
- `src/app/api/chat/route.ts` (module `ChatRoute`). The chat endpoint: the fixed-window rate limiter
  over an in-memory table, the client key taken from proxy headers, the shaping of the request sent to
  the model, and the 200/429/500 replies.
- `src/components/ChatInterface.tsx` (module `ChatInterface`). The session rules of the chat component:
  loading the saved session (a welcome message on a first visit), the daily streak, the level estimate,
  sending a message, and clearing the chat.

Shared modules:
- `AppConstants` holds the configuration of `src/constants/app.ts`.
- `Types` holds the message and level records of `src/types/index.ts`.
- `Strings` holds the JavaScript string built-ins the core relies on: `startsWith`, `includes`, ASCII
  `toLowerCase`, `\w`, `\s` and `trim`.

## How the model is built

- Use of the model's types:
  - Pure code becomes functions over datatypes, with lemmas about them.
  - Code that changes state becomes `class`es whose methods are proved against those functions:
    - `LocalStorage.Storage` owns the storage map;
    - `LocalStorage.DebounceTimers` owns the timer table;
    - `ChatRoute.ChatServer` owns the rate-limit table;
    - `ChatInterface.ChatSession` owns the component's state variables.
  - The retry loop of `fetchWithRetry` is a `while` loop (`ApiRetry.FetchWithRetry`) proved equal to
    the recursive run `ApiRetry.Retry`.
  - `clearAppStorage`'s pass over a snapshot of the keys is a loop proved equal to `ClearApp`.
- What the model takes as parameters:
  - The browser's own decisions are a `Host` value: whether storage exists, whether a storage
    content fits the quota, and `JSON.stringify`/`JSON.parse`.
  - The network is a function from the request and the attempt number to an outcome. Sleeps are
    recorded as a list of delays.
  - The language model is a function from the shaped request to a reply.
  - Clock readings and the day number of "today" are parameters.
- Regular expressions:
  - Each suspicious pattern is a function giving the length of its match at the start of a string,
    with the engine's greedy, backtracking semantics written out.
  - `test` means a match begins at some position.
  - A global `replace` drops the matches found from left to right.
- Two behaviours of the code that the model keeps as written:
  - Sanitizing is idempotent only on text without `&`, `<`, `>` and U+00A0. A second pass escapes the
    `&` of `&amp;` again (`Sanitize.SanitizeEscapesTwice`).
  - The tutor's reply is always tagged `normal`, whatever the server sends.
  - The three element patterns need the closing tag. An unclosed `<script>` is not suspicious
    (`Sanitize.UnclosedElementUnmatched`); `stripHtml` then removes the tag, so `<script>hi` is accepted
    as `hi` (`Sanitize.UnclosedScriptAccepted`).
- The component's history already ends with the new message when it is posted, and the route appends
  that message once more. The model therefore sees the new message twice in a row
  (`ChatInterface.SentHistoryRepeatsMessage`).
  - This follows from React running the queued updater at once, which the model assumes.

## Model

| member | source | states |
|---|---|---|
| Strings.TrimIdempotent | src/utils/sanitize.ts:64 | trimming twice is trimming once |
| Strings.TrimEnds | src/utils/sanitize.ts:64 | a trimmed string is empty or begins and ends with a non-space character |
| Strings.TrimKeepsNonSpace | src/utils/sanitize.ts:64 | `trim` keeps every character that is not white space |
| Strings.TrimIsSlice | src/utils/sanitize.ts:64 | the trimmed text is the contiguous piece of the input starting after the leading white space |
| Strings.LowerIdempotent | src/utils/sanitize.ts:46 | lower-cased text holds no upper-case ASCII letter, and lower-casing it again changes nothing |
| Strings.LowerSlice | src/utils/sanitize.ts:46 | lower-casing commutes with slicing and concatenation, so `includes` on the lower-cased text finds case-insensitive occurrences |
| Sanitize.TagFreeMeansNoLaterClose | src/utils/sanitize.ts:23 | "no tag" means no `<` is followed anywhere later by a `>` |
| Sanitize.StripHtmlSubsequence | src/utils/sanitize.ts:22-24 | the output of `stripHtml` is the input with some characters deleted |
| Sanitize.StripHtmlChars | src/utils/sanitize.ts:22-24 | every output character occurs in the input |
| Sanitize.StripHtmlLeavesNoTag | src/utils/sanitize.ts:22-24 | no `<` of the output is followed later by a `>` |
| Sanitize.StripHtmlKeepsTagFree | src/utils/sanitize.ts:22-24 | text without tags is returned unchanged |
| Sanitize.StripHtmlShortensTagged | src/utils/sanitize.ts:22-24 | text with a tag gets strictly shorter |
| Sanitize.StripHtmlFixpoint | src/utils/sanitize.ts:22-24 | `stripHtml` changes its input exactly when the input holds a tag |
| Sanitize.StripHtmlIdempotent | src/utils/sanitize.ts:22-24 | stripping twice is stripping once |
| Sanitize.StripHtml | src/utils/sanitize.ts:22-24 | `stripHtml`: its properties are the `StripHtml…` lemmas above (a subsequence of the input, no tag left, idempotent, the identity exactly on tag-free text) |
| Sanitize.EscapeHtml | src/utils/sanitize.ts:29-33 | escaped text holds no `<` or `>` and is no shorter than the input |
| Sanitize.EscapeRoundTrip | src/utils/sanitize.ts:29-33 | decoding the four character references gives the input back |
| Sanitize.EscapeKeepsPlain | src/utils/sanitize.ts:29-33 | text without `&`, `<`, `>`, U+00A0 is returned unchanged |
| Sanitize.EscapeHtmlAppend | src/utils/sanitize.ts:29-33 | escaping distributes over concatenation |
| Sanitize.EscapeAmpersandGrows | src/utils/sanitize.ts:29-33 | an `&` survives escaping and the text grows |
| Sanitize.EscapeUnpadded | src/utils/sanitize.ts:29-33 | escaping keeps a non-space character at both ends |
| Sanitize.ContainsDangerousProtocols | src/utils/sanitize.ts:45-48 | `containsDangerousProtocols`: true exactly when one of the four schemes occurs in some letter case (`DangerousProtocolDetected`, `DangerousProtocolLocated`) |
| Sanitize.DangerousProtocolDetected | src/utils/sanitize.ts:45-48 | an occurrence of any of the four schemes, in any letter case, is detected |
| Sanitize.DangerousProtocolLocated | src/utils/sanitize.ts:45-48 | a detection names a scheme and a position where it occurs up to case |
| Sanitize.MissingLastCharNotContained | src/utils/sanitize.ts:47 | `includes` is false when the pattern's last character does not occur in the text |
| Sanitize.ContainsImpliesOccurrence | src/utils/sanitize.ts:47 | a hit of `includes` names a position where the pattern occurs |
| Sanitize.FindCi | src/utils/sanitize.ts:4 | the first position at or after `from` where the pattern starts, ignoring case, or none |
| Sanitize.LastIndexIn | src/utils/sanitize.ts:9 | the last position in a range holding a character, or none |
| Sanitize.ElementMatch | src/utils/sanitize.ts:4-5 | an element match is non-empty and lies in the text |
| Sanitize.MatchAt | src/utils/sanitize.ts:3-10 | a match of any suspicious pattern is non-empty and lies in the text |
| Sanitize.AnyMatchAt | src/utils/sanitize.ts:38-40 | a match beginning at any position makes `test` true |
| Sanitize.ContainsSuspiciousPatterns | src/utils/sanitize.ts:38-40 | `containsSuspiciousPatterns`: some pattern matches from some position; the `…Detected` lemmas below give inputs that make it true, `UnclosedElementUnmatched` inputs on which an element pattern stays false |
| Sanitize.ElementDetected | src/utils/sanitize.ts:4-8 | `<script`, `<iframe` or `<object` in any case on a word boundary, with its closing tag anywhere after it, is matched by its pattern |
| Sanitize.UnclosedElementUnmatched | src/utils/sanitize.ts:4-8 | without its closing tag anywhere in the text an element pattern matches nowhere, so an unclosed `<script>` is not suspicious |
| Sanitize.EventHandlerDetected | src/utils/sanitize.ts:7 | `on`, one or more word characters, optional white space and `=` anywhere is a suspicious pattern |
| Sanitize.JavascriptSchemeDetected | src/utils/sanitize.ts:6 | `javascript:` in any letter case is a suspicious pattern |
| Sanitize.NoMatchAtUnstartable | src/utils/sanitize.ts:3-10 | no match begins with a character the pattern cannot start with |
| Sanitize.ReplaceAll | src/utils/sanitize.ts:112 | a global replace by `''` never lengthens the text |
| Sanitize.ReplaceAllFixpoint | src/utils/sanitize.ts:112 | the replace changes the text exactly when the pattern occurs in it |
| Sanitize.ReplaceAllRemovesMatch | src/utils/sanitize.ts:112 | text before the first match is kept, the match is dropped, and the replace carries on after it |
| Sanitize.ReplaceAllUnstartable | src/utils/sanitize.ts:112 | text in which the pattern cannot begin is unchanged |
| Sanitize.ReplaceFixpoint | src/utils/sanitize.ts:112 | for any advancing matcher, replacing is the identity exactly when nothing matches |
| Sanitize.ReplaceKeepsRange | src/utils/sanitize.ts:112 | positions at which no match begins are copied to the output |
| Sanitize.RemovePatternsFixed | src/utils/sanitize.ts:111-113 | patterns none of which changes the text leave it as it is |
| Sanitize.SanitizeForDisplay | src/utils/sanitize.ts:103-116 | `sanitizeForDisplay`: each pattern replaced by `''` in list order, then trimmed; `DisplayKeepsPlainText` and the `ReplaceAll…` lemmas state its effect |
| Sanitize.DisplayKeepsPlainText | src/utils/sanitize.ts:103-116 | text in which no suspicious pattern occurs is displayed merely trimmed |
| Sanitize.SanitizeInput | src/utils/sanitize.ts:53-65 | the empty string stays empty; the result holds no `<` or `>` |
| Sanitize.SanitizeNoOpen | src/utils/sanitize.ts:53-65 | on text without `<`, sanitizing is escaping then trimming |
| Sanitize.SanitizeIdempotentOnPlainText | src/utils/sanitize.ts:53-65 | on text without `&`, `<`, `>`, U+00A0, sanitizing twice is sanitizing once |
| Sanitize.SanitizeEscapesTwice | src/utils/sanitize.ts:53-65 | with an `&` and no `<`, a second sanitize lengthens the text |
| Sanitize.ValidateAndSanitizeMessage | src/utils/sanitize.ts:71-97 | `null` exactly for empty, suspicious, dangerous or empty-after-sanitizing input; otherwise `trim(escape(strip(m)))`, non-empty, without `<` or `>` |
| Sanitize.EventHandlerRejected | src/utils/sanitize.ts:77-80 | input with an event-handler assignment is rejected |
| Sanitize.DangerousProtocolRejected | src/utils/sanitize.ts:83-86 | input with a dangerous scheme in any letter case is rejected |
| Sanitize.ScriptElementRejected | src/utils/sanitize.ts:77-80 | input with `<script` (any case, word boundary) closed later by `</script>` is rejected |
| Sanitize.IframeElementRejected | src/utils/sanitize.ts:77-80 | input with `<iframe` closed later by `</iframe>` is rejected |
| Sanitize.ObjectElementRejected | src/utils/sanitize.ts:77-80 | input with `<object` closed later by `</object>` is rejected |
| Sanitize.UnclosedScriptAccepted | src/utils/sanitize.ts:71-97 | `<script>hi`, whose script tag is never closed, is accepted, and the sanitized message is `hi` |
| Sanitize.EmbedElementRejected | src/utils/sanitize.ts:77-80 | input with `<embed` on a word boundary and a `>` after it with no `<` between is rejected |
| LocalStorage.Utf8Length | src/utils/localStorage.ts:12 | the UTF-8 size of a string lies between one and four bytes per character |
| LocalStorage.TruncateMessages | src/utils/localStorage.ts:146-155 | `truncateMessages`: a history within the cap unchanged, a longer one its last `maxMessages` entries (`TruncateKeepsShort`, `TruncateKeepsLast`, `TruncateIdempotent`) |
| LocalStorage.TruncateStoredMessages | src/utils/localStorage.ts:146-155 | with the default cap, at most 150 messages are kept, and they are a suffix of the input |
| LocalStorage.TruncateKeepsShort | src/utils/localStorage.ts:150-152 | a history within the cap is returned as it is |
| LocalStorage.TruncateKeepsLast | src/utils/localStorage.ts:154 | a longer history keeps exactly its last `maxMessages` entries, in order |
| LocalStorage.TruncateZeroKeepsAll | src/utils/localStorage.ts:154 | a cap of 0 keeps everything, since `slice(-0)` is `slice(0)` |
| LocalStorage.TruncateIdempotent | src/utils/localStorage.ts:146-155 | truncating twice with a non-negative cap is truncating once |
| LocalStorage.TruncateNegativeDropsFront | src/utils/localStorage.ts:154 | a negative cap drops the first entries instead |
| LocalStorage.QuotaTruncationKeepsSuffix | src/utils/localStorage.ts:60 | both quota truncations keep a non-empty proper suffix of the last floor(70%) or floor(50%) elements; one element is kept whole |
| LocalStorage.Probed | src/utils/localStorage.ts:18-29 | a successful probe leaves the storage without the test key; a failed one changes nothing |
| LocalStorage.UnavailableChangesNothing | src/utils/localStorage.ts:35 | without storage, writes report false, reads give the default, and nothing changes |
| LocalStorage.SetItem | src/utils/localStorage.ts:49-92 | `setItemSafe`: each quota case is one `SetItem…` lemma below, and `SetItemFrame` bounds what any write touches |
| LocalStorage.SetItemStoresValue | src/utils/localStorage.ts:68-69 | a value within the quota is stored as its JSON text, and the write reports true |
| LocalStorage.SetItemTruncatesOversizedArray | src/utils/localStorage.ts:55-63 | an oversized array is stored truncated to its last 70%, and the write reports true |
| LocalStorage.SetItemRejectsOversizedOther | src/utils/localStorage.ts:55-66 | an oversized non-array is not written, and the write reports false |
| LocalStorage.SetItemRetriesHalf | src/utils/localStorage.ts:72-81 | after a quota error an array is retried at its last half, and the write reports true |
| LocalStorage.SetItemClearsWhenRetryFails | src/utils/localStorage.ts:82-86 | when the retry also fails the app's keys are cleared, and the write reports false |
| LocalStorage.SetItemQuotaOther | src/utils/localStorage.ts:72-91 | a quota error on a non-array reports false and writes nothing |
| LocalStorage.SetItemFrame | src/utils/localStorage.ts:49-92 | a successful write changes only its key (and the probe key); a failed one touches at most the app's namespace |
| LocalStorage.GetItem | src/utils/localStorage.ts:34-44 | `getItemSafe`: a stored parsable value reads back as itself (`GetAfterSet`); missing, empty or unparsable entries give the default (`GetItemDefaults`) |
| LocalStorage.GetAfterSet | src/utils/localStorage.ts:34-44 | a stored value whose JSON text parses back reads back as itself |
| LocalStorage.GetItemDefaults | src/utils/localStorage.ts:38-39 | a missing, empty or unparsable entry reads as the default |
| LocalStorage.Remove | src/utils/localStorage.ts:115-123 | `removeItem`: the key is gone afterwards (`GetAfterRemove`); nothing changes without storage (`UnavailableChangesNothing`) |
| LocalStorage.GetAfterRemove | src/utils/localStorage.ts:115-123 | after removal the key is gone and reads as the default |
| LocalStorage.ClearApp | src/utils/localStorage.ts:128-141 | `clearAppStorage`: exactly the app's keys go, every other value stays (`ClearAppExact`) |
| LocalStorage.ClearAppExact | src/utils/localStorage.ts:128-141 | clearing removes exactly the `english-tutor-` keys (and the probe key) and leaves every other entry's value |
| LocalStorage.ClearAppRemovesAppKeys | src/utils/localStorage.ts:134 | every key the app stores under is in the cleared namespace |
| LocalStorage.Storage.TryWrite | src/utils/localStorage.ts:23 | `setItem` stores the text exactly when the quota allows and reports whether it did |
| LocalStorage.Storage.IsAvailable | src/utils/localStorage.ts:18-29 | the probe's result and the storage after it |
| LocalStorage.Storage.GetItemSafe | src/utils/localStorage.ts:34-44 | the read value and storage are those of `GetItem` |
| LocalStorage.Storage.SetItemSafe | src/utils/localStorage.ts:49-92 | the result and storage are those of `SetItem`, whose cases the lemmas above state |
| LocalStorage.Storage.RemoveItem | src/utils/localStorage.ts:115-123 | the storage after removal is `Remove` of the storage before |
| LocalStorage.Storage.ClearAppStorage | src/utils/localStorage.ts:128-141 | the loop over a snapshot of the keys leaves `ClearApp` of the storage before |
| LocalStorage.LastCallFor | src/utils/localStorage.ts:97-110 | `None` exactly when no call names the key; otherwise the write of the last call naming it |
| LocalStorage.DebounceLastWriteWins | src/utils/localStorage.ts:97-110 | after a burst of calls each key's pending write is that of its last call; other keys are unchanged |
| LocalStorage.DebouncePendingKeys | src/utils/localStorage.ts:97-110 | the keys with a pending write are those pending before plus those named by a call |
| LocalStorage.DebounceTimers.SetItemDebounced | src/utils/localStorage.ts:97-110 | the new timer replaces any pending one for the key |
| LocalStorage.DebounceTimers.Fire | src/utils/localStorage.ts:104-107 | firing performs one `setItemSafe` with the captured value, then drops the key's timer |
| ApiRetry.DefaultStatusCodesAreConfigured | src/constants/app.ts:10 | the default codes are the configured retryable codes |
| ApiRetry.RetryFrom | src/utils/apiRetry.ts:34-66 | the loop from a given attempt: `RetryFromShape`, `RetryFromStops` and `RetryFromContinues` state it |
| ApiRetry.RetryFromShape | src/utils/apiRetry.ts:34-66 | from any attempt: the call count is bounded, delays double, every call but the last was retryable, and the last decides |
| ApiRetry.Retry | src/utils/apiRetry.ts:21-70 | `fetchWithRetry` as a run: `RetryShape`, `RetryReturnsAtOnce` and `RetryAllFail` state it |
| ApiRetry.RetryShape | src/utils/apiRetry.ts:21-70 | 0 attempts throw "All retry attempts failed" with no call; otherwise 1 to `maxAttempts` calls, delay `initialDelay*2^i` after failed attempt `i` but not after the last, and the last call decides |
| ApiRetry.RetryReturnsAtOnce | src/utils/apiRetry.ts:39-41 | a first response that is ok or not retryable is returned after one call and no delay |
| ApiRetry.RetryAllFail | src/utils/apiRetry.ts:53-69 | when every attempt fails all are made; a final response is returned, a final network error is thrown |
| ApiRetry.RetryFromStops | src/utils/apiRetry.ts:39-41 | a kept response ends the run with that one call |
| ApiRetry.RetryFromContinues | src/utils/apiRetry.ts:44-63 | a failed attempt is one call and its delay, followed by the run from the next attempt with the new error |
| ApiRetry.FetchWithRetry | src/utils/apiRetry.ts:21-70 | the loop's result, call count and delays are those of the run `Retry` |
| ApiRetry.FetchJsonOutcome | src/utils/apiRetry.ts:75-88 | with no attempts the error is "All retry attempts failed"; otherwise a body comes exactly from an ok answer to the last call, a response that is not ok gives `HTTP <status>: <body>`, and a network error is passed on only after the final attempt |
| ApiRetry.FetchJsonWithRetry | src/utils/apiRetry.ts:75-88 | the method yields `FetchJson` |
| ApiRetry.FetchJsonBodyIsOk | src/utils/apiRetry.ts:82-87 | a body is yielded only from an ok final response, and is that response's body |
| ApiRetry.PostJsonWithRetry | src/utils/apiRetry.ts:93-107 | yields `FetchJson` of the POST request |
| ApiRetry.ExampleRecovers | src/utils/apiRetry.ts:34-54 | outcomes 503, 503, 200 with defaults give 3 calls, delays [1000, 2000] and the 200 |
| ApiRetry.ExampleGivesUp | src/utils/apiRetry.ts:53-54 | 503 on every call gives 3 calls, delays [1000, 2000], and the last 503 returned, not thrown |
| ChatRoute.BeforeFirstComma | src/app/api/chat/route.ts:145 | `split(',')[0]`: a comma-free prefix, followed by a comma when it is shorter than the text |
| ChatRoute.BeforeFirstCommaSplits | src/app/api/chat/route.ts:145 | the split stops at the first comma, whatever follows |
| ChatRoute.RateLimitKey | src/app/api/chat/route.ts:143-147 | the first address of a non-empty `x-forwarded-for`, else a non-empty `x-real-ip`, else `unknown` |
| ChatRoute.ForwardedKeyIsFirstEntry | src/app/api/chat/route.ts:143-147 | with `x-forwarded-for: a,b` the key is `a` exactly, untrimmed, whatever `x-real-ip` says |
| ChatRoute.Check | src/app/api/chat/route.ts:149-164 | `checkRateLimit`: the `Check…` lemmas and `ThirtyPerWindow` state the window rule |
| ChatRoute.CheckStartsWindow | src/app/api/chat/route.ts:153-156 | a missing or strictly expired record restarts at count 1, ending `WINDOW_MS` from now, and the request is allowed |
| ChatRoute.CheckInsideWindow | src/app/api/chat/route.ts:158-163 | inside the window a full count denies with no change; otherwise the count goes up by one and the end stays |
| ChatRoute.CheckKeepsValid | src/app/api/chat/route.ts:149-164 | every count stays between 1 and `MAX_REQUESTS` |
| ChatRoute.CheckFrame | src/app/api/chat/route.ts:149-164 | only the entry of the checked key changes |
| ChatRoute.CheckAllWithinWindow | src/app/api/chat/route.ts:149-164 | within one window, requests are allowed while the count stays within `MAX_REQUESTS` and denied after |
| ChatRoute.ThirtyPerWindow | src/app/api/chat/route.ts:153-163 | with no open window, the first 30 requests within one window are allowed and every later one is denied |
| ChatRoute.RecentMessages | src/app/api/chat/route.ts:185 | the last `min(n, 25)` messages, in order |
| ChatRoute.History | src/app/api/chat/route.ts:187-190 | one model message per stored message, in order, with the mapped role |
| ChatRoute.ModelConversation | src/app/api/chat/route.ts:185-208 | the messages sent to the model, whose shape `ModelConversationShape` states |
| ChatRoute.ModelConversationShape | src/app/api/chat/route.ts:185-208 | at most 25 latest history messages, `user` exactly when the user wrote them, then the new message as `user` |
| ChatRoute.ContextualPrompt | src/app/api/chat/route.ts:193-199 | the system prompt with the level and mode lines, whose shape `ContextualPromptShape` states |
| ChatRoute.ContextualPromptShape | src/app/api/chat/route.ts:193-199 | the prompt begins with the system prompt, stays unchanged without level and mode, and ends with the mode line when one is given |
| ChatRoute.DeniedBeforeBody | src/app/api/chat/route.ts:169-175 | a denied request gets 429 with the table unchanged, whatever the body and the model |
| ChatRoute.AnsweredFromModel | src/app/api/chat/route.ts:201-213 | a 200 means the rate check passed, and carries the text of the first content block of the model's answer (or `''`) |
| ChatRoute.PostStatuses | src/app/api/chat/route.ts:166-237 | every reply is 200 with an answer, 429 with the rate message, or 500 with a failure carrying details exactly in development |
| ChatRoute.Answering | src/app/api/chat/route.ts:177-235 | the reply after the rate check: `AnsweredFromModel` and `AnsweringStatuses` |
| ChatRoute.Post | src/app/api/chat/route.ts:166-237 | the `POST` handler: `DeniedBeforeBody`, `AnsweredFromModel` and `PostStatuses` |
| ChatRoute.AnsweringStatuses | src/app/api/chat/route.ts:177-235 | each reply after the rate check fits its status |
| ChatRoute.FailureFits | src/app/api/chat/route.ts:229-235 | a failure reply is 500, with details only in development |
| ChatRoute.ChatServer.CheckRateLimit | src/app/api/chat/route.ts:149-164 | the in-place update of the table agrees with `Check` |
| ChatRoute.ChatServer.HandlePost | src/app/api/chat/route.ts:166-237 | the reply and the new table agree with `Post` |
| ChatInterface.UserMessages | src/components/ChatInterface.tsx:194 | the filtered history holds only user messages and is no longer |
| ChatInterface.UserMessagesAppend | src/components/ChatInterface.tsx:194 | filtering distributes over concatenation |
| ChatInterface.UserMessagesExact | src/components/ChatInterface.tsx:194 | a message is kept exactly when it is in the history and is the user's |
| ChatInterface.WordCount | src/components/ChatInterface.tsx:202 | `split(' ').length` is at least 1, and exactly 1 when there is no space |
| ChatInterface.TotalWords | src/components/ChatInterface.tsx:202 | every message counts at least one word |
| ChatInterface.AverageExceeds | src/components/ChatInterface.tsx:201-216 | comparing an average with `k` is comparing the total with `k*n` |
| ChatInterface.Classify | src/components/ChatInterface.tsx:204-216 | the level bands on the averages, stated by `ClassifyBands` and `ClassifyMonotone` |
| ChatInterface.ClassifyBands | src/components/ChatInterface.tsx:204-216 | first matching band on the averages: B2 (>15 words, >80 chars), B1 (>10, >50), A2 (>7, >30), else A1; never C1/C2; confidence 0.7/0.7/0.6/0.5 |
| ChatInterface.ClassifyMonotone | src/components/ChatInterface.tsx:204-216 | more words and characters never give a lower level |
| ChatInterface.Assessment | src/components/ChatInterface.tsx:193-232 | `assessUserLevel`'s estimate: `AssessmentShape`, `AssessmentIgnoresTutor` |
| ChatInterface.AssessmentShape | src/components/ChatInterface.tsx:193-232 | no estimate under 5 user messages; otherwise the band of the user messages, dated now, with empty strengths and weaknesses and sub-scores 0.7/0.6/0.7/0.6 |
| ChatInterface.AssessmentIgnoresTutor | src/components/ChatInterface.tsx:194 | a tutor reply does not move the estimate |
| ChatInterface.NextStreak | src/components/ChatInterface.tsx:170-186 | the streak after practising today: `ConsecutiveDaysCount`, `FirstPracticeStreak`, `StreakSameDayIdempotent` |
| ChatInterface.StreakUpdate | src/components/ChatInterface.tsx:166-190 | `updateDailyStreak` on the session, with its two writes; `ChatSession.UpdateDailyStreak` agrees with it |
| ChatInterface.ConsecutiveDaysCount | src/components/ChatInterface.tsx:174-179 | practising on consecutive days after yesterday adds one per day |
| ChatInterface.FirstPracticeStreak | src/components/ChatInterface.tsx:183-186 | a first practice followed by consecutive days gives a streak of the number of days |
| ChatInterface.StreakSameDayIdempotent | src/components/ChatInterface.tsx:170-172 | practising again on the same day changes nothing |
| ChatInterface.PrepareSend | src/components/ChatInterface.tsx:236-250 | rejects exactly empty, invalid or over-1000 text; otherwise the sanitized text, 1 to 1000 characters without `<` or `>` |
| ChatInterface.Persist | src/components/ChatInterface.tsx:106-113 | the save effect on `messages`, stated by `PersistKeeps` |
| ChatInterface.PersistKeeps | src/components/ChatInterface.tsx:106-113 | saving sets the reference copy to the last 150 and schedules its write, touching nothing else; an empty list is not saved |
| ChatInterface.Submit | src/components/ChatInterface.tsx:252-268 | the synchronous part of a send, stated by `SubmitShape` |
| ChatInterface.Receive | src/components/ChatInterface.tsx:278-310 | the part after the request, stated by `ReceiveShape` |
| ChatInterface.Send | src/components/ChatInterface.tsx:235-312 | `sendMessage`: `SendRejected`, `SendAppendsTwo`, `SendAssessesEveryFifth`, `SendStages`, `SentHistoryRepeatsMessage` |
| ChatInterface.SubmitShape | src/components/ChatInterface.tsx:252-268 | the user's message is appended and mirrored in the reference, input cleared, loading started, streak moved, day recorded |
| ChatInterface.ReceiveShape | src/components/ChatInterface.tsx:278-310 | one tutor message (reply or apology) is appended, loading ends, the last 150 are saved, and the level is re-estimated exactly after a reply at a positive multiple of five user messages |
| ChatInterface.SendRejected | src/components/ChatInterface.tsx:236-250 | an empty, invalid or too long message changes nothing and posts nothing |
| ChatInterface.SendAppendsTwo | src/components/ChatInterface.tsx:252-308 | a valid send appends exactly the user's sanitized message, then the tutor's reply or apology, both tagged as the code tags them |
| ChatInterface.SendAssessesEveryFifth | src/components/ChatInterface.tsx:293-295 | the level changes only after a reply when the user-message count is a multiple of five, and then becomes the whole conversation's estimate |
| ChatInterface.SendStages | src/components/ChatInterface.tsx:235-312 | a valid send is the submit stage, the save, then the receive stage |
| ChatInterface.SentHistoryRepeatsMessage | src/components/ChatInterface.tsx:259-276 | the posted history ends with the new message, so the conversation sent to the model ends with it twice |
| ChatInterface.AllMessages | src/components/ChatInterface.tsx:36 | a list of stored values reads as messages exactly when each one is a message, element by element |
| ChatInterface.SavedMessages | src/components/ChatInterface.tsx:36-41 | a saved non-empty array is used, read element by element as messages (the source checks only that it is a non-empty array; see Left out) |
| ChatInterface.SavedMessagesRoundTrip | src/components/ChatInterface.tsx:36-41 | a non-empty list of messages, saved as the stored array, reads back as itself; an empty one reads as nothing usable |
| ChatInterface.MessagesOrWelcome | src/components/ChatInterface.tsx:41-65 | there is always at least one message to show |
| ChatInterface.Load | src/components/ChatInterface.tsx:35-70 | the mount effect, stated by `LoadWelcomes`, `LoadNeverEmpty` and `MessagesOrWelcome` |
| ChatInterface.LoadWelcomes | src/components/ChatInterface.tsx:44-64 | without usable saved messages the chat starts with the tutor's welcome message alone |
| ChatInterface.LoadNeverEmpty | src/components/ChatInterface.tsx:35-70 | after loading there is at least one message, and the reference holds the last 150 |
| ChatInterface.ClearChat | src/components/ChatInterface.tsx:330-337 | `clearChat` once confirmed: messages and reference empty, the app's keys cleared as `LocalStorage.ClearApp` says |
| ChatInterface.ChatSession.constructor | src/components/ChatInterface.tsx:18-31 | every state variable starts at its initial value |
| ChatInterface.ChatSession.PersistMessages | src/components/ChatInterface.tsx:107-113 | the in-place save agrees with `Persist` |
| ChatInterface.ChatSession.UpdateDailyStreak | src/components/ChatInterface.tsx:166-190 | the in-place streak update and its writes agree with `StreakUpdate` |
| ChatInterface.ChatSession.AssessLevel | src/components/ChatInterface.tsx:193-232 | the in-place estimate and its write agree with `AssessUpdate` |
| ChatInterface.ChatSession.SubmitMessage | src/components/ChatInterface.tsx:252-268 | the synchronous part of a send agrees with `Submit` |
| ChatInterface.ChatSession.ReceiveReply | src/components/ChatInterface.tsx:278-310 | the part after the request agrees with `Receive` |
| ChatInterface.ChatSession.SendMessage | src/components/ChatInterface.tsx:235-312 | the posted body and the new state agree with `Send` |
| ChatInterface.ChatSession.ReadSaved | src/components/ChatInterface.tsx:36-39 | the four reads give the values and storage of `ReadBack` |
| ChatInterface.ChatSession.Restore | src/components/ChatInterface.tsx:41-69 | the state set from the values read agrees with `Restored` (typed reads; see Left out) |
| ChatInterface.ChatSession.LoadSaved | src/components/ChatInterface.tsx:35-70 | the mount effect agrees with `Load` |
| ChatInterface.ChatSession.ClearChatConfirmed | src/components/ChatInterface.tsx:330-337 | a confirmed clear empties the messages and clears the app's keys, as `ClearChat` says |

## Left out

- Regular expressions and the `/g` flag:
  - `test` on a global regex keeps `lastIndex` between calls, so a later `containsSuspiciousPatterns` call
    can start its search mid-string. `Sanitize.AnyMatch` always searches from position 0.
  - The regex engine is not modelled in general. The six patterns are written out as match functions.
- MatchAt: the tempered tokens of the `<script>`, `<iframe>` and `<object>` patterns are modelled by
  their effect: the match ends at the first closing tag after the opening one.
- EscapeHtml: the DOM's `textContent`/`innerHTML` round trip is modelled as the serialisation rule
  (`&`, `<`, `>`, U+00A0 become references). The DOM itself is not modelled.
- KeepSeventyPercent: `Math.floor(n * 0.7)` is computed exactly as `7n/10`. IEEE doubles give one less
  for some lengths (90, for instance), so there the source keeps one element fewer.
- PrepareSend: counts Unicode scalar values where JavaScript's `length` counts UTF-16 code units. A
  character outside the Basic Multilingual Plane counts once here and twice in the source.
- TotalChars: the average-length bands count characters the same way, as Unicode scalar values.
- Lower: folds only the ASCII letters A-Z. `toLowerCase` also folds letters of other scripts, and maps
  U+0130 to two characters; the model leaves all of those unchanged.
- SavedMessages: `savedMessages.length > 0` (src/components/ChatInterface.tsx:41) is the source's only
  check, and any non-empty array becomes the message list. The model's stored values are typed, so an
  array holding an element that is not a message is treated as unusable and the welcome message is
  shown instead.
- LevelRead: `if (savedLevel)` (src/components/ChatInterface.tsx:67) accepts any truthy value. The model
  takes only a stored level record, and keeps the current level for any other value.
- StreakRead: `setDailyStreak(savedStreak)` (src/components/ChatInterface.tsx:68) keeps whatever was read.
  The model reads a value that is not a number as 0.
- Restore: agrees with `Restored`, so it inherits the three restrictions above. It matches the source
  only when the saved values have the types the app writes.
- WithDefaults: the options are integers. A JavaScript `maxAttempts` may be fractional: with 2.5 the loop
  (src/utils/apiRetry.ts:34) makes three attempts, and the third counts as the last because
  `attempt < maxAttempts - 1` (line 46) is `2 < 1.5`. The model cannot express such options.
- Host and network values:
  - `JSON.stringify`/`JSON.parse`, the quota rule and the presence of `window` come from the `Host`
    value. Errors that `stringify` itself throws (cycles, BigInt) are not modelled.
  - The network is a function, and `sleep` only records its delay.
  - `console.warn`/`console.error` output is left out.
- `isValidUrl` (src/utils/sanitize.ts:121-128): not used by the core. It rests on the `URL` parser, a
  host facility.
- Left out of `src/utils/localStorage.ts`:
  - `getStorageUsage` (160-177): a floating-point percentage for display only.
  - the generic `debounce` helper (180-197): not used by the core.
- Route details:
  - The language-model SDK call is a function from the shaped request to a reply. `SYSTEM_PROMPT`'s
    text is a parameter.
  - The start-up check for the API key is not modelled.
  - `request.json()` parsing is an optional parsed body.
  - `NextRequest`/`NextResponse` are plain values.
  - The error status that the route only logs is left out.
- Time:
  - `Date.now()`, `new Date()` and message ids come in as parameters.
  - `toDateString` days are day numbers, with yesterday as today minus one.
  - Real timers do not run. A debounced write fires only as the explicit step `DebounceTimers.Fire`.
- Component UI:
  - rendering, `alert`/`confirm`/reload, auto-scroll, the quick-action buttons and the settings panel;
  - speech recognition and text-to-speech (src/components/ChatInterface.tsx:72-163);
  - the practice-mode selector, of which only the mode's value is read.
- Update order: React's queued updaters are taken to run at once, and the save effect runs as an
  explicit step where React re-renders. Interleavings of concurrent sends are left out.
- Confidence values and sub-scores: kept as the source's decimal constants, as `real`; no
  floating-point arithmetic is modelled.
