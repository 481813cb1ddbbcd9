# Email classifier: a Dafny model

This project models the decision logic of a small web application that fetches
a user's recent Gmail messages and sorts them into categories (important,
promotional, social, marketing, spam) with a hosted zero-shot classification
model, falling back to keyword rules when the remote call is aborted or times
out. Nothing is compiled or executed; every property below is proved by the
Dafny verifier.

Modules, one per source concern:

- `Wrappers` (`wrappers.dfy`): `Option` for JavaScript's `undefined`, `Result`
  for a call that returns or throws, and `At`, JavaScript array indexing
  (out of range gives `undefined`).
- `Text` (`text.dfy`): ASCII `toLowerCase`, `includes` (substring search, with a
  reference definition by occurrence positions) and `split` on one character
  (with its inverse `Join` and the round trip in both directions).
- `ClassifyEmails` (`classify_emails.dfy`): `src/lib/classifyEmails.ts`. The
  keyword fallback `RuleBasedClassify`, its table-driven reference reading
  `FirstMatch`, the outcome dispatch `ClassifyEmail`, and
  `ClassifyEmailWithHuggingFace` with its first-index-of-the-maximum choice.
  The remote call is replaced by its outcome: `Ok(reply)`, `NotOk(statusText)`
  or `Threw(error)`; the 30-second timer's abort is `Threw(TimerAbort)`, an
  error named `AbortError`.
- `EmailsRoute` (`emails_route.dfy`): `src/app/api/emails/route.ts`. GET's
  token extraction, `count` default and Subject-header lookup as functions,
  with Gmail given as a pair of total functions (list, get); POST as a method
  whose loop classifies the posted messages in order, the i-th call seeing the
  network outcome `network(i)`.

The result field `label` of a classification is called `category` in the
model, because `label` is a reserved word in Dafny.

Where the prose description of the system and the code differ, the model
follows the code:

- The fallback searches subject and body joined by a single space
  (`classifyEmails.ts:58`); only the remote request joins them with a newline.
- A score is whatever the service returned; it lies in [0, 1] only when the
  service's does (`LabelAndScoreInRange` assumes it).
- A successful response with empty lists is not an error: the code returns an
  undefined label and score, and so does the model. The same holds for
  `classifyEmailWithHuggingFace` on an empty score list, where `Math.max()`
  is -Infinity and `indexOf` gives -1.
- A non-ok response whose status text contains "timed out" also falls back,
  because the thrown message then contains it (`NotOkResult`).

## Model

| member | source | states |
|---|---|---|
| `Wrappers.At` | src/lib/classifyEmails.ts:44-45 | indexing gives the element exactly when the index is in range, otherwise undefined |
| `Text.Lower` | src/lib/classifyEmails.ts:58 | lower-casing keeps the length, leaves no capital letter, maps each capital to its small letter and keeps every other character |
| `Text.LowerAppend` | src/lib/classifyEmails.ts:58 | lower-casing a concatenation is the concatenation of the lower-cased parts |
| `Text.LowerUpper` | src/lib/classifyEmails.ts:58 | an upper-cased string lower-cases to the same text as the original |
| `Text.Includes` | src/lib/classifyEmails.ts:59-63 | `includes` is true exactly when the word occurs at some position of the text |
| `Text.IndexOf` | src/lib/classifyEmails.ts:96 | `indexOf` gives -1 exactly when the value is absent, otherwise a position holding it with no earlier one; the same search finds the first separator in `split` (src/app/api/emails/route.ts:8) |
| `Text.IncludesAcrossSeparator` | src/lib/classifyEmails.ts:58-63 | a word without the separator is found in `a + sep + b` exactly when it is found in `a` or in `b` |
| `Text.LetterMissing` | src/lib/classifyEmails.ts:59-63 | a word with a letter the text lacks is not found |
| `Text.Split` | src/app/api/emails/route.ts:8 | `split` gives at least one field and no field holds the separator |
| `Text.JoinSplit` | src/app/api/emails/route.ts:8 | joining the fields of a split with the separator gives the input back |
| `Text.SplitAtFirst` | src/app/api/emails/route.ts:8 | the first field is everything before the first separator, the rest is the split of what follows it |
| `Text.SplitAfterField` | src/app/api/emails/route.ts:8 | splitting "x", separator, "y" with a separator-free x gives x followed by the fields of y |
| `Text.SplitJoin` | src/app/api/emails/route.ts:8 | splitting a join of separator-free fields gives those fields back, so the split is the only such decomposition |
| `ClassifyEmails.FallbackText` | src/lib/classifyEmails.ts:58 | the searched text is subject, one space, body, with no capital letter left; `ClassifyEmails.FallbackTextSplits` gives its exact form |
| `ClassifyEmails.RuleBasedClassify` | src/lib/classifyEmails.ts:57-65 | the fallback always scores 1 and its label is one of important, promotional, social, marketing, spam, other |
| `ClassifyEmails.FirstMatch` | src/lib/classifyEmails.ts:59-64 | the table reading gives "other" or the label of a group that matches |
| `ClassifyEmails.RuleBasedFollowsTable` | src/lib/classifyEmails.ts:59-64 | the chain of conditionals gives the label of the first matching group of the five-group table, or "other" |
| `ClassifyEmails.FirstMatchIsFirst` | src/lib/classifyEmails.ts:59-63 | for a table with distinct labels, group k's label comes out exactly when group k matches and no earlier group does |
| `ClassifyEmails.FirstMatchOther` | src/lib/classifyEmails.ts:64 | for such a table, "other" comes out exactly when no group matches |
| `ClassifyEmails.RulesDistinct` | src/lib/classifyEmails.ts:59-64 | the five group labels are distinct and differ from "other" |
| `ClassifyEmails.PriorityOrder` | src/lib/classifyEmails.ts:59-63 | the fallback labels an email with group k exactly when a keyword of group k is in the lower-cased text and no keyword of an earlier group is |
| `ClassifyEmails.OtherWhenNoGroupMatches` | src/lib/classifyEmails.ts:64 | the fallback says "other" exactly when no keyword of any group is in the lower-cased text |
| `ClassifyEmails.RuleLabelsAreCandidates` | src/lib/classifyEmails.ts:17 | the five rule labels are the five candidate labels offered to the service, in the same order |
| `ClassifyEmails.InvoiceBeatsUnsubscribe` | src/lib/classifyEmails.ts:59-60 | an email with "invoice" in its subject and "unsubscribe" in its body is important, score 1 |
| `ClassifyEmails.FallbackTextSplits` | src/lib/classifyEmails.ts:58 | the searched text is the lower-cased subject, a space, and the lower-cased body |
| `ClassifyEmails.KeywordsHaveNoSpace` | src/lib/classifyEmails.ts:59-63 | none of the fourteen keywords contains a space |
| `ClassifyEmails.KeywordInText` | src/lib/classifyEmails.ts:58-63 | a keyword is in the searched text exactly when it is in the lower-cased subject or in the lower-cased body |
| `ClassifyEmails.NoKeywordGivesOther` | src/lib/classifyEmails.ts:58-64 | if neither lower-cased subject nor lower-cased body holds any keyword, the result is "other" with score 1 |
| `ClassifyEmails.CaseInsensitive` | src/lib/classifyEmails.ts:58 | emails whose subjects and bodies agree up to letter case get the same fallback result |
| `ClassifyEmails.UpperCaseSameClass` | src/lib/classifyEmails.ts:58 | upper-casing subject and body never changes the fallback result |
| `ClassifyEmails.EarlierGroupsNeedLetters` | src/lib/classifyEmails.ts:59-62 | a text without the letters c, e, f, m, p, u, v matches none of the first four groups |
| `ClassifyEmails.SpamWhenNoEarlierGroup` | src/lib/classifyEmails.ts:59-63 | a text matching the spam group and no earlier group is spam with score 1 |
| `ClassifyEmails.WindowIsSpam` | src/lib/classifyEmails.ts:63 | matching is by plain substring: subject "Window" with an empty body is spam, score 1 |
| `ClassifyEmails.FallsBack` | src/lib/classifyEmails.ts:48-49 | only an Error is recovered from, and every Error named AbortError or whose message contains "timed out" is |
| `ClassifyEmails.Recover` | src/lib/classifyEmails.ts:47-53 | the catch recovers exactly from an Error named AbortError or whose message contains "timed out", with the fallback's answer; anything else is re-thrown unchanged |
| `ClassifyEmails.ClassifyEmail` | src/lib/classifyEmails.ts:13-55 | an ok response always succeeds; a failure is never a recoverable error; a success without an ok response is the fallback's answer; a thrown non-recoverable error is re-thrown unchanged |
| `ClassifyEmails.OkTakesTopEntry` | src/lib/classifyEmails.ts:41-46 | an ok response yields exactly the first label with the first score |
| `ClassifyEmails.TimeoutFallsBack` | src/lib/classifyEmails.ts:47-51 | the timer's abort, or any Error whose message contains "timed out", yields exactly the fallback's answer |
| `ClassifyEmails.PrefixHasNoTimeout` | src/lib/classifyEmails.ts:38 | the message prefix "Hugging Face API error: " does not contain "timed out" |
| `ClassifyEmails.ApiErrorMentionsTimeout` | src/lib/classifyEmails.ts:37-49 | the non-ok error message contains "timed out" exactly when the status text does |
| `ClassifyEmails.ApiError` | src/lib/classifyEmails.ts:38 | a non-ok response throws an Error whose message is "Hugging Face API error: " followed by the status text |
| `ClassifyEmails.NotOkResult` | src/lib/classifyEmails.ts:37-53 | a non-ok response throws "Hugging Face API error: " + statusText, recovered with the fallback only if the status text contains "timed out" |
| `ClassifyEmails.LabelAndScoreInRange` | src/lib/classifyEmails.ts:41-52 | when the service answers with a candidate label and a score in [0, 1], every successful result has a candidate label or "other" and a score in [0, 1] |
| `ClassifyEmails.MaxOf` | src/lib/classifyEmails.ts:96 | `Math.max` of a non-empty list is an element of it and at least every element |
| `ClassifyEmails.FirstMaxIndex` | src/lib/classifyEmails.ts:96 | the chosen index holds the largest score and every earlier score is smaller; -1 for no scores |
| `ClassifyEmails.ClassifyEmailWithHuggingFace` | src/lib/classifyEmails.ts:67-110 | a response yields the label and score at the first index of the largest score (undefined for no scores); an error goes through the same catch with an empty subject and the text as body |
| `ClassifyEmails.HuggingFacePicksFirstMax` | src/lib/classifyEmails.ts:95-101 | with scores and enough labels, the result's score is the largest and its label and score come from one index before which every score is smaller |
| `ClassifyEmails.HuggingFaceTimeoutFallsBack` | src/lib/classifyEmails.ts:102-107 | an abort or a "timed out" error yields the fallback applied to an empty subject and the text as body |
| `EmailsRoute.AccessToken` | src/app/api/emails/route.ts:8 | a token exists exactly when the header exists and holds a space, and it never holds a space |
| `EmailsRoute.HasToken` | src/app/api/emails/route.ts:12 | the request passes the token test only with a header holding a space and a non-empty second field; `EmailsRoute.EmptyToken` states exactly which headers fail |
| `EmailsRoute.SecondField` | src/app/api/emails/route.ts:8 | in "x y" followed by nothing or by a separator and more, the second field is y |
| `EmailsRoute.BearerToken` | src/app/api/emails/route.ts:8 | "scheme token" (optionally followed by more space-separated fields) yields exactly the token |
| `EmailsRoute.FirstFieldEmpty` | src/app/api/emails/route.ts:8 | the first field of a split is empty exactly when the text is empty or starts with the separator |
| `EmailsRoute.EmptyToken` | src/app/api/emails/route.ts:8-17 | the token is empty exactly when the header's first space is followed by another space or ends it |
| `EmailsRoute.Count` | src/app/api/emails/route.ts:10 | count is never empty: the query parameter when present and non-empty, otherwise "15" |
| `EmailsRoute.FindSubject` | src/app/api/emails/route.ts:41-43 | -1 exactly when no header is named exactly "Subject", otherwise the first such header |
| `EmailsRoute.SubjectOf` | src/app/api/emails/route.ts:41-43 | no headers give no subject, and a subject is always the value of some header named exactly "Subject"; `EmailsRoute.SubjectIsFirstSubjectHeader` and `EmailsRoute.NoSubjectHeader` pin which one |
| `EmailsRoute.SubjectIsFirstSubjectHeader` | src/app/api/emails/route.ts:41-43 | the subject is the value of the first header named exactly "Subject" |
| `EmailsRoute.NoSubjectHeader` | src/app/api/emails/route.ts:41-43 | without a header named "Subject" the subject is undefined |
| `EmailsRoute.Details` | src/app/api/emails/route.ts:50-62 | the details of a 500 answer are the thrown Error's message, or "Unknown error" for any other thrown value (the same catch is route.ts:90-102) |
| `EmailsRoute.FetchAll` | src/app/api/emails/route.ts:33-47 | the fetches succeed together exactly when each does, giving one entry per message in list order with its id, subject and snippet; otherwise the error of a failed fetch |
| `EmailsRoute.Get` | src/app/api/emails/route.ts:6-64 | 401 exactly without a usable token; no messages gives an empty list; a listing error gives 500 with its details; otherwise one entry per listed message in order when every fetch succeeds, else 500 with a failed fetch's details |
| `EmailsRoute.UnauthorizedBeforeGmail` | src/app/api/emails/route.ts:12-17 | without a usable token the answer is 401 whatever Gmail would answer |
| `EmailsRoute.OrEmpty` | src/app/api/emails/route.ts:82-83 | an undefined subject or snippet becomes the empty string, a present one is kept |
| `EmailsRoute.ClassifierInput` | src/app/api/emails/route.ts:81-84 | the classifier sees the posted subject as subject and the posted snippet as body, each "" when absent |
| `EmailsRoute.Post` | src/app/api/emails/route.ts:66-104 | 400 exactly for a missing or empty list; success exactly when every call succeeds, with the same length and order and element i being input i with only its classification set to call i's result (subject and snippet defaulted to ""); otherwise 500 with the details of the first failing call, every earlier call having succeeded, and no list |

## Left out

- The HTTP requests to the inference service and to Gmail, with their URLs, headers and JSON bodies (`classifyEmails.ts:22-33`, `72-93`; `route.ts:20-27`, `35-38`): their results are inputs (`Outcome`, `Result<Reply, Thrown>`, the `Gmail` functions). The API keys only travel in those requests, so they do not appear.
- The `AbortController` and 30-second `setTimeout` race (`classifyEmails.ts:18-19`, `35`): timing; the timer firing is the outcome `Threw(TimerAbort)`.
- A malformed ok response (a body that is not JSON, or lacks the `labels`/`scores` arrays): the resulting `SyntaxError` or `TypeError` is represented by the caller choosing a `Threw` outcome.
- `EmailsRoute.Get`: `Promise.all` runs the fetches concurrently and rejects with whichever failure settles first; the contract states only that the details come from some failed fetch (the function picks the first in list order).
- Floating point: scores are `real`, so NaN, infinities and rounding are not modelled.
- `toLowerCase` and `toUpperCase` are modelled on ASCII letters only; other Unicode case mappings are not.
- Thrown values are either `Error` objects (name and message) or something else; a non-`Error` object carrying a `message` property is reported by the route as "Unknown error" in the model, while the code would report its message.
- `null` and `undefined` are both `None`; JSON serialisation (which drops `undefined` fields), `NextResponse`, status bodies beyond their status and details, `parseInt(count)`, environment variables and `console.error` logging.
- Posted messages carry the fields the client sends (`id`, `subject`, `snippet`, `classification`); any other fields that `...email` would copy are not modelled, nor non-string values in them.
- `src/app/page.tsx`, `src/app/layout.tsx`, `src/app/api/auth/google/route.ts` and `src/app/api/emails/[id]/route.ts` are not part of this model: UI rendering and state, and thin pass-throughs to Google's endpoints.
- `EmailsRoute.Post`: its input is an optional list of messages, so it does not capture the request bodies the code handles otherwise. A body that is not JSON, or is JSON `null`, makes `request.json()` or the `{ emails }` destructuring (route.ts:67) throw before the `try`, so the framework answers with its generic 500. A truthy `emails` that is not an array behaves differently too: `true`, or an object without a zero `length`, throws "emails is not iterable" inside the `try`, giving 500 with that message, and a string is classified one character at a time. A `null` element throws a TypeError inside the `try`, giving 500 with the TypeError's message.
