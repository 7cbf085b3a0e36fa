# Toxicity analysis pipeline — a Dafny model

This project models the only part of the safety companion app that makes
decisions of its own: the toxicity-analysis path. That path is made of two pieces.

- **`analyzeTextToxicity`** (services/huggingFaceService.ts).
  - It short-circuits blank text to an empty list.
  - Otherwise it asks a hosted classifier and keeps the first batch of the answer, sorted by score, highest first.
  - When the request throws, it falls back to a keyword heuristic: it lower-cases the text, looks for `hate`, `stupid`, `kill` and `ugly`, and emits one of three fixed label/score tables, sorted.
- **The pure logic of the analyzer screen** (components/HateSpeechAnalyzer.tsx).
  - The three severity colours of a score.
  - The high/low safety recommendation.
  - The analyze handler, as a state transition.
  - The plain-text report.

Modules, in dependency order:

| file | module | contents |
|---|---|---|
| `types.dfy` | `Types` | the `{label, score}` record, `Option`, label predicates |
| `text.dfy` | `Text` | the ECMAScript string primitives the code relies on (`trim`, `toLowerCase`, `includes`, `join` on one character, decimal digits), and the reading function `Split` |
| `ranking.dfy` | `Ranking` | the comparator sort `(a, b) => b.score - a.score` as a stable insertion sort |
| `hugging_face_service.dfy` | `HuggingFaceService` | the request outcome, the shape test, the keyword fallback, `analyzeTextToxicity` |
| `hate_speech_analyzer.dfy` | `HateSpeechAnalyzer` | `getSeverityColor`, the recommendation, `handleAnalyze`, `generateReport` |

Modelling choices:

- **Scores** are whole basis points (`nat`): 0.95 is 9500. Every threshold and comparison of the source is exact in this form.
  - `(score * 100).toFixed(2)` is exact too, because a basis-point score is a whole number of hundredths of a percent.
- **The HTTP exchange** is a parameter of type `FetchOutcome`, so every branch of the source is reachable by choosing the outcome:
  - `NetworkFailure`: `fetch` rejects.
  - `HttpError`: `response.ok` is false.
  - `Received(None)`: the body is not JSON.
  - `Received(Some(body))`: the decoded body. A body is either an array of items or any other JSON value, and an item is either an array of records or anything else.
- **The component state** is an immutable `AnalyzerState`.
  - `results` is an `Option`, because the source's `null` before the first analysis is different from an empty list.
  - The settled call is a `CallOutcome` parameter.
- **The report's clock reading** (`new Date().toLocaleString()`) is a `timestamp` parameter.
- **Reading functions** are reference definitions used only to state round trips; they are not part of the source:
  - `Split`, `ParsePercent`, `ParseResultLine`, `ParseResultLines`, `ParseNat` and `LastIndexOf`.
  - With them the model proves that the report's results section reads back as exactly the records it was written from.

## Where the code departs from its own comments

The comments of services/huggingFaceService.ts promise a mock fallback "if the API fails" (line 8) and "if no API key is present or call fails" (line 15). The code keeps that promise only for failures that throw. The model follows the code.

- **Wrongly shaped bodies do not fall back.** A body that decodes as JSON but has the wrong shape returns `[]` (services/huggingFaceService.ts:34-38). `HuggingFaceService.Request` and `HuggingFaceService.AnalyzeTextToxicity` return `[]` in that case.
- **What reaches the fallback.** Only a throw inside the `try` reaches it. There are four such throws:
  - a network failure;
  - a non-ok status;
  - a body that is not JSON;
  - a first batch that holds a `null` entry and at least two entries. The comparator then reads `.score` of `null`, which throws a `TypeError` (services/huggingFaceService.ts:35).
  - The model covers the first three. The fourth is listed under "## Left out".
- **Empty results for non-blank text.** The result is empty for blank text, but also when the body has the wrong shape or its first batch is empty. `HuggingFaceService.EmptyResultIff` states exactly when the result is empty.
- **Unique labels.** Labels are unique in the fallback (`KeywordFallback` ensures it). Nothing in the code checks this for the classifier's answer.
- **Empty result list and the report.** The report guard `!results` lets an empty list through, because an empty array is truthy. `generateReport` then produces a report with an empty results section (`HateSpeechAnalyzer.ReportOfEmptyResults`).
- **The report quotes the text box, not the analyzed text.** `generateReport` reads `inputText` when the report is downloaded (components/HateSpeechAnalyzer.tsx:34). The text box stays editable after an analysis. A report can therefore quote text that differs from the text its results were computed for. `HateSpeechAnalyzer.GenerateReport` takes the current text as a separate parameter, so the model admits this.

## Model

| member | source | states |
|---|---|---|
| Text.Trim | services/huggingFaceService.ts:13 | `trim()` returns a contiguous piece of its input whose first and last characters are not ECMAScript whitespace |
| Text.IsBlank | services/huggingFaceService.ts:13 | the blank test `!text.trim()`, which is also the guard of components/HateSpeechAnalyzer.tsx:12, holds exactly when every character of the text is whitespace or a line terminator (the empty text included) |
| Text.TrimEmptyIffAllWhitespace | services/huggingFaceService.ts:13 | `trim()` returns the empty string exactly when every character is whitespace or a line terminator |
| Text.TrimPadded | components/HateSpeechAnalyzer.tsx:29-40 | trimming removes exactly the whitespace padding around a string whose ends are not blank, and nothing of the string itself |
| Text.ToLower | services/huggingFaceService.ts:45 | `toLowerCase()` keeps the length; each ASCII capital becomes its small letter (code point plus 32), the Kelvin sign becomes `k`, and every other character is kept, so no capital is left |
| Text.ToLowerIdempotent | services/huggingFaceService.ts:45 | lower-casing twice is the same as lower-casing once |
| Text.LowerOccurrence | services/huggingFaceService.ts:45-48 | under the model's length-keeping lower-casing, where a word occurs in the text, its lower-cased form occurs at the same position of the lower-cased text |
| Text.LowerFindsWord | services/huggingFaceService.ts:45-48 | under the model's lower-casing, a word the text contains is found, lower-cased, in the lower-cased text |
| Text.LowerKeepsWord | services/huggingFaceService.ts:45-48 | a word of small ASCII letters that the text contains is still contained after lower-casing, so the text's own trigger words are always found |
| Text.LowerMissesLetter | services/huggingFaceService.ts:45-48 | a small letter is absent from the lower-cased text when its small and capital forms are absent from the text, and also the Kelvin sign for `k` and the dotted capital I (U+0130) for `i`, the only other characters `toLowerCase` turns into an ASCII letter |
| Text.Contains | services/huggingFaceService.ts:48 | `includes` finds the empty word in every text and never finds a word longer than the text |
| Text.MissingCharNotContained | services/huggingFaceService.ts:48 | a text that lacks one character of a word does not contain the word |
| Text.ContainsIff | services/huggingFaceService.ts:48 | `includes(w)` holds exactly when `w` occurs at some position of the text |
| Text.Join | components/HateSpeechAnalyzer.tsx:37 | `join` of no lines is the empty string, and joining `n` lines uses at least `n - 1` characters, one separator between each pair |
| Text.SplitJoin | components/HateSpeechAnalyzer.tsx:37 | splitting the `join('\n')` of non-empty line lists whose lines hold no line break gives back the lines |
| Text.SplitConcat | components/HateSpeechAnalyzer.tsx:29-40 | splitting at a separator splits the two sides independently |
| Text.ParseNatToString | components/HateSpeechAnalyzer.tsx:37 | the decimal digits of the whole part read back as the number |
| Ranking.SortByScoreDesc | services/huggingFaceService.ts:35 | the comparator sort returns a permutation of its input (same multiset) in non-increasing score order |
| Ranking.Insert | services/huggingFaceService.ts:35 | one insertion step keeps the list sorted and adds exactly the new record |
| Ranking.InsertKeepsTies | services/huggingFaceService.ts:35 | an insertion puts the new record ahead of the records it ties with and moves no other tie |
| Ranking.SortIsStable | services/huggingFaceService.ts:35 | records with equal scores keep their input order (the stable sort of ECMAScript 2019) |
| Ranking.SortOfSorted | services/huggingFaceService.ts:60 | sorting a list that is already in score order changes nothing |
| HuggingFaceService.Request | services/huggingFaceService.ts:17-38 | the request throws exactly on a network failure, a non-ok status or a non-JSON body; a well-shaped body gives a sorted permutation of its first batch, any other JSON value gives `[]` |
| HuggingFaceService.WellShaped | services/huggingFaceService.ts:34 | the shape test: the body is an array with at least one item and its first item is an array (the decision `Request` and `EmptyResultIff` turn on) |
| HuggingFaceService.HasTriggerWord | services/huggingFaceService.ts:48 | the trigger test on the lower-cased text; it can only hold for a text of at least four characters, the length of the shortest trigger word |
| HuggingFaceService.MockResults | services/huggingFaceService.ts:46-55 | the pushed table holds toxicity 0.95 exactly when a trigger word occurs, threat 0.92 exactly when `kill` occurs, and three records with `kill`, two otherwise |
| HuggingFaceService.KeywordFallback | services/huggingFaceService.ts:45-60 | the fallback is sorted, holds at least two records with unique labels, holds toxicity 0.95 and insult 0.88 when a trigger word occurs, holds a threat record exactly when the lower-cased text contains `kill`, and is exactly toxicity 0.02, severe_toxicity 0.01 otherwise |
| HuggingFaceService.FallbackTable | services/huggingFaceService.ts:48-60 | the three tables the fallback can emit, in their sorted order: (toxicity 0.02, severe_toxicity 0.01), (toxicity 0.95, insult 0.88), or (toxicity 0.95, threat 0.92, insult 0.88) |
| HuggingFaceService.SortThreatTable | services/huggingFaceService.ts:49-51 | sorting the pushed threat table moves threat 0.92 between toxicity and insult |
| HuggingFaceService.SortTwoRecordTables | services/huggingFaceService.ts:48-54 | the two-record tables are pushed already in sorted order |
| HuggingFaceService.TableLabels | services/huggingFaceService.ts:48-55 | every fallback table has unique labels, and only the `kill` table has a threat record |
| HuggingFaceService.FallbackThreatHasCompanions | services/huggingFaceService.ts:48-51 | a threat record never appears without both a toxicity and an insult record |
| HuggingFaceService.FallbackIgnoresCase | services/huggingFaceService.ts:45 | texts with the same lower-cased form get the same fallback, and lower-casing the text first changes nothing |
| HuggingFaceService.NoTriggerWithoutLetters | services/huggingFaceService.ts:45-48 | a text with none of the letters `t`, `s`, `k`, `g` in either case (nor the Kelvin sign) has no trigger word once lower-cased |
| HuggingFaceService.InsultExample | services/huggingFaceService.ts:45-60 | "I hate you, you are so stupid" falls back to toxicity 0.95, insult 0.88 |
| HuggingFaceService.ThreatExample | services/huggingFaceService.ts:45-60 | "you should just kill yourself" falls back to toxicity 0.95, threat 0.92, insult 0.88 |
| HuggingFaceService.HarmlessExample | services/huggingFaceService.ts:45-60 | "Have a wonderful day!" falls back to toxicity 0.02, severe_toxicity 0.01 |
| HuggingFaceService.AnalyzeTextToxicity | services/huggingFaceService.ts:11-61 | the result is always sorted: blank text gives `[]` whatever the outcome; a failed request gives the keyword fallback (never `[]`); a well-shaped body gives a permutation of its first batch; any other JSON value gives `[]` |
| HuggingFaceService.LiveResultIsStableSort | services/huggingFaceService.ts:34-35 | on the live path, records of equal score appear in their batch order |
| HuggingFaceService.LaterBatchesIgnored | services/huggingFaceService.ts:34-35 | two bodies with the same first batch give the same result: later batches are never read |
| HuggingFaceService.EmptyResultIff | services/huggingFaceService.ts:13-38 | the result is empty exactly when the text is blank, or the body is JSON of the wrong shape, or its first batch is empty |
| HateSpeechAnalyzer.ColorClass | components/HateSpeechAnalyzer.tsx:54-56 | the Tailwind class string of each bucket: `bg-red-500`, `bg-orange-500`, `bg-green-500` |
| HateSpeechAnalyzer.SeverityClass | components/HateSpeechAnalyzer.tsx:53-57 | `getSeverityColor` returns `bg-red-500` exactly above 0.8, `bg-orange-500` exactly in (0.5, 0.8], `bg-green-500` exactly at or below 0.5 |
| HateSpeechAnalyzer.SeverityColor | components/HateSpeechAnalyzer.tsx:53-57 | red exactly above 0.8, orange exactly in (0.5, 0.8], green exactly at or below 0.5 |
| HateSpeechAnalyzer.SeverityBoundaries | components/HateSpeechAnalyzer.tsx:54-55 | both thresholds are strict: 0.8 is orange, 0.8001 red, 0.5 green, 0.5001 orange |
| HateSpeechAnalyzer.SeverityMonotone | components/HateSpeechAnalyzer.tsx:53-57 | a higher score never lands in a lower bucket |
| HateSpeechAnalyzer.RecommendationFor | components/HateSpeechAnalyzer.tsx:135-137 | the high-toxicity text is shown exactly when a first record exists and its score is above 0.7; an empty list gets the low-toxicity text |
| HateSpeechAnalyzer.RecommendationText | components/HateSpeechAnalyzer.tsx:136-137 | the two sentences of the recommendation panel, the high-toxicity one and the low-toxicity one |
| HateSpeechAnalyzer.RecommendationSentence | components/HateSpeechAnalyzer.tsx:135-137 | the panel shows the high-toxicity sentence exactly when a first record exists and its score is above 0.7, and the low-toxicity sentence otherwise |
| HateSpeechAnalyzer.RecommendationOnSorted | components/HateSpeechAnalyzer.tsx:135 | on a list sorted by score, testing the first record decides whether any record is above 0.7 |
| HateSpeechAnalyzer.RecommendationForAnalysis | components/HateSpeechAnalyzer.tsx:135-137 | for every list the service returns, the high-toxicity text is shown exactly when some record is above 0.7 |
| HateSpeechAnalyzer.BeginAnalyze | components/HateSpeechAnalyzer.tsx:12-14 | blank text returns early; otherwise the busy flag is set, which disables the Analyze button, and text and results are unchanged |
| HateSpeechAnalyzer.FinishAnalyze | components/HateSpeechAnalyzer.tsx:15-22 | a resolved call stores its data, a rejected call keeps the previous results, and the busy flag is cleared either way |
| HateSpeechAnalyzer.HandleAnalyze | components/HateSpeechAnalyzer.tsx:11-23 | blank text leaves the state untouched; otherwise the flag ends cleared, the text is kept, and the results are the call's data or, on rejection, the previous results |
| HateSpeechAnalyzer.HandleAnalyzeWithService | components/HateSpeechAnalyzer.tsx:16-17 | with the real service behind it, analyzing non-blank text always stores a sorted list, the keyword fallback when the request failed |
| HateSpeechAnalyzer.PercentText | components/HateSpeechAnalyzer.tsx:37 | the percentage has a whole part, a point and exactly two decimals, and no space or line break |
| HateSpeechAnalyzer.ParsePercentText | components/HateSpeechAnalyzer.tsx:37 | the two-decimal percentage reads back as the exact score it was written from |
| HateSpeechAnalyzer.ResultLine | components/HateSpeechAnalyzer.tsx:37 | a result line starts with the record's label and ends with `%`, with room for the `: ` and the percentage between |
| HateSpeechAnalyzer.ParseResultLineRoundTrip | components/HateSpeechAnalyzer.tsx:37 | a `label: pct%` line reads back as its record, whatever characters the label holds |
| HateSpeechAnalyzer.ResultLines | components/HateSpeechAnalyzer.tsx:37 | the results section has one line per record |
| HateSpeechAnalyzer.ResultLinesSingleLine | components/HateSpeechAnalyzer.tsx:37 | a result line holds no line break when its label holds none |
| HateSpeechAnalyzer.ResultsSection | components/HateSpeechAnalyzer.tsx:37 | the joined results section is empty exactly when the list is empty |
| HateSpeechAnalyzer.ParseResultLinesRoundTrip | components/HateSpeechAnalyzer.tsx:37 | the result lines read back, in order, as the records they were written from |
| HateSpeechAnalyzer.ResultsSectionRoundTrip | components/HateSpeechAnalyzer.tsx:37 | the newline-joined results section splits into one line per record, in list order, and reads back as the records |
| HateSpeechAnalyzer.Quoted | components/HateSpeechAnalyzer.tsx:34 | the input text appears verbatim, with one double quote before it and one after it |
| HateSpeechAnalyzer.ReportBody | components/HateSpeechAnalyzer.tsx:29-39 | the template's layout between its outer padding: preamble lines, the quoted text, the middle lines, the results section and the footer lines, joined by line breaks (its parts are stated by `ReportQuotesInput` and `ReportLines`) |
| HateSpeechAnalyzer.GenerateReport | components/HateSpeechAnalyzer.tsx:25-40 | no report exactly while no results are stored; otherwise the trimmed template, which is the template's text between its outer padding |
| HateSpeechAnalyzer.ReportTrimmed | components/HateSpeechAnalyzer.tsx:29-40 | `.trim()` removes only the leading line break and the trailing indentation of the template |
| HateSpeechAnalyzer.FixedLinesSingleLine | components/HateSpeechAnalyzer.tsx:30-39 | the fixed lines of the template (title, captions, rule, disclaimer) hold no line break |
| HateSpeechAnalyzer.ReportQuotesInput | components/HateSpeechAnalyzer.tsx:34 | the input text appears verbatim between double quotes right after the preamble |
| HateSpeechAnalyzer.ReportLines | components/HateSpeechAnalyzer.tsx:29-39 | for any input text and a non-empty list with single-line timestamp and labels, the report's lines are title, timestamp line, rule, caption, the lines of the quoted text, rule, caption, one `label: pct%` line per record in list order, rule, disclaimer |
| HateSpeechAnalyzer.QuotedSingleLine | components/HateSpeechAnalyzer.tsx:34 | the quoted input text is one line when the text holds no line break |
| HateSpeechAnalyzer.ReportOfEmptyResults | components/HateSpeechAnalyzer.tsx:26 | no stored results give no report; a stored empty list still gives one, with an empty results section |

## Left out

- Network and JSON I/O are a `FetchOutcome` parameter, because they are foreign calls. This covers `fetch`, the request headers, the bearer token from `process.env`, and `response.json()`.
- The fallback's one-second `setTimeout` is left out because it only delays the answer (services/huggingFaceService.ts:58).
- The `console.warn` and `console.error` logging is left out because it has no effect on any result.
- The Blob and anchor download of the report, and its `safeguard_report_<millis>.txt` file name, are left out as browser I/O and clock readings (components/HateSpeechAnalyzer.tsx:42-50).
- `new Date().toLocaleString()` is a `timestamp` parameter, because the clock and locale formatting are outside the model.
- All JSX rendering is left out as presentation. That includes the score cards with their `toFixed(1)` badge and width bar, and the `results &&` panel guard.
- `CanSubmit` mirrors the button's `disabled` condition (components/HateSpeechAnalyzer.tsx:75). It is a plain predicate with no contract of its own.
- services/geminiService.ts, components/SupportChat.tsx, components/Resources.tsx and App.tsx are not part of this model. They are wrappers around a hosted chat SDK, tab and theme state, and a static list.
- HuggingFaceService.AnalyzeTextToxicity: the first batch is modelled as a list of `{label, score}` records, as the source's types declare it. Two kinds of entries are left out:
  - `null` entries, in a batch of at least two entries. Reading `.score` of `null` throws, so the code reaches the fallback: this is the fourth route to it.
  - Entries without a numeric `score` (a number, a string, or an object whose `score` is missing or does not convert to a number). They compare as `NaN`, so their sort order is implementation-defined.
  - Entries that do have a numeric `score` but are not `{label, score}` records, such as one without a label or with a numeric-string score. They sort like records, but they are outside the model's record type.
- HuggingFaceService.AnalyzeTextToxicity: scores finer than 0.0001 are left out, because scores are whole basis points and the source's floating-point scores are not modelled.
- Text.ToLower: only ASCII capitals and the Kelvin sign (U+212A, which lower-cases to `k`) are mapped; every other character is left unchanged.
  - The lower-cased string therefore differs from the source's for every other capital, Latin ones included: `É` stays `É`, `Σ` stays `Σ`, and the dotted capital I (U+0130) stays one character where `toLowerCase` gives two, `i` followed by the combining dot U+0307.
  - The trigger-word test is still decided the same way. Besides ASCII capitals and the Kelvin sign, U+0130 is the only character `toLowerCase` turns into an ASCII letter. Its `i` is always followed by U+0307, while in `stupid` and `kill` the `i` is followed by `d` and `l`, so it can never complete a trigger word.
- Text.LowerOccurrence: the position is that of the model's lower-casing, which keeps lengths. `toLowerCase` lengthens U+0130, so in `İhate` the word `hate` moves from position 1 to position 2 in the source. For words the trigger test uses, only the existence of an occurrence matters, and `Text.LowerKeepsWord` states that for the source too.
- Text.LowerFindsWord: it holds of the model's lower-casing, not of `toLowerCase` for non-ASCII words. `ΑΣ` contains `Σ`, but by the final-sigma rule `toLowerCase` turns it into `ας`, which does not contain `σ`. For words of small ASCII letters, as the four trigger words are, `Text.LowerKeepsWord` is the form that holds of the source too.
- Text.Trim: characters are Dafny `char`s, not UTF-16 code units. No whitespace character is a surrogate, so this does not change what is trimmed.
- HateSpeechAnalyzer.PercentText: `toFixed(2)` of a floating-point product is modelled only for whole basis-point scores, where it is exact. Rounding of finer floats is left out.
- HateSpeechAnalyzer.HandleAnalyze: the handler is one atomic transition from the state before the call to the state after it. The text box stays editable while the call is awaited, because only the button is disabled (components/HateSpeechAnalyzer.tsx:66-76). Edits made during the call are therefore not modelled: the model keeps the text the analysis started with.
