# Paris travel assistant: answer routing

A Dafny model of the answer-routing core of the Paris travel assistant
(`src/advanced_paris_assistant.py`). It has three parts.

- **Knowledge base** (`KnowledgeBase`, file `knowledge_base.dfy`). This is the fixed,
  ordered list of three locations (Eiffel Tower, Louvre Museum, Arc de Triomphe).
  - `Find` is the case-insensitive, exact, first-match lookup.
  - `DistanceReport` is absent when either name is unknown. Otherwise it is a sentence
    headed by the two *stored* names. The kilometre, mile, walking and metro figures come
    from a parameter `measure`, which stands for the haversine computation and its
    number formatting. The fixed words of the sentence are kept.
- **Intent classifier** (`IntentClassifier`, file `intent_classifier.dfy`). This is the
  ordered pattern table distance, where, mustsee, greet, tried top to bottom on the
  lower-cased question. The first entry with a matching pattern wins; `General` is the
  answer when none matches.
  - Each regular expression of the table is a `Pattern`: a chain of literal pieces with
    `.*` between them, a `\bword\b` match, or an alternation.
  - `Search` gives the meaning of `re.search` for these shapes.
  - `must[- ]?see.*louvre` is written out as its three alternatives.
  - The greet entry is the single alternation pattern the code has.
- **Answer router** (`AnswerRouter`, file `answer_router.dfy`). `LocalAnswer` is the pure
  view of the three guarded local paths:
  - distance, always about the Louvre Museum and the Eiffel Tower;
  - where, guarded by "arc de triomphe";
  - mustsee, guarded by "louvre".

  The class `ParisAssistant` holds the running conversation. Its method `Answer` changes
  the conversation in place only on the fallback path. There it appends the user's
  question, hands the whole conversation to the gateway `chat`, appends the reply and
  returns it. A ghost field `turns` records the hand-offs. The class invariant says the
  conversation is always the seed followed by the messages of those hand-offs, and that
  only questions without a local answer were handed off.

The conversation is seeded with **three** messages: a system prompt, one user question
and its answer (`src/advanced_paris_assistant.py:140-145`). After N hand-offs it holds
3 + 2N messages.

The must-see guard ("louvre" in the question, line 162) can never fail. Every must-see
pattern ends in `louvre`, so a question classified as must-see always contains it.
`MustSeeNeedsLouvre` and `MustSeeAnsweredLocally` state this. The where guard is a real
filter: "Where is the Eiffel Tower?" is a where-question and still goes to the gateway.

The sample questions "Hello there!", "How far is it in kilometers?", "Where is the Eiffel
Tower?", "Where is the Arc de Triomphe?", "What are the must-see works at the Louvre?" and
"What's the weather like?" are each routed as literal strings in `sample_questions.dfy`
(module `SampleQuestions`).

`wrappers.dfy` holds the `Option` type. `text.dfy` holds lower-casing, substring
occurrence, the regular-expression word characters and two lemmas for showing that a
phrase is absent from a text.

## Model

| member | source | states |
|---|---|---|
| KnowledgeBase.Find | src/advanced_paris_assistant.py:80-85 | The result is None exactly when no stored name equals the requested one after lower-casing both. Otherwise it is the stored location at the first matching index. |
| KnowledgeBase.FindIgnoresCase | src/advanced_paris_assistant.py:80-85 | Two spellings with the same lower-case form find the same location, or both find nothing. |
| KnowledgeBase.FindStored | src/advanced_paris_assistant.py:56-85 | Each of the three stored names finds its own location. No other entry matches it. |
| KnowledgeBase.DistanceReport | src/advanced_paris_assistant.py:87-96 | Absent exactly when either name is unknown. Otherwise it begins with "{A.name} → {B.name}: ", using the stored names that were found, not the caller's spelling. |
| KnowledgeBase.DistanceReportIgnoresCase | src/advanced_paris_assistant.py:87-88 | The report depends only on the lower-case forms of the two requested names. |
| KnowledgeBase.LouvreEiffelReport | src/advanced_paris_assistant.py:87-96 | For the pair "Louvre Museum", "Eiffel Tower" the report exists. It is the sentence for the Louvre and the Eiffel Tower, headed "Louvre Museum → Eiffel Tower: ". |
| Text.Lower | src/advanced_paris_assistant.py:81 | `str.lower()`: the same length, each upper-case ASCII letter replaced by its lower-case letter (code + 32), no upper-case letter left, and every other character kept in place. The same lower-casing serves lines 81, 109 and 151. |
| Text.LowerAppend | src/advanced_paris_assistant.py:109 | Lower-casing is character by character: it distributes over concatenation. |
| IntentClassifier.Search | src/advanced_paris_assistant.py:112 | `re.search` for the table's pattern shapes. The empty chain matches any text. A matching chain has each of its pieces in the text, and a matching word pattern has its word in the text. |
| IntentClassifier.ChainContains | src/advanced_paris_assistant.py:103-104 | A `p1.*p2...` pattern that matches has every piece somewhere in the text. |
| IntentClassifier.ChainOfTwo | src/advanced_paris_assistant.py:103-104 | Two pieces found in order make a `p1.*p2` pattern match. |
| IntentClassifier.Patterns | src/advanced_paris_assistant.py:101-106 | The table has four entries, in the order distance, where, mustsee, greet; that order is the tie-break. None of them is labelled general. |
| IntentClassifier.SearchLiteral | src/advanced_paris_assistant.py:102 | A plain-text pattern such as "how far" matches exactly when the text contains it as a substring. |
| IntentClassifier.AnyMatch | src/advanced_paris_assistant.py:111-113 | True exactly when some pattern of the entry's list finds a match. |
| IntentClassifier.FirstEntry | src/advanced_paris_assistant.py:110-114 | None exactly when no entry's patterns match. Otherwise the index of the first entry that matches, with no earlier entry matching. |
| IntentClassifier.Classify | src/advanced_paris_assistant.py:108-114 | Total. General exactly when no pattern of the table matches the lower-cased text. Otherwise the intent of the first matching entry in table order. |
| IntentClassifier.ClassifyCases | src/advanced_paris_assistant.py:101-114 | Tie-break order spelled out for each intent. An intent is chosen exactly when its own patterns match and no earlier entry's do. |
| IntentClassifier.DistanceWins | src/advanced_paris_assistant.py:101-106 | The result is distance exactly when the lower-cased text contains "how far", "distance", "miles" or "kilometers". This holds whatever else the text matches. |
| IntentClassifier.WhereNeedsWhere | src/advanced_paris_assistant.py:103 | A question classified as where always contains "where", which heads every where pattern. |
| IntentClassifier.MustSeeNeedsLouvre | src/advanced_paris_assistant.py:104 | A question classified as must-see always contains "louvre", which ends every must-see pattern. |
| IntentClassifier.GreetNeedsGreeting | src/advanced_paris_assistant.py:105 | A question classified as greet always contains "hi", "hello" or "bonjour". |
| IntentClassifier.ClassifyIgnoresCase | src/advanced_paris_assistant.py:109 | classify(lower(s)) == classify(s). |
| IntentClassifier.ClassifyHowFar | src/advanced_paris_assistant.py:102 | "How far is it in kilometers?" is classified as distance. |
| AnswerRouter.LocalAnswer | src/advanced_paris_assistant.py:148-165 | The three guarded local paths, tried in the code's order. A local answer comes only from a distance, where or must-see question and is never empty. Greet and general questions never get one. |
| AnswerRouter.DistanceAnswer | src/advanced_paris_assistant.py:153-157 | For every question classified as distance there is a local answer. It is the Louvre Museum → Eiffel Tower sentence, whatever places the question names, so this path never falls through. |
| AnswerRouter.LocalAnswerCases | src/advanced_paris_assistant.py:147-165 | A local answer exists exactly for a distance intent, a where intent whose text contains "arc de triomphe", or a mustsee intent whose text contains "louvre". Where and mustsee give their fixed sentences only under the guard. Greet and general always fall through. |
| AnswerRouter.MustSeeAnsweredLocally | src/advanced_paris_assistant.py:162-164 | Every must-see question gets the fixed list of Louvre works: the "louvre" guard never fails. |
| AnswerRouter.WhereEiffelFallsThrough | src/advanced_paris_assistant.py:159-160 | A where-question about the Eiffel Tower with no distance phrase and no "arc de triomphe" is classified as where and still has no local answer. |
| AnswerRouter.Transcript | src/advanced_paris_assistant.py:167-169 | N hand-offs add exactly 2N messages. |
| AnswerRouter.TranscriptAt | src/advanced_paris_assistant.py:167-169 | Hand-off k puts its user question at position 2k and the assistant's reply at 2k+1. |
| AnswerRouter.SeededLog | src/advanced_paris_assistant.py:140-145 | After any number N of hand-offs, including none, the log has 3 + 2N messages and starts with the three seed messages unchanged. |
| AnswerRouter.SeededLogAt | src/advanced_paris_assistant.py:167-169 | Hand-off k's question sits at position 3 + 2k of the log and its reply at 4 + 2k. |
| AnswerRouter.ParisAssistant.constructor | src/advanced_paris_assistant.py:136-145 | The conversation starts as the three-message seed, with no hand-offs, and the invariant holds. |
| AnswerRouter.ParisAssistant.Answer | src/advanced_paris_assistant.py:147-170 | With a local answer: returns it and leaves the conversation unchanged. Otherwise: appends {user: question}, gives the gateway the whole conversation, appends {assistant: reply} and returns the reply. Earlier entries are kept, and the invariant (length 3 + 2 × hand-offs) is preserved. |
| SampleQuestions.HelloThere | src/advanced_paris_assistant.py:105 | "Hello there!" is classified as greet and has no local answer, so it goes to the gateway. |
| SampleQuestions.WhereIsTheEiffelTower | src/advanced_paris_assistant.py:159 | "Where is the Eiffel Tower?" is classified as where but has no local answer, because it does not name the Arc de Triomphe. |
| SampleQuestions.WhereIsTheArcDeTriomphe | src/advanced_paris_assistant.py:159-160 | "Where is the Arc de Triomphe?" is classified as where and answered with the fixed Place Charles de Gaulle sentence. |
| SampleQuestions.WhatAreTheMustSeeWorks | src/advanced_paris_assistant.py:162-164 | "What are the must-see works at the Louvre?" is classified as must-see and answered with the fixed list of five works. |
| SampleQuestions.WhatsTheWeatherLike | src/advanced_paris_assistant.py:108-114 | "What's the weather like?" matches no pattern, is classified as general and has no local answer. |

## Left out

- The haversine distance, the km-to-miles factor, the floor-based minute estimates and the two-decimal formatting (`src/advanced_paris_assistant.py:43-50`, `91-96`) are floating-point work. They are the parameter `measure`, which gives the four figures as text. The symmetry of the distance figures under swapping the two names is therefore not stated.
- The OpenAI client, `ChatClient` (`src/advanced_paris_assistant.py:118-131`), is a network client. It is the function `chat`, fixed when the assistant is constructed. Its failure when no API key is set, its network errors and the `.strip()` of its reply are not modelled: the gateway is a total function of the conversation, and its reply is taken as given. In the code the user message is appended before the gateway is called (line 167). So a gateway that raises leaves one extra user message behind, 4 + 2N entries in all, which is no longer the seed followed by whole hand-offs. The model cannot reach that state.
- `Config` environment lookups and `log` are process environment and console output. The CLI `main`, `wrap` and the asyncio entry point are the terminal read loop.
- Location fields other than the name and coordinates (category, description, opening hours, admission, website, address, tags) are not modelled: routing never reads them.
- Text.Lower: lowers ASCII letters only. Python's `str.lower()` also maps non-ASCII characters, and a few of them (such as the Kelvin sign) map to ASCII letters. Those mappings are not modelled.
- IntentClassifier.Search: `\b` treats only ASCII letters, digits and `_` as word characters, while Python's `\w` also covers non-ASCII letters. `.` is taken to match every character. The real `.` does not match a newline, but the questions come one line at a time from the terminal.
