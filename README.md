# youtube-learning-platform: a Dafny model of its core

The application turns a topic into a five-module syllabus of YouTube videos. It
loads the transcript of the selected video and lets a student ask an AI tutor
about it. This project models the logic the application itself owns:

- **LearningStore** (`learning_store.dfy`): the shared client store, with six
  nullable fields and five setters. The pure `StoreState`/`Apply`/`Run` are the
  specification. `class Store` is the mutable object the panels share, and each
  setter is proved to move it exactly as `Apply` says. The proved properties are
  frame conditions, idempotence, the `selectedModuleId` mirror invariant, and
  that selecting a module clears the transcript.
- **Timestamps** (`timestamps.dfy`): the global scan of a reply with
  `/(\d{1,2}:\d{2})/g` under ECMAScript RegExp semantics (ECMA-262, section
  22.2). The model gives leftmost matches, greedy `{1,2}` with backtracking, and
  no overlap. The scan is proved to be the unique sequence of such matches.
  Each match becomes a `{ text: "At " + token, seconds }` reference.
- **TutorRoute** (`tutor_route.dfy`): `POST /api/tutor`. It covers the
  validation ladder (400, then a missing key, then the upstream call), the
  exact prompt text, the fallback answer and the timestamp references.
- **TranscriptRoute** (`transcript_route.dfy`): `POST /api/get-transcript`. It
  covers the video-id RegExp (leftmost marker that is followed by an id
  character, then the greedy id run), the millisecond-to-second conversion,
  `full_text` as a join with single spaces, and the 400/404/500 branches.
- **SyllabusRoute** (`syllabus_route.dfy`): `POST /api/generate-syllabus`. It
  covers topic validation with `trim`, the key check, and the parse chain:
  a direct `JSON.parse` first, then the lazy `` ```json\n…\n``` `` block, then
  a parse error. It ends with the `generated_at` stamp.
- **TranscriptPanel** (`transcript_panel.dfy`): `formatTime` over exact reals.
  It also covers the panel's load state machine, its render precedence and the
  seek on a segment click.
- **ChatPanel** (`chat_panel.dfy`): the append-only message log of
  `handleSubmit` and `handleTimestampClick`, which parses a given string and
  seeks the video. The proofs show that, on a reply text, the parse gives the
  seconds of the tutor route's first reference. On a `formatTime` label it
  gives the labelled time modulo 100 minutes.
- **TopicInput** (`topic_input.dfy`): the submit transition of the topic form
  on its loading flag and on the store's `error` and `syllabus`.
- **Text**, **Http** and **Wrappers**: JavaScript string helpers
  (`toString`, `padStart`, `trim`, `join`, `split`), JavaScript truthiness,
  and the shapes of requests, upstream outcomes and replies.

Each route handler is a function of its request body, the environment, clock
and parser values it depends on, and the outcome of its one outbound call. It returns the reply together with the
upstream request it would make (`None` when it makes none). Each panel
operation that awaits a `fetch` is split at the `await` into a `Begin…` method
and a `Finish…` method. The fetch outcome is a parameter of `Finish…`. The
`Handle…`/`Load…` method composes the two.

Three behaviours of the code are worth stating plainly:

- The tutor route rejects only an absent or empty question or transcript. A
  whitespace-only one is accepted.
- Selecting a module sets the transcript to null, not to an empty transcript.
- The syllabus route stamps whatever `JSON.parse` returns:
  - an array passes through without the stamp;
  - `null` or a primitive makes the assignment throw, which gives a 500.

## Model

| member | source | states |
|---|---|---|
| LearningStore.ApplyFrame | store/learningStore.ts:48-57 | every setter leaves each key it does not write as it was |
| LearningStore.ApplyWrites | store/learningStore.ts:48-57 | what each setter writes: syllabus and a null error; module, its id and a null transcript; transcript; timestamp; error (null clears) |
| LearningStore.ApplyIdempotent | store/learningStore.ts:48-57 | applying a setter twice with the same argument equals applying it once |
| LearningStore.ApplyKeepsMirror | store/learningStore.ts:49-54 | every setter preserves "selectedModuleId is null iff selectedModule is, else it is the module's id" |
| LearningStore.RunKeepsMirror | store/learningStore.ts:41-57 | any sequence of setter calls preserves the mirror invariant |
| LearningStore.ReachableMirror | store/learningStore.ts:41-57 | the mirror invariant holds in every state reachable from the all-null initial state |
| LearningStore.SelectionClearsTranscript | store/learningStore.ts:49-55 | after setSelectedModule the transcript is null, whatever it was, until setTranscript runs again |
| LearningStore.Store.constructor | store/learningStore.ts:41-47 | the store starts with all six fields null |
| LearningStore.Store.SetSyllabus | store/learningStore.ts:48 | syllabus replaced, error cleared, the other four fields unchanged, invariant kept |
| LearningStore.Store.SetSelectedModule | store/learningStore.ts:49-54 | module and its id set, transcript nulled, syllabus, timestamp and error unchanged |
| LearningStore.Store.SetTranscript | store/learningStore.ts:55 | only the transcript changes |
| LearningStore.Store.SetVideoTimestamp | store/learningStore.ts:56 | only the video timestamp changes |
| LearningStore.Store.SetError | store/learningStore.ts:57 | only the error changes; None clears it |
| LearningStore.Apply | store/learningStore.ts:48-57 | the state after one setter call, computed as the store's `set` of the setter's partial object; its writes, frame and idempotence are the lemmas ApplyWrites, ApplyFrame and ApplyIdempotent |
| Text.Trim | app/api/generate-syllabus/route.ts:11 | `s.trim()` is empty exactly when every character of s is JavaScript whitespace, and otherwise starts and ends with a non-space |
| Text.NatToString | components/TranscriptPanel.tsx:95 | `toString` of a natural: digits only, reads back as n, no leading zero, one digit iff n < 10, two iff 10 <= n < 100 |
| Text.PadStart2 | components/TranscriptPanel.tsx:95 | `padStart(2, '0')`: strings of length 2 or more are unchanged, shorter ones become length 2, end with s and are filled with '0' |
| Text.Join | app/api/get-transcript/route.ts:47 | `Array.prototype.join`; the lemmas JoinSnoc, JoinLength and SplitJoin state its properties |
| Text.Split | app/api/tutor/route.ts:68 | `String.prototype.split` on one character gives at least one part; SplitJoin and Timestamps.SplitToken state what the parts are |
| Text.JoinSnoc | app/api/get-transcript/route.ts:47 | the recursive join agrees with the left-to-right join algorithm: appending a part appends separator and part |
| Text.JoinLength | app/api/get-transcript/route.ts:47 | a join is as long as its parts plus one separator between neighbours |
| Text.SplitJoin | app/api/get-transcript/route.ts:47 | splitting a join on its separator character gives the parts back when no part contains it |
| Timestamps.MatchLen | app/api/tutor/route.ts:65-66 | the length of the match starting at i is 0, 4 or 5 and a match lies inside the text; MatchIsToken says what a match is |
| Timestamps.MatchIsToken | app/api/tutor/route.ts:65-66 | a match at i covers an `m:ss` or `mm:ss` token; an `mm:ss` token at i is matched whole (two minute digits are tried first), and an `m:ss` token at i is matched as four characters |
| Timestamps.Scan | app/api/tutor/route.ts:65-66 | the global scan left to right; ScanIsScan and ScanIsUnique characterise it |
| Timestamps.ScanIsScan | app/api/tutor/route.ts:65-66 | the global scan lists each match at its own start, in order, without overlap, and skips no position where the pattern matches |
| Timestamps.ScanIsUnique | app/api/tutor/route.ts:65-66 | any sequence with those properties is the scan: the global matches are fully determined |
| Timestamps.FirstMatch | components/ChatPanel.tsx:59 | the non-global match is the leftmost position where the pattern matches, or none when no position does |
| Timestamps.SplitToken | app/api/tutor/route.ts:68 | `ts.split(':')` of a matched token is its minute digits and its two second digits |
| Timestamps.TokenSeconds | app/api/tutor/route.ts:68-71 | a token's value is at most 99*60+99 seconds, and at most 9*60+99 with one minute digit; TokenValue gives it exactly |
| Timestamps.TokenValue | app/api/tutor/route.ts:68-71 | a token's seconds are its minutes * 60 plus its seconds, with no check that seconds < 60 |
| Timestamps.Reference | app/api/tutor/route.ts:67-72 | a reference is labelled "At " + the matched text and is worth at most 99*60+99 seconds |
| Timestamps.References | app/api/tutor/route.ts:64-73 | one reference per global match, in reply order, duplicates kept |
| Timestamps.ReferencesExample | app/api/tutor/route.ts:64-73 | "...at 5:30 and 12:05..." gives [("At 5:30", 330), ("At 12:05", 725)] |
| Timestamps.LeftmostExample | app/api/tutor/route.ts:65 | in "123:45" the '1' starts no match even after the greedy minutes backtrack, so the leftmost match is "23:45" |
| TutorRoute.PromptText | app/api/tutor/route.ts:27-44 | the prompt is the instruction, "\n\n", "Video Transcript:\n", the transcript, "\n\nStudent Question: " and the question, each at its place and nothing else |
| TutorRoute.Answer | app/api/tutor/route.ts:57-84 | a thrown call or a non-ok status gives 500 with its message; an answer gives its text or "Unable to generate response.", with the references of that text |
| TutorRoute.Tutor | app/api/tutor/route.ts:7-86 | 400 exactly when question or transcript is absent or empty; then 500 without a key; only then one Gemini call carrying the prompt, temperature 0.7 and 1000 tokens |
| TutorRoute.ChatHistoryIgnored | app/api/tutor/route.ts:9 | two requests differing only in chat_history are handled identically |
| TutorRoute.BlankQuestionAccepted | app/api/tutor/route.ts:11 | any non-empty whitespace-only question passes validation and reaches the upstream call |
| TutorRoute.NoAnswerHasNoReferences | app/api/tutor/route.ts:62-66 | the fallback reply has no timestamp references |
| TutorRoute.EmptyAnswer | app/api/tutor/route.ts:62-78 | an answer without text gives 200 with the fallback reply and no references |
| TranscriptRoute.MarkerAt | app/api/get-transcript/route.ts:20 | the pattern can start at i exactly when one of the two markers stands there followed by an id character, and then it uses that marker |
| TranscriptRoute.RunEnd | app/api/get-transcript/route.ts:20 | the greedy id run is the longest run of `[a-zA-Z0-9_-]` from its start |
| TranscriptRoute.FindId | app/api/get-transcript/route.ts:20 | the match found is the leftmost usable marker, and the id runs greedily after it |
| TranscriptRoute.VideoId | app/api/get-transcript/route.ts:20-28 | the id is non-empty and made of id characters; there is none exactly when no position holds a usable marker |
| TranscriptRoute.VideoIdOfUrl | app/api/get-transcript/route.ts:20 | a non-empty run of id characters right after a marker, with no 'y' before the marker and no id character after the run, is the id returned |
| TranscriptRoute.WatchUrlExample | app/api/get-transcript/route.ts:20 | https://www.youtube.com/watch?v=dQw4w9WgXcQ&t=10 yields dQw4w9WgXcQ |
| TranscriptRoute.ShortUrlExample | app/api/get-transcript/route.ts:20 | https://youtu.be/dQw4w9WgXcQ yields dQw4w9WgXcQ |
| TranscriptRoute.Segments | app/api/get-transcript/route.ts:41-45 | same length and order, text copied, start and duration times 1000 give back the milliseconds |
| TranscriptRoute.ConversionExample | app/api/get-transcript/route.ts:43-44 | an offset of 1500 ms starts at 1.5 s |
| TranscriptRoute.FullText | app/api/get-transcript/route.ts:47 | the segment texts joined by " "; FullTextSplits and FullTextSnoc state its properties |
| TranscriptRoute.FullTextSplits | app/api/get-transcript/route.ts:47 | the full text split on spaces gives the segment texts in order when none contains a space |
| TranscriptRoute.FullTextSnoc | app/api/get-transcript/route.ts:47 | one more segment appends a space and its text to the full text |
| TranscriptRoute.GetTranscript | app/api/get-transcript/route.ts:8-60 | 400 without a URL; 400 without an id, with no fetch; 404 for a null or empty list; 500 with the message when the fetch throws; otherwise 200 with the converted segments and their joined text |
| SyllabusRoute.IndexOf | app/api/generate-syllabus/route.ts:63 | the first occurrence of a pattern at or after a position, or none |
| SyllabusRoute.FindFence | app/api/generate-syllabus/route.ts:63 | the fence starts at the leftmost opener some later closer completes, and the lazy body stops at the first closer |
| SyllabusRoute.FencedBody | app/api/generate-syllabus/route.ts:63-64 | the capture exists exactly when the fence matches; opener, capture and closer stand in the text where the match starts, and the lazy capture holds no closer |
| SyllabusRoute.FenceRoundTrip | app/api/generate-syllabus/route.ts:63-65 | wrapping a text with no "\n```" in the fence and matching gives the text back |
| SyllabusRoute.ParseReply | app/api/generate-syllabus/route.ts:58-69 | direct parse first; only on failure the fenced body; with no fence "Failed to parse syllabus JSON" |
| SyllabusRoute.FencedReplyParsesAsBody | app/api/generate-syllabus/route.ts:59-65 | a fenced reply that is not JSON as a whole parses to what its body parses to |
| SyllabusRoute.Stamp | app/api/generate-syllabus/route.ts:72-74 | an object gets generated_at added or overwritten and keeps every other key; an array is sent unstamped; anything else throws |
| SyllabusRoute.Answer | app/api/generate-syllabus/route.ts:50-80 | a thrown call or non-ok status gives 500 with its message; missing content reads as "{}"; parse failures and stamp failures give 500 |
| SyllabusRoute.GenerateSyllabus | app/api/generate-syllabus/route.ts:7-82 | 400 exactly for an absent or blank topic; then 500 without a key; only then one sonar-pro call with the untrimmed topic, temperature 0.2 and 2000 tokens |
| SyllabusRoute.EmptyContentGivesStampOnly | app/api/generate-syllabus/route.ts:55-72 | an answer without content gives an object holding only generated_at |
| SyllabusRoute.FencedAnswer | app/api/generate-syllabus/route.ts:59-74 | a fenced object reply gives that object stamped |
| SyllabusRoute.UnfencedGarbage | app/api/generate-syllabus/route.ts:59-80 | a reply neither JSON nor fenced gives 500 "Failed to parse syllabus JSON" |
| SyllabusRoute.FencedGarbage | app/api/generate-syllabus/route.ts:63-65 | a fenced block that is not JSON gives 500 with the parser's own message |
| TranscriptPanel.FormatTime | components/TranscriptPanel.tsx:92-96 | `formatTime` with JavaScript's truncating `%`; MinutesAndSeconds, FormatTimeNonNegative, FormatTimeWhole and FormatTimeShape state its properties |
| TranscriptPanel.MinutesAndSeconds | components/TranscriptPanel.tsx:92-96 | for s >= 0 the minutes are natural, the seconds lie in 0..59, and together they give floor(s) |
| TranscriptPanel.FormatTimeNonNegative | components/TranscriptPanel.tsx:92-96 | for s >= 0 the label is the minutes, ':', and exactly two digits reading as the seconds of the minute |
| TranscriptPanel.FormatTimeWhole | components/TranscriptPanel.tsx:92-96 | on whole seconds n the label is n / 60, ':', and n % 60 padded to two digits |
| TranscriptPanel.FormatTimeShape | components/TranscriptPanel.tsx:92-96 | the label of n reads as minutes n / 60 and seconds n % 60 |
| TranscriptPanel.Rows | components/TranscriptPanel.tsx:75-86 | one row per segment, in order, with its formatted start and its text; none without a transcript |
| TranscriptPanel.Panel.Render | components/TranscriptPanel.tsx:43-89 | no module gives the placeholder, then loading, then a non-empty error, then the segment list |
| TranscriptPanel.Panel.constructor | components/TranscriptPanel.tsx:8-9 | not loading, no error |
| TranscriptPanel.Panel.BeginLoad | components/TranscriptPanel.tsx:17-28 | nothing without a module; otherwise loading, error cleared, and the module's video URL sent |
| TranscriptPanel.Panel.FinishLoad | components/TranscriptPanel.tsx:29-40 | success stores the transcript; a non-ok or thrown fetch sets the local error and leaves the store alone; loading ends |
| TranscriptPanel.Panel.LoadTranscript | components/TranscriptPanel.tsx:17-41 | a no-op without a module; otherwise the request, then the store and error by outcome, with loading ended |
| TranscriptPanel.Panel.OnModuleChange | components/TranscriptPanel.tsx:11-15 | loads exactly when the selected module has a non-empty video URL, and then leaves the store, the error and the loading flag as the load's outcome dictates |
| TranscriptPanel.Panel.ClickSegment | components/TranscriptPanel.tsx:78 | clicking a segment sets the video timestamp to its start and changes nothing else |
| ChatPanel.ClickSeconds | components/ChatPanel.tsx:58-62 | `handleTimestampClick`'s parse of a string gives no value exactly when the string holds no match |
| ChatPanel.ClickAgreesWithReferences | components/ChatPanel.tsx:58-63 | the parse of a reply text gives the seconds of the first reference the tutor route reports for it |
| ChatPanel.ClickWholeToken | components/ChatPanel.tsx:59-62 | the parse of a whole `m:ss`/`mm:ss` token gives its minutes * 60 + seconds |
| ChatPanel.ClickFormatTime | components/ChatPanel.tsx:58-63 | the parse of the string formatTime(n) gives n modulo 6000: exact below 100 minutes |
| ChatPanel.ClickPastHundredMinutes | components/ChatPanel.tsx:59-62 | 6000 s is labelled "100:00", and the parse of that string gives 0 |
| ChatPanel.ReplyText | components/ChatPanel.tsx:41-52 | the assistant message is the reply, "Error: Failed to get response", or "Error: " + the thrown message |
| ChatPanel.ExchangeKeepsAlternating | components/ChatPanel.tsx:21-52 | a completed exchange keeps the earlier log and keeps user/assistant alternation |
| ChatPanel.Panel.constructor | components/ChatPanel.tsx:13-15 | empty log, empty input, not loading |
| ChatPanel.Panel.BeginSubmit | components/ChatPanel.tsx:17-35 | nothing for a blank input or no transcript; otherwise one user message with the untrimmed input, input cleared, loading, and the request with the earlier log |
| ChatPanel.Panel.FinishSubmit | components/ChatPanel.tsx:37-55 | exactly one assistant message appended and loading ended |
| ChatPanel.Panel.HandleSubmit | components/ChatPanel.tsx:17-56 | a submit changes nothing or appends one user and one assistant message; alternation is kept |
| ChatPanel.Panel.HandleTimestampClick | components/ChatPanel.tsx:58-65 | the store's timestamp becomes the parsed value of the given string, or the store is untouched with no match |
| TopicInput.Outcome | components/TopicInput.tsx:25-32 | the store write after the request: setSyllabus on success, setError with the message otherwise; SubmitEffect states its effect |
| TopicInput.SubmitEffect | components/TopicInput.tsx:15-32 | success sets the syllabus and no error; failure keeps the syllabus and sets the message; nothing else changes |
| TopicInput.Form.constructor | components/TopicInput.tsx:7-8 | empty topic, not loading |
| TopicInput.Form.BeginSubmit | components/TopicInput.tsx:11-22 | nothing for a blank topic; otherwise loading, store error cleared, untrimmed topic sent |
| TopicInput.Form.FinishSubmit | components/TopicInput.tsx:25-35 | one store write for the outcome, and loading ends |
| TopicInput.Form.HandleSubmit | components/TopicInput.tsx:11-36 | a submit leaves the store as the cleared error followed by the outcome's write, with loading ended |

## Left out

- The outbound services are not executed: the Perplexity chat completion, the
  Gemini call and `YoutubeTranscript.fetchTranscript`. Their URLs, headers and
  JSON bodies are left out too. Each is a parameter: it threw, it was not ok
  with a status text, or it answered.
- `process.env` keys are parameters. The current time from
  `new Date().toISOString()` is the `now` parameter.
- `JSON.parse` is the uninterpreted `Parser` parameter. The JSON grammar,
  object key order and `JSON.stringify` are not modelled.
- The text of the TypeError the runtime throws when stamping `null` or a
  primitive is the `typeError` parameter.
- Request fields that are neither strings nor absent (a number sent as the
  topic, say) are not modelled: request fields are optional strings.
- The throw from `data.candidates[0]` on a Gemini answer without candidates,
  and the one from `data.choices[0]` on a Perplexity answer without choices,
  are not modelled separately. A caller represents each as a `Threw` outcome.
- IEEE double arithmetic is not modelled. Times are exact reals, so NaN,
  Infinity and rounding in `offset / 1000` and in `formatTime` are out of
  scope.
- React is not modelled: setState batching, re-rendering, and stale responses
  overwriting state after a rapid module switch. Each handler is one atomic
  sequential transition.
- No chat click reaches `handleTimestampClick`. The timestamp buttons in chat
  messages call `window.handleTimestampClick`, which no file of the
  repository assigns, so such a click throws a TypeError and seeks nowhere.
  The model states what `handleTimestampClick` does with a given string. The
  click itself, and the browser global it relies on, are left out.
- JSX and markup are not modelled:
  - the HTML-string substitution that makes timestamps clickable in chat
    messages;
  - the chat placeholder and "AI is thinking" rendering.
- The input `onChange` setters only copy keystrokes into `topic` and `input`;
  the model does not include them.
- `console.error` logging is left out.
- components/VideoPlayer.tsx, components/SyllabusView.tsx and app/page.tsx are
  not part of this model. The player's id RegExp is the same as the
  transcript route's.
