# Ava English tutor widget: a Dafny model

A Dafny model of the chat widget of the Ava English tutor. The model covers:

- **Reply parsing.** The tutor is asked to begin every reply with `MISTAKE_DETECTED:` or `NO_MISTAKE:`. The parser classifies replies by that marker. From a correction it takes the English and Russian parts, the corrected text (the first quoted run) and a brief explanation (an ordered chain of regular expressions with a fallback).
- **Request assembly.** The feature's prompt prefix, extended with the recent history, plus the role-tagged conversation contents.
- **Markdown rendering** of messages.
- **Speech capture.** The recogniser's handlers `onstart`, `onresult`, `onerror` and `onend`, the silence timer, and the delayed auto-send of the spoken transcript.
- **Conversation state.** `sendMessage`, `loadChatHistory`, the Enter key, feature switches, the retry reset and the speak-back effect.
- **View rules.** The primary button, disabled controls, the placeholder, the correction controls and the explanation modal.
- **The correction card** (`MistakeFeedback`): its corrective phrase, its fallback and on-demand explanations, and its visibility rules.
- **The sign-up form's** validation chain.
- **The user badge's** display name, initials and dropdown.

Code that only computes, such as parsing, prompts or markdown, is written as functions with lemmas about them. Code that updates state step by step is written as classes:

- the chat session;
- the recogniser;
- the correction card;
- the sign-up form;
- the dropdown menu.

The methods of these classes state their whole new state. So do the voice handlers in `VoiceInput`, which change a session and a recogniser together, except `AutoSendAndSpeak`: it states only what is read aloud. The two loops of the source appear as `while` loops, each proved against a specification function:

- the walk over a recognition event's results;
- the history-row loop.

Outside inputs become parameters:

- the language-model service and the datastore, as outcome datatypes;
- the environment's API key, as a flag;
- the clock and the timers, as arguments;
- the listening flag seen by a handler's closure, as an argument.

An `async` handler is split at its awaits into methods: the part that runs at once (`BeginSend`, `StartExplain`, `Submit`) and the part that runs when the services have answered (`FinishSend`, `FinishExplain`, `SignUpReturned`). A composite method (`SendMessage`, `HandleExplainMistake`, `HandleSubmit`) runs both parts in order.

Files:

- `strings.dfy`: the string operations the source relies on (`trim`, `indexOf`, `split`, `join`, `startsWith`, `includes`, number formatting, ASCII upper case) and an `Option` type.
- `messages.dfy`: messages, markers, features and history rows.
- `explanation_patterns.dfy`: the regular expressions of the parser.
- `response_parser.dfy`: `parseAIResponse`.
- `prompt_builder.dfy`: prompt prefixes and request assembly.
- `markdown.dfy`: `renderMarkdown`.
- `speech_capture.dfy`: grammar hints, result selection, the recogniser.
- `conversation.dfy`: the chat session.
- `voice_input.dfy`: how the recogniser's handlers act on the session.
- `chat_view.dfy`: derived view state.
- `mistake_feedback.dfy`: the correction card.
- `signup_form.dfy`: sign-up.
- `user_profile.dfy`: the badge.

## Model

| member | source | states |
|---|---|---|
| ResponseParser.ParseResponse | src/app/page.tsx:538-615 | A reply always becomes a settled tutor message. It carries a correction exactly when it starts with the mistake marker. |
| ResponseParser.MistakeContent | src/app/page.tsx:544 | The reply with its first mistake marker removed, trimmed. Its properties are stated in `MistakeReply` and `TrimIdempotent`. |
| ResponseParser.EnglishPart | src/app/page.tsx:546-548 | The trimmed text before the first Russian marker. `EnglishHasNoMarker` proves it never holds that marker. |
| ResponseParser.RussianPart | src/app/page.tsx:546-549 | The trimmed piece between the first and second Russian markers, or empty. `MistakeReply` states it. |
| ResponseParser.CorrectedText | src/app/page.tsx:555-556 | The first quoted run of the English part, or empty. `CorrectedIsFirstQuoted` ties it to the leftmost run. |
| ResponseParser.MarkersExclusive | src/app/page.tsx:543-600 | No reply begins with both markers, so the order of the two tests decides nothing. |
| ResponseParser.NoMistakeReply | src/app/page.tsx:600-606 | A reply starting with `NO_MISTAKE:` shows the trimmed rest after that marker. It has no correction. |
| ResponseParser.UnmarkedReply | src/app/page.tsx:607-614 | A reply starting with neither marker is shown exactly as received, without a correction. |
| ResponseParser.LeadingSpaceIsUnmarked | src/app/page.tsx:543 | A marker preceded by a space does not count as a marker, because only a prefix is tested. |
| ResponseParser.MistakeReply | src/app/page.tsx:543-599 | Fields of a mistake reply: the text is the trimmed part before the first Russian marker and never holds that marker. The Russian explanation is the trimmed part between the first and second Russian markers, or empty; anything after a second marker is dropped. The original text is the user's input, a retry is requested, and the id is the supplied one. |
| ResponseParser.EnglishHasNoMarker | src/app/page.tsx:547-548 | The English part never contains `RUSSIAN_EXPLANATION:`. |
| ResponseParser.TrimIdempotent | src/app/page.tsx:544-548 | Trimming the already trimmed content again changes nothing. |
| ResponseParser.CorrectedIsFirstQuoted | src/app/page.tsx:555-556 | The corrected text is empty exactly when the English part has no quoted run. Otherwise it is the capture of the leftmost run; single and double quotes may mix. |
| ResponseParser.ExplanationSkipsRussianPatterns | src/app/page.tsx:562-575 | On a mistake reply, the second and fourth patterns never match. The chain behaves as the first and third patterns alone. |
| ExplanationPatterns.FirstQuotedSpec | src/app/page.tsx:555 | The quoted-run search returns none exactly when no run exists. Otherwise it returns a run that no other run starts before. |
| ExplanationPatterns.QuotedAt | src/app/page.tsx:555 | What a match of the quoted-run expression at one position is: a quote, at least one non-quote character, a quote. |
| ExplanationPatterns.NextQuote | src/app/page.tsx:555 | The first quote at or after a position; none means no quote follows. |
| ExplanationPatterns.QuotedRunAt | src/app/page.tsx:555 | A run found at a position is a match of the quoted-run expression there. |
| ExplanationPatterns.QuotedRunAtComplete | src/app/page.tsx:555 | Every match at a position is the one found: its closing quote is the first quote after the opening one. |
| ExplanationPatterns.FirstQuoteFrom | src/app/page.tsx:555 | The leftmost position from which a quoted run starts. No earlier position starts one, and none means no run at all. |
| ExplanationPatterns.FirstQuoted | src/app/page.tsx:555 | The capture of the leftmost quoted run. `FirstQuotedSpec` states its meaning. |
| ExplanationPatterns.SkipSpaces | src/app/page.tsx:565-566 | A greedy run of white space: everything skipped is a space and the next character is not. |
| ExplanationPatterns.TailAt | src/app/page.tsx:563-566 | What must follow a lazy group: a literal, or a dot, spaces and a literal. |
| ExplanationPatterns.GroupMatch | src/app/page.tsx:563-566 | A capture the lazy group may make (non-empty, no line terminator) with its tail after it. |
| ExplanationPatterns.LazyEndFrom | src/app/page.tsx:563-566 | Growing the lazy group one character at a time finds the shortest capture the tail accepts, or proves there is none. |
| ExplanationPatterns.LazyEnd | src/app/page.tsx:563-566 | The shortest capture of the lazy group that its tail accepts. None means no capture is accepted. |
| ExplanationPatterns.OptDotSpaces | src/app/page.tsx:565-566 | The farthest reach of the optional dot and the spaces, never before the start and never past the end. |
| ExplanationPatterns.Descend | src/app/page.tsx:565-566 | A start it returns lies in the backing-off range and the lazy group matches from it. `DescendHighest` and `DescendNone` state that it is the first start tried that matches. |
| ExplanationPatterns.DescendHighest | src/app/page.tsx:565-566 | When a start is found, no higher start in the range has a lazy group, and the end returned is that group's shortest end. |
| ExplanationPatterns.DescendNone | src/app/page.tsx:565-566 | When nothing is found, no start in the range has a lazy group. |
| ExplanationPatterns.AttemptAt | src/app/page.tsx:562-566 | The match of a pattern anchored at one position, with its groups, in the engine order of trying. |
| ExplanationPatterns.FirstAttemptFrom | src/app/page.tsx:570 | The leftmost start at or after the given one where the pattern matches; None exactly when no such start has a match. |
| ExplanationPatterns.Search | src/app/page.tsx:570 | The match at the leftmost position that has one, every earlier position having none, as `match` returns it. None exactly when no position has a match. |
| ExplanationPatterns.TailText | src/app/page.tsx:563-566 | The literal a pattern ends with. |
| ExplanationPatterns.GroupNeedsTail | src/app/page.tsx:563-566 | A capture with its tail means the text contains the tail literal. |
| ExplanationPatterns.GroupSpan | src/app/page.tsx:562-566 | Where the explanation group of a match lies; that span is a capture the tail accepts. |
| ExplanationPatterns.AttemptNeedsTail | src/app/page.tsx:562-566 | A match at any position means the text contains the tail literal. |
| ExplanationPatterns.FirstMatching | src/app/page.tsx:569-575 | The loop picks the first pattern of the list that has a match, with that match: every earlier pattern has none. It finds none only when no pattern matches, that is, when no position of the text matches any of them (`Search`). |
| ExplanationPatterns.SearchNeedsTail | src/app/page.tsx:570 | A pattern matches only text that contains the literal it ends with. |
| ExplanationPatterns.RussianPatternsNeedMarker | src/app/page.tsx:564-566 | A match of the second or fourth pattern means the text contains the Russian marker. |
| ExplanationPatterns.RussianPatternsNeverMatch | src/app/page.tsx:562-575 | On text without the Russian marker, those two patterns fail. The first match of the chain is then that of the first and third patterns. |
| ExplanationPatterns.MissingCharNoMatch | src/app/page.tsx:562-570 | A pattern never matches a text that lacks one of the characters of its tail literal. |
| ExplanationPatterns.PickAsWritten | src/app/page.tsx:572 | Group 1, else a non-empty group 2, else empty, as the source picks. `QuotedPatternYieldsQuotedText` states what this gives. |
| ExplanationPatterns.Captured | src/app/page.tsx:562-572 | The explanation group: group 2 for the quoted patterns, group 1 otherwise. `QuotedPatternYieldsExplanation` states what this gives. |
| ExplanationPatterns.QuotedPatternYieldsQuotedText | src/app/page.tsx:565-572 | When a quoted pattern matches, the value the source takes (group 1, else group 2) is always a quoted run of the text: the correction, not the explanation. |
| ExplanationPatterns.QuotedPatternYieldsExplanation | src/app/page.tsx:565-566 | The second group of a quoted pattern's match is a span of the text that the pattern's tail follows. |
| ExplanationPatterns.QuotedPatternSample | src/app/page.tsx:565-572 | On `'a' b. Can you try saying it again?` the third pattern captures `a` and `b`. The source takes `a`; the explanation group is `b`. |
| ExplanationPatterns.FirstPatternMissesSample | src/app/page.tsx:563 | On the sample the first pattern has no match at any position: it needs `. ` twice, and the second time right before the question. |
| ExplanationPatterns.SampleMissesFirst | src/app/page.tsx:563 | The first pattern has no match on the sample. |
| ExplanationPatterns.SampleMissesSecond | src/app/page.tsx:564 | The second pattern has no match on the sample, which holds no `R`. |
| ExplanationPatterns.SampleChain | src/app/page.tsx:562-584 | On the sample the whole chain picks the third pattern with groups `a` and `b`. The explanation as written is `a`, the correction itself; the corrected one is `b`. |
| ExplanationPatterns.QuotedMatchExplainsWithQuote | src/app/page.tsx:562-584 | Whenever a quoted pattern is the first of the chain to match, the explanation as written is a quoted run. The corrected explanation is the span between that run and the tail. |
| ExplanationPatterns.ChainPicked | src/app/page.tsx:572-584 | A non-empty pick from the first matching pattern is the explanation, in both the as-written and the corrected chain; the fallback is not consulted. |
| ExplanationPatterns.AfterCorrection | src/app/page.tsx:578 | The piece after the first double-quoted correction, else after the single-quoted one. |
| ExplanationPatterns.FallbackExplanation | src/app/page.tsx:577-583 | When the text after the correction is not empty, the trimmed lazy group before the retry question without its `?`; else empty. |
| ExplanationPatterns.Explanation | src/app/page.tsx:558-584 | The explanation group of the first matching pattern; when that is empty and a correction exists, the fallback. Used by the parser; `QuotedMatchExplainsWithQuote` and `SampleChain` state what it gives. |
| ExplanationPatterns.ExplanationAsWritten | src/app/page.tsx:558-584 | The same with the source pick of group 1 first. `QuotedMatchExplainsWithQuote` and `SampleChain` show it yields the quoted correction. |
| Markdown.LazyClose | src/app/page.tsx:858 | The lazy group `(.*?)` closes at the first delimiter after its start, and only when no line terminator comes before it. |
| Markdown.ReplaceDelimited | src/app/page.tsx:858 | One global replacement of a delimited span: the leftmost match is rewritten and the search goes on with the text after it. `SpanPass`, `BoldPass`, `ItalicPass` and the no-change lemmas state its effect. |
| Markdown.ReplaceNewlines | src/app/page.tsx:858 | The rendered text holds no line feed. Text without line feeds is unchanged. |
| Markdown.RenderMarkdown | src/app/page.tsx:857-860 | No line feed survives rendering. |
| Markdown.NoDelimiterNoChange | src/app/page.tsx:858 | The asterisk replacements leave text without asterisks unchanged. |
| Markdown.PlainTextRendering | src/app/page.tsx:857-860 | Text without asterisks only has its line feeds replaced. Plain one-line text renders as itself. |
| Markdown.BoldPass | src/app/page.tsx:858 | The double-asterisk pass turns `**w**` into `<strong>w</strong>`. |
| Markdown.BoldWord | src/app/page.tsx:857-860 | A one-line word without asterisks between double asterisks renders bold, with no asterisk left. |
| Markdown.NewlinesDistribute | src/app/page.tsx:858 | Replacing line feeds distributes over concatenation, and one line feed becomes `<br />`. |
| Markdown.NoOccurrenceNoChange | src/app/page.tsx:858 | A pass whose delimiter occurs nowhere leaves the text unchanged. |
| Markdown.OccursShift | src/app/page.tsx:858 | The delimiter occurs in a suffix exactly where it occurs, shifted, in the whole text. |
| Markdown.StarlessPrefixCopied | src/app/page.tsx:858 | An asterisk pass copies an asterisk-free prefix and then rewrites what follows as it would alone. |
| Markdown.SpanAtStart | src/app/page.tsx:858 | A match at the start, `d + w + d`, becomes open + w + close, and the pass goes on with the rest. |
| Markdown.SpanPass | src/app/page.tsx:858 | Inside text: an asterisk-free prefix is kept, the leftmost `d + w + d` is rewritten, and the rest is rewritten as it would be alone. This is the global replace's leftmost-match-then-continue behaviour. |
| Markdown.ItalicPass | src/app/page.tsx:858 | The single-asterisk pass turns `*w*` into `<em>w</em>`. |
| Markdown.ItalicWord | src/app/page.tsx:857-860 | A non-empty one-line word without asterisks between single asterisks renders italic: the bold pass finds no `**` in it. |
| Markdown.LazyCloseFinds | src/app/page.tsx:858 | The lazy group stops at the first delimiter when nothing before it blocks. |
| Messages.WithoutTyping | src/app/page.tsx:761 | Filtering leaves no typing placeholder and never adds a message. |
| Messages.WithoutTypingConcat | src/app/page.tsx:761 | Filtering distributes over concatenation. |
| Messages.WithoutTypingKeeps | src/app/page.tsx:770 | Filtering a list without placeholders changes nothing. |
| Messages.UserMessage | src/app/page.tsx:620-621 | The user's message as shown: the sent text, settled, without a correction. |
| Messages.AiMessage | src/app/page.tsx:148-151 | A plain tutor message: settled, without a correction. |
| Messages.NoTyping | src/app/page.tsx:761 | No message of the list is the typing placeholder. |
| PromptBuilder.ProtocolNamesMarkers | src/app/page.tsx:424-444 | The protocol text names each marker and the retry question it is given. |
| PromptBuilder.HeaderNamesMarkers | src/app/page.tsx:425-444 | The shared protocol names all three markers and the retry question. |
| PromptBuilder.PrefixCarriesProtocol | src/app/page.tsx:423-522 | Every feature's prefix contains the whole protocol, and therefore every marker. |
| PromptBuilder.PrefixDistinguishesFeatures | src/app/page.tsx:445-520 | Different features get different prefixes, because the role sentences they open with differ. |
| PromptBuilder.RolesDiffer | src/app/page.tsx:447-509 | Any two role sentences differ at the article or at the speciality. |
| PromptBuilder.ProtocolText | src/app/page.tsx:424-444 | The shared mistake-detection protocol, given the markers and the retry question it names. |
| PromptBuilder.Role | src/app/page.tsx:447-509 | The opening role sentence of each feature. |
| PromptBuilder.Guidance | src/app/page.tsx:451-513 | The heading of each feature guidelines. |
| PromptBuilder.PromptPrefix | src/app/page.tsx:423-522 | The role, the protocol, then the guidance. `PrefixCarriesProtocol` and `PrefixDistinguishesFeatures` state its properties. |
| PromptBuilder.HistoryLine | src/app/page.tsx:677 | One history row as `Student: ` or `Tutor: ` and its content. |
| PromptBuilder.HistoryLines | src/app/page.tsx:676-678 | Each row becomes one `Student:` or `Tutor:` line, in order. |
| PromptBuilder.Recent | src/app/page.tsx:675 | The window is the last ten rows, or all of them when there are fewer. |
| PromptBuilder.WindowIsLastTen | src/app/page.tsx:675 | At most ten rows leave the history unchanged. More than ten give exactly the last ten. |
| PromptBuilder.HistoryText | src/app/page.tsx:675-678 | The last ten rows as lines joined by line feeds. `InstructionWithHistory` states what it holds. |
| PromptBuilder.QuotedInput | src/app/page.tsx:699 | The current input in double quotes after its label. |
| PromptBuilder.Para | src/app/page.tsx:682-701 | Two blocks separated by a blank line. |
| PromptBuilder.ParaHead | src/app/page.tsx:682-701 | A paragraph contains its first block. |
| PromptBuilder.ParaTail | src/app/page.tsx:682-701 | A paragraph contains whatever its rest contains. |
| PromptBuilder.Instruction | src/app/page.tsx:681-706 | The history instruction when history is stored, else the bare prefix. `FirstMessageUsesPrefix` and `InstructionWithHistory` state both cases. |
| PromptBuilder.HistoryBlocks | src/app/page.tsx:686-701 | The blocks after the context heading, in order: history, guidelines, retry note or empty, quoted input, reply instruction. |
| PromptBuilder.FirstMessageUsesPrefix | src/app/page.tsx:703-706 | With no stored history, the instruction is the bare prefix, and the retry flag changes nothing. |
| PromptBuilder.InstructionWithHistory | src/app/page.tsx:681-701 | With history, the instruction holds the prefix and every marker. It holds each of the last ten rows as a line and the quoted current input. When retrying it also holds the retry note. |
| PromptBuilder.InstructionLayout | src/app/page.tsx:682-701 | Laying out the history instruction keeps the prefix, each recent row, the quoted input and the retry note. |
| PromptBuilder.BlocksHoldTheirParts | src/app/page.tsx:682-701 | Blocks joined by blank lines each occur in the result. |
| PromptBuilder.Context | src/app/page.tsx:669-672 | One turn per stored row, in order. |
| PromptBuilder.RecordTurn | src/app/page.tsx:669-672 | A row becomes a `user` turn exactly for user rows, else a `model` turn, with its content. |
| PromptBuilder.Contents | src/app/page.tsx:667-722 | The contents sent. `RequestContents` states them. |
| PromptBuilder.BuildRequest | src/app/page.tsx:663-724 | The request body: the contents and the system instruction for the feature. `FirstMessageUsesPrefix` and `RequestContents` state them. |
| PromptBuilder.RequestContents | src/app/page.tsx:667-722 | With more than one stored row, the contents are every row in order; a role is `user` exactly for user rows. Otherwise the contents are the current input alone. |
| SpeechCapture.Hints | src/app/page.tsx:211-222 | Every feature has a non-empty hint list, and each hint is a non-empty token without the grammar's `;` or the alternative bar, so it stands as one whole alternative. The four lists are those of `getGrammarHints`. |
| SpeechCapture.GrammarText | src/app/page.tsx:229-230 | The JSGF grammar of the hints. `GrammarOffersEveryHint` states what it holds. |
| SpeechCapture.Consider | src/app/page.tsx:265-270 | One alternative of a final result: it becomes the best only with a strictly higher confidence. |
| SpeechCapture.BestAmong | src/app/page.tsx:264-271 | The inner loop over the alternatives. `BestAmongIsMaximum` states its result. |
| SpeechCapture.StepResult | src/app/page.tsx:260-287 | One result of the outer loop: final results append the running best, interim ones their first alternative when confident, and an interim result without alternatives throws. |
| SpeechCapture.ScanAll | src/app/page.tsx:253-288 | The walk over an event, or none once it throws. `WalkResults` computes it; the scan lemmas state its properties. |
| SpeechCapture.GrammarOffersEveryHint | src/app/page.tsx:224-233 | The grammar starts with the JSGF V1.0 header and names every hint of the feature. |
| SpeechCapture.BestAmongIsMaximum | src/app/page.tsx:264-271 | The running best confidence is at least its start value and every defined confidence seen. It either stays as it was or is reached by an alternative whose transcript it keeps. |
| SpeechCapture.InterimLeavesFinalText | src/app/page.tsx:281-287 | An interim result never changes the best confidence, the best transcript or the final text. |
| SpeechCapture.WeakFinalRepeatsBest | src/app/page.tsx:253-280 | The running best is not reset between results. A final result that does not beat it appends the previous best transcript again. |
| SpeechCapture.SecondFinalDropped | src/app/page.tsx:260-293 | Two final results, the second less confident, give the first transcript twice. |
| SpeechCapture.ScanHighestNonNegative | src/app/page.tsx:253-271 | The highest confidence of an event's walk is never negative. |
| SpeechCapture.WalkResults | src/app/page.tsx:260-288 | The handler's two nested loops compute exactly the walk function. That includes throwing on an interim result without alternatives. |
| SpeechCapture.NoneStaysNone | src/app/page.tsx:283 | Once the walk has thrown, later results do not matter. |
| SpeechCapture.ErrorNotice | src/app/page.tsx:322-352 | Only the network, permission and audio errors add a chat notice. |
| SpeechCapture.Recognizer.constructor | src/app/page.tsx:245-248 | The handlers start not listening, with no speech detected and an empty transcript. |
| SpeechCapture.Recognizer.Valid | src/app/page.tsx:247-292 | With no speech detected the transcript is empty. |
| SpeechCapture.Recognizer.OnStart | src/app/page.tsx:236-243 | Listening starts, and the detection state and transcript are reset. |
| SpeechCapture.Recognizer.OnResult | src/app/page.tsx:250-315 | Speech is marked detected at `now` before the walk. If the walk succeeds, the transcript grows by exactly the event's final text, the silence check is re-armed `2500` ms later, and the trimmed interim text is returned when it is not blank. |
| SpeechCapture.Recognizer.SilenceCheck | src/app/page.tsx:302-308 | The check asks to stop exactly when the flag it sees is set, speech was detected and `2000` ms have passed. When it fires unsuperseded, the elapsed-time test always holds. |
| SpeechCapture.Recognizer.OnError | src/app/page.tsx:317-353 | Listening stops. The error's notice is returned, and a restart is scheduled only after `no-speech`. |
| SpeechCapture.Recognizer.OnEnd | src/app/page.tsx:355-362 | Listening stops and the pending silence check is cancelled. |
| SpeechCapture.Recognizer.FlushTranscript | src/app/page.tsx:368-380 | The trimmed transcript is sent exactly when it is not blank and speech was detected. Both fields are reset either way. |
| Conversation.HttpErrorNamesStatus | src/app/page.tsx:727-730 | Different HTTP statuses never give the same error text. |
| Conversation.ErrorMessage | src/app/page.tsx:765-772 | An error notice is a settled tutor message without a correction, and its text starts with `Error: `. |
| Conversation.ServiceDetail | src/app/page.tsx:729 | The service's error message, or `Unknown error` when it gave none or an empty one. |
| Conversation.HttpErrorText | src/app/page.tsx:727-730 | The HTTP failure text with the status and the detail. `HttpErrorNamesStatus` shows it names the status. |
| Conversation.ReplyMessage | src/app/page.tsx:709-772 | The message that replaces the placeholder is always a settled tutor message. |
| Conversation.ReplyMistakeIff | src/app/page.tsx:733-746 | A reply has a correction exactly when the key is set and a non-empty answer starts with the mistake marker. Its correction then names the sent text and the supplied id. |
| Conversation.FailuresAreReported | src/app/page.tsx:709-772 | A missing key, an HTTP error, a thrown error or an empty answer each becomes an `Error: ` notice without a correction. The key is checked first. |
| Conversation.RequestSent | src/app/page.tsx:709-725 | A request is sent exactly when the key is configured. |
| Conversation.HistoryMessages | src/app/page.tsx:121-156 | One message per row, in order, each the message its row becomes. |
| Conversation.PrecedingUserInput | src/app/page.tsx:138-141 | The content of the row before, when that row is the user one, else empty. |
| Conversation.RowMessage | src/app/page.tsx:127-152 | The message of a row has the row sender and is settled. It carries a correction only for a tutor row starting with the mistake marker. |
| Conversation.Restored | src/app/page.tsx:116-170 | What a signed-in load leaves: the messages before on a query error, the greeting on a thrown error or an empty history, else one message per row. |
| Conversation.EnterSends | src/app/page.tsx:789-794 | Enter sends exactly when not sending and the input is not blank. |
| Conversation.TutorRowsAreParsed | src/app/page.tsx:134-152 | Testing a tutor row for a marker before parsing changes nothing: an unmarked row would parse to itself. |
| Conversation.HistoryIsSettled | src/app/page.tsx:125-154 | Restored history holds no typing placeholder. Every restored correction comes from a tutor row starting with the marker, asks for a retry, and names the preceding user row, or nothing. |
| Conversation.ChatSession.constructor | src/app/page.tsx:85-93 | The widget starts with no messages, empty input, nothing in flight, no retry awaited, and free talk. |
| Conversation.ChatSession.Valid | src/app/page.tsx:761 | No typing placeholder outside a send, and an awaited retry names a non-empty id. |
| Conversation.ChatSession.BeginSend | src/app/page.tsx:617-634 | Blank text changes nothing. Otherwise: the user's message is appended; the input is cleared unless speaking automatically; sending starts; a retry clears the awaited mistake. |
| Conversation.ChatSession.FinishSend | src/app/page.tsx:636-775 | The conversation grows by exactly the reply. Sending stops. A detected mistake with an id becomes the awaited retry, and anything else leaves it. The request sent is the one built from the stored history. |
| Conversation.ChatSession.ShowReply | src/app/page.tsx:649-772 | The placeholder appears and is filtered out again, so the conversation grows by exactly the reply. |
| Conversation.ChatSession.SendMessage | src/app/page.tsx:617-776 | Blank text changes nothing. Otherwise: the conversation grows by exactly `[user message, reply]`; no placeholder remains; sending stops; the input follows `autoSpeak`; the awaited retry follows the reply and the retry flag; speaking is requested when asked for. The feature and the history-loading flag stay. |
| Conversation.ChatSession.LoadChatHistory | src/app/page.tsx:104-174 | Without a user, nothing changes. A query error leaves the messages. A thrown error or an empty history gives only the greeting. Otherwise there is one message per row, and loading ends. |
| Conversation.ChatSession.HandleKeyPress | src/app/page.tsx:789-794 | Enter sends exactly when not sending and the input is not blank, as a retry when one is awaited. Then the conversation grows by the message and its reply, the input clears, sending stops, and the awaited retry becomes the new mistake id or nothing. Any other key changes nothing. |
| Conversation.ChatSession.HandleFeatureClick | src/app/page.tsx:796-802 | The feature changes, its history is loaded and the input is cleared. Capture stops when listening. The awaited retry and the speaking request are kept; history loading has ended when signed in. |
| Conversation.ChatSession.HandleRetryAttempt | src/app/page.tsx:778-782 | The input is cleared and no retry is awaited; nothing else changes. |
| Conversation.ChatSession.AddNotice | src/app/page.tsx:324-348 | A speech notice is appended and nothing else changes. |
| Conversation.ChatSession.SpeakIfDue | src/app/page.tsx:413-421 | Speech happens exactly when it is requested and the last message is the tutor's. Then that text is spoken and the request is withdrawn. |
| Conversation.ChatSession.SetInput | src/app/page.tsx:951 | Only the input changes. |
| VoiceInput.ResultArrived | src/app/page.tsx:250-315 | Non-blank interim text replaces the input. The conversation and the awaited retry are untouched. The recogniser state follows the walk: the transcript grows by its final text and the silence check is re-armed, or both stay when the walk throws. |
| VoiceInput.ShownInterim | src/app/page.tsx:310-314 | The trimmed interim text of the walk, when not blank. |
| VoiceInput.ErrorArrived | src/app/page.tsx:317-353 | Listening stops and the error's notice, if any, is appended. A restart is scheduled only after `no-speech`. The recogniser's detection state and transcript are kept. |
| VoiceInput.SessionEnded | src/app/page.tsx:355-365 | Listening stops and the input is cleared at once. The transcript is kept for the auto-send. |
| VoiceInput.VoiceText | src/app/page.tsx:369-370 | The trimmed transcript, when not blank and speech was detected. |
| VoiceInput.AutoSend | src/app/page.tsx:367-380 | The trimmed transcript is sent, if any, with speaking requested and never as a retry. So an awaited retry is only replaced by a new mistake, never cleared. Without a transcript the conversation is untouched. The recogniser is reset either way. |
| VoiceInput.AutoSendAndSpeak | src/app/page.tsx:413-421 | After a voice message, exactly the reply that replaced the placeholder is read aloud. |
| ChatView.ButtonAgreesWithEnter | src/app/page.tsx:862-869 | Outside capture, the button sends exactly when Enter would, with the same text and retry flag. |
| ChatView.PrimaryButtonAction | src/app/page.tsx:862-869 | Stop while listening, else send non-blank input, else start listening. `ButtonAgreesWithEnter` and `ControlsStayUsable` state its properties. |
| ChatView.InputDisabled | src/app/components/ChatInput.tsx:35 | The text field is disabled while sending or listening. |
| ChatView.ButtonDisabled | src/app/components/ChatInput.tsx:45 | The button is disabled only while sending. |
| ChatView.ControlsStayUsable | src/app/components/ChatInput.tsx:35-46 | While listening, the text field is disabled but the button stops capture. An enabled field with non-blank text lets the button send. |
| ChatView.PlaceholderTracksRetry | src/app/page.tsx:953 | In a valid session, the retry placeholder shows exactly when a retry is awaited. |
| ChatView.FeaturePlaceholder | src/app/page.tsx:524-536 | The placeholder hint of each feature. |
| ChatView.Placeholder | src/app/page.tsx:953 | The retry prompt while a truthy id is awaited, else the feature hint. `PlaceholderTracksRetry` states it. |
| ChatView.ExplainButtonShown | src/app/page.tsx:925 | A reply carrying a mistake with a truthy id has the explain button. |
| ChatView.RetryHintShown | src/app/page.tsx:932 | The retry hint shows under the reply whose id is awaited. |
| ChatView.DetectedMistakeAwaitsRetry | src/app/page.tsx:925-938 | A reply with a detected mistake shows the explain button and the retry hint. No hint shows when no retry is awaited. |
| ChatView.FindByMistakeId | src/app/page.tsx:967 | The first message carrying the id, or none when none carries it. |
| ChatView.Body | src/app/page.tsx:981-995 | The Russian text when present, else the English text with a notice, else the "unavailable" suggestion. |
| ChatView.Modal | src/app/page.tsx:962-1009 | Closed exactly when no truthy id is set. With a truthy id, the overlay with its title and close button shows; it holds a mistake's view exactly when some message carries the id, and nothing inside when none does. `ModalShowsFirstCarrier` states which message it shows. |
| ChatView.ModalShowsFirstCarrier | src/app/page.tsx:962-1000 | Opening from an explain button always shows a modal. It explains the first message carrying that id, which may be an earlier one. |
| MistakeFeedback.WordCount | src/app/components/MistakeFeedback.tsx:28-29 | A trimmed text splits into at least one piece. |
| MistakeFeedback.CorrectivePhrase | src/app/components/MistakeFeedback.tsx:25-38 | The phrase is one of the two fixed phrases. |
| MistakeFeedback.CorrectivePhraseSymmetric | src/app/components/MistakeFeedback.tsx:32 | Swapping original and corrected does not change the phrase. |
| MistakeFeedback.WordCountOfWords | src/app/components/MistakeFeedback.tsx:28-29 | `n` words joined by single spaces count as `n`. |
| MistakeFeedback.PhraseByWordCounts | src/app/components/MistakeFeedback.tsx:25-38 | "You mean" exactly when the word counts differ by at most one. |
| MistakeFeedback.SpaceRuns | src/app/components/MistakeFeedback.tsx:28-29 | The number of white-space runs, which split separates at. |
| MistakeFeedback.IsWord | src/app/components/MistakeFeedback.tsx:28-29 | A non-empty piece without white space. |
| MistakeFeedback.SpaceRunsAfterWord | src/app/components/MistakeFeedback.tsx:28-29 | Text without white space put before another adds no white-space run. |
| MistakeFeedback.SpaceRunsAfterSpace | src/app/components/MistakeFeedback.tsx:28-29 | One space put before a text that starts with a non-space character adds one run. |
| MistakeFeedback.JoinedWords | src/app/components/MistakeFeedback.tsx:28-29 | Words joined by single spaces give a text that starts and ends with a non-space character and has one run fewer than words. |
| MistakeFeedback.TrimOfTrimmed | src/app/components/MistakeFeedback.tsx:28-29 | A text that starts and ends with a non-space character is unchanged by trimming. |
| MistakeFeedback.Quoted | src/app/components/MistakeFeedback.tsx:92-99 | A text in double quotes. |
| MistakeFeedback.Slots | src/app/components/MistakeFeedback.tsx:92-99 | A template with texts in its three slots. |
| MistakeFeedback.SlotsInOrder | src/app/components/MistakeFeedback.tsx:92-99 | The three texts of a template occur in it in order. |
| MistakeFeedback.FallbackExplanation | src/app/components/MistakeFeedback.tsx:91-100 | The fallback explanation. `FallbackCarriesInputs` states what it holds. |
| MistakeFeedback.FallbackCarriesInputs | src/app/components/MistakeFeedback.tsx:91-100 | The fallback quotes the original, then the correction, then gives the basic explanation, in that order. It is never empty. |
| MistakeFeedback.DetailRequest | src/app/components/MistakeFeedback.tsx:53-65 | The prompt for a detailed explanation. `DetailRequestCarriesInputs` states what it holds. |
| MistakeFeedback.DetailRequestCarriesInputs | src/app/components/MistakeFeedback.tsx:53-65 | The prompt quotes the original, the correction and the basic explanation, in that order. |
| MistakeFeedback.DetailedExplanation | src/app/components/MistakeFeedback.tsx:51-89 | The service text or the fallback. `DetailedExplanationCases` states which. |
| MistakeFeedback.DetailedExplanationCases | src/app/components/MistakeFeedback.tsx:51-89 | The service text is used exactly when the key is set and a non-empty text came back. Any other outcome gives the fallback, and the result is never empty. |
| MistakeFeedback.Card.constructor | src/app/components/MistakeFeedback.tsx:22-23 | The card starts without detail and not loading. |
| MistakeFeedback.Card.StartExplain | src/app/components/MistakeFeedback.tsx:41-43 | Loading starts exactly when no explanation is stored. Otherwise the detail shows at once. Starting to load leaves a hidden detail hidden, so the button shows and is disabled. |
| MistakeFeedback.Card.FinishExplain | src/app/components/MistakeFeedback.tsx:44-48 | The text goes to the parent, loading stops and the detail shows. |
| MistakeFeedback.Card.HandleExplainMistake | src/app/components/MistakeFeedback.tsx:40-49 | The parent gets the generated explanation once, and only when none was stored. Afterwards the button is gone, the detail box shows the stored or delivered text, and nothing is left loading. |
| MistakeFeedback.RepeatLinesExclusive | src/app/components/MistakeFeedback.tsx:129-139 | The repeat prompt and the success line never show together. |
| MistakeFeedback.ExplainButtonShown | src/app/components/MistakeFeedback.tsx:111 | The explain button shows while the detail is hidden. |
| MistakeFeedback.ExplainButtonDisabled | src/app/components/MistakeFeedback.tsx:114 | The explain button is disabled while loading. |
| MistakeFeedback.DetailBoxShown | src/app/components/MistakeFeedback.tsx:121 | The detail box needs the flag and a non-empty stored explanation. |
| MistakeFeedback.RepeatPromptShown | src/app/components/MistakeFeedback.tsx:129 | The repeat prompt needs a wait for a repeat that has not come. |
| MistakeFeedback.SuccessLineShown | src/app/components/MistakeFeedback.tsx:135 | The success line shows once the user repeated. |
| MistakeFeedback.ExplainFlowReveals | src/app/components/MistakeFeedback.tsx:111-127 | The explanation held after the flow, stored or delivered, is never empty, so a shown detail has its box. |
| SignupForm.ValidationOrder | src/app/components/auth/SignupForm.tsx:24-37 | Each error message is tied to exactly its condition: a missing field first, then a mismatch, then a short password. Validation passes exactly when all three checks pass. |
| SignupForm.Validate | src/app/components/auth/SignupForm.tsx:24-37 | The first failing check message, or none. `ValidationOrder` states it. |
| SignupForm.Form.constructor | src/app/components/auth/SignupForm.tsx:12-17 | Empty fields, no error, not loading. |
| SignupForm.Form.Submit | src/app/components/auth/SignupForm.tsx:20-42 | A failed check sets its message, makes no request and does not start loading. Otherwise the error clears, loading starts, and the request carries the fields, with an empty name left out. |
| SignupForm.Form.SignUpReturned | src/app/components/auth/SignupForm.tsx:44-52 | A failure's message is shown. Success is reported only without failure. Loading stops. |
| SignupForm.Form.HandleSubmit | src/app/components/auth/SignupForm.tsx:20-53 | A failed validation makes no request. A passed one sends the fields and ends with the failure message or no error. Nothing is left loading, and the fields are kept. |
| UserProfile.MailboxName | src/app/components/auth/UserProfile.tsx:34 | The mailbox name is the whole text of the address before its first `@`: a prefix without `@` that is either the whole address or is followed by `@`. |
| UserProfile.MailboxNameSpec | src/app/components/auth/UserProfile.tsx:34 | `split('@')[0]` is a prefix of the address with no `@`, ending at the first `@` or at the end. |
| UserProfile.DisplayName | src/app/components/auth/UserProfile.tsx:34 | The shown name is never empty. |
| UserProfile.DisplayNameFallbacks | src/app/components/auth/UserProfile.tsx:34 | The full name, else the non-empty text of the address before its first `@`, else `User`. |
| UserProfile.FirstLetters | src/app/components/auth/UserProfile.tsx:36-38 | At most one letter per piece. |
| UserProfile.Initials | src/app/components/auth/UserProfile.tsx:35-40 | The initials are at most two characters. |
| UserProfile.Profile | src/app/components/auth/UserProfile.tsx:32-40 | A badge exists exactly when there is a user, with a non-empty name and at most two initials. |
| UserProfile.FirstLettersOfWords | src/app/components/auth/UserProfile.tsx:36-38 | Non-empty pieces give their first characters, in order. |
| UserProfile.FirstLettersSkipEmpty | src/app/components/auth/UserProfile.tsx:37-38 | An empty piece adds no letter. |
| UserProfile.TwoNameInitials | src/app/components/auth/UserProfile.tsx:35-40 | A first and last name give their two upper-cased first letters. |
| UserProfile.SplitDoubledSpace | src/app/components/auth/UserProfile.tsx:36 | A doubled space leaves an empty piece between the names. |
| UserProfile.DoubledSpaceInitials | src/app/components/auth/UserProfile.tsx:35-40 | A doubled space gives the same initials as a single one. |
| UserProfile.NoSpace | src/app/components/auth/UserProfile.tsx:36 | A text without a space. |
| UserProfile.SplitAtSpace | src/app/components/auth/UserProfile.tsx:36 | A space-free word, a space and a rest split into the word followed by the pieces of the rest. |
| UserProfile.SplitNoSpace | src/app/components/auth/UserProfile.tsx:36 | Splitting a text without a space gives it alone. |
| UserProfile.IndexOfFromFinds | src/app/components/auth/UserProfile.tsx:36 | The space search finds the first occurrence of the space. |
| UserProfile.Menu.constructor | src/app/components/auth/UserProfile.tsx:7 | The dropdown starts closed. |
| UserProfile.Menu.Toggle | src/app/components/auth/UserProfile.tsx:45 | The button flips the dropdown. |
| UserProfile.Menu.PressOutside | src/app/components/auth/UserProfile.tsx:11-25 | A press outside closes an open dropdown. A press inside changes nothing. |
| UserProfile.Menu.SignOut | src/app/components/auth/UserProfile.tsx:27-30 | Sign-out always ends with the dropdown closed. |

## Left out

- Datastore reads and writes and the language-model calls are not modelled as I/O. Their results are `SendOutcome`, `LoadResult`, `DetailAnswer` and the sign-up failure. The inserts of `sendMessage` are left out, including a failed insert, which the source ignores.
- Timers and `async` interleaving are left out: the double history load on a feature switch, overlapping text and voice sends, and re-renders between the steps of a handler. The intermediate state with the placeholder visible exists only inside `ShowReply`.
- The closure's stale view of `isListening` is the `listeningSeen` or `listening` argument. Which value it holds is not modelled.
- Mistake ids come from the clock. They are arguments (`mistakeId`, `idAt`), and the model makes no uniqueness claim about them.
- Confidence values are Dafny `real`s. Floating-point behaviour is not modelled.
- The long prompt texts are reduced to named stand-ins that keep what the code relies on: each prefix embeds the shared protocol, which names the markers. The list of points in the detailed-explanation prompt is reduced to its closing line.
- Regular expressions are modelled only for the patterns used, as search functions. General regex semantics is not.
- ASCII only: `toUpperCase` is ASCII upper-casing, and the password length counts characters rather than UTF-16 units.
- Speech synthesis, the microphone permission request in `startListening`, and restarting after `no-speech` are not modelled. The restart is only the returned flag.
- The `alert` on successful sign-up, and the `onSuccess` callback beyond the returned flag, are left out.
- Pure rendering is left out: button icons and titles, headers, feature buttons, the message list and bubbles, and the auth toggles. Their only logic (disabled controls, the primary action) is modelled in `ChatView`.
- `ChatHistory.tsx` is not part of this model (network fetch and locale-dependent dates).
- ResponseParser.ParseResponse: the explanation uses the second group for the quoted patterns (see Findings), not group 1 as written. The as-written `ExplanationAsWritten` is modelled beside it.

## Findings

| source | as written | input that shows it | evidently intended | confidence | as-written member | corrected member |
|---|---|---|---|---|---|---|
| src/app/page.tsx:572 | The explanation is taken as group 1, or group 2 only when group 1 is empty, for every pattern. For the third and fourth patterns group 1 is the non-empty quoted correction, so the explanation becomes the corrected text. | the English part `'a' b. Can you try saying it again?` | For the quoted patterns, the explanation is group 2 (`b`). | not executed | ExplanationPatterns.ExplanationAsWritten (with QuotedPatternYieldsQuotedText, QuotedMatchExplainsWithQuote, QuotedPatternSample, SampleChain) | ExplanationPatterns.Explanation (with Captured, QuotedPatternYieldsExplanation), used by ResponseParser.ParseResponse |
