# SafeSpaceZM study tools — a verified model

SafeSpaceZM is a browser study app for secondary school students. Its AI tools
send a prompt through a small serverless endpoint, `/api/claude`, and turn the
model's reply into something to study. This project models the parts of the app
that have exact behaviour and proves properties about them:

- **Notes simplifier** (`Notes`): the loop in `doSimplify` that splits the reply
  into lines and classifies each trimmed line on its own. The first rule that
  matches wins: `TOPIC:` prefix, then exactly `KEY POINTS:`, then exactly
  `KEY TERMS:`, then a `•` prefix, then a line containing ` — `. Lines that
  match nothing are dropped. If no line is recognised, the raw reply is shown
  with `<br>` for each newline. The output is a sequence of tagged items, not HTML.
- **Bracket-slice extractor and flashcards** (`Extract`): the slice from the
  first `[` to the last `]` that `doFlash` and `doQuiz` hand to `JSON.parse`,
  and the flashcards made from the array found there.
- **Quiz session** (`Quiz`): the score banner, and the state shared by `doQuiz`,
  `ansQ` and `clearQuiz`, as a class `QuizSession`. The state is the counters,
  the explanations, and the cards on screen with their option buttons enabled
  or disabled.
- **Grade tracker** (`Grades`): letter grades, the per-term summary, and a class
  `GradeBook` holding the store as a map from term to rows. `addGrade` does a
  validated, case-insensitive upsert, and the row-click handler deletes a row.
- **The endpoint** (`Http`, `GroqProxy`, `AnthropicProxy`): the two alternative
  deployments of `/api/claude`. One relays to Groq (`claude.js`), the other to
  Anthropic (`api/claude.js`). Each runs the same guard ladder (OPTIONS, method,
  API key, `messages`), builds its upstream payload, and maps the upstream
  result to a response.
- **The browser's call** (`Client`): `callClaude` builds the request and reads
  `content[0].text` from the response. The lemmas here tie the two deployments
  to what the tools receive.

Shared pieces: `Wrappers` (Option, Result), `Json` (JSON values with
JavaScript truthiness and optional-chaining reads), `Text` (the string built-ins
the code uses: `trim`, `indexOf`, `split`, `join`, `replace`, `slice`,
`toLowerCase`, `parseInt`), and `Rounding` (`Math.round(n / d)` on exact ratios).

Things outside the program are inputs or parameters:

- `JSON.parse` is a parameter `parse: string -> Option<Json>`. `None` is the
  SyntaxError it throws.
- The upstream `fetch` result is an input value `Upstream`: a reply with a
  status and a parsed body, or a thrown error with its message.
- What `callClaude` resolved to is an input `reply: Option<string>`. `None` means
  it threw or resolved to something other than a string.
- The API key environment variable is an input `key: Option<string>`.
- The confirm dialog's answer is an input `confirmed: bool`.

The two deployments answer a successful call differently. The Groq one
re-wraps the text as `content[0].text` and gives a 500 when it is empty
(`claude.js:70-78`). The Anthropic one relays the upstream body untouched, with
no check for empty text (`api/claude.js:69`). `GroqProxy.UpstreamAnswer` and
`AnthropicProxy.SuccessRelayed` state the two behaviours.

## Model

| member | source | states |
|---|---|---|
| Text.Trim | js/Script.js:131 | the result has no whitespace at either end, is a slice of the line with only whitespace outside it, and is empty exactly when the line is all whitespace |
| Text.TrimInner | js/Script.js:131 | the slice that trimming keeps starts after the leading whitespace and ends before the trailing whitespace |
| Text.TrimKeepsAbsent | js/Script.js:131 | trimming never creates an occurrence of a pattern the line lacks |
| Text.IndexOf | js/Script.js:141 | the result is the first position where the pattern occurs, or none when it occurs nowhere |
| Text.OccursInSlice | js/Script.js:141-142 | an occurrence inside a slice is an occurrence in the whole string, shifted by the slice's start |
| Text.BeforeFirst | js/Script.js:142 | the text before the first occurrence of a non-empty pattern holds no occurrence of it |
| Text.ReplaceFirst | js/Script.js:134 | `replace` with a string pattern changes nothing when the pattern is absent, and swaps a leading occurrence for the replacement |
| Text.Split | js/Script.js:130 | split always gives at least one piece, and at least two when the separator occurs |
| Text.JoinSplit | js/Script.js:130 | joining the pieces of a split with the same separator gives the original string back |
| Text.SplitJoin | js/Script.js:130 | splitting a join on a one-character separator that no part contains gives the parts back |
| Text.LineBreaksToBr | js/Script.js:147 | the fallback output has no newline left, and a reply without newlines is shown unchanged |
| Text.LineBreakIsBr | js/Script.js:147 | a lone newline becomes one `<br>` |
| Text.LineBreaksToBrJoin | js/Script.js:147 | replacing every newline is the same as splitting on newlines and joining with `<br>` |
| Text.LineBreaksToBrAppend | js/Script.js:147 | the newline replacement distributes over concatenation |
| Text.FirstIndexOfChar | js/Script.js:199 | `indexOf('[')`: -1 exactly when there is no `[`, otherwise the position of a `[` with none before it |
| Text.LastIndexOfChar | js/Script.js:200 | `lastIndexOf(']')`: -1 exactly when there is no `]`, otherwise the position of a `]` with none after it |
| Text.FirstIndexOfCharAt | js/Script.js:199 | a `[` with no `[` before it is the one `indexOf` finds |
| Text.LastIndexOfCharAt | js/Script.js:200 | a `]` with no `]` after it is the one `lastIndexOf` finds |
| Text.Slice | js/Script.js:202 | `slice(start, end)` is the substring between the two positions, and empty when end is not after start |
| Text.ToLower | js/Script.js:416 | lower-casing keeps the length and folds each ASCII capital to its small letter |
| Text.ParseInt | js/Script.js:411 | a string with no digit at all parses to NaN; otherwise leading whitespace is skipped and the rest is read by ParseSigned, whose sign handling ParseIntPlus and ParseIntMinus state |
| Text.ParseSigned | js/Script.js:411 | after the whitespace, a string with no digit at all is NaN; MinusDigits and PlusDigits state what a leading sign does |
| Text.ParseUnsigned | js/Script.js:411 | after the sign, a string with no digit at all is NaN; ParseIntHex states the `0x` prefix |
| Text.MinusDigits | js/Script.js:411 | a `-` before the digits negates the number read after it |
| Text.PlusDigits | js/Script.js:411 | a `+` before the digits is skipped |
| Text.AfterSpaces | js/Script.js:411 | leading whitespace never changes what `parseInt` reads |
| Text.ParseIntUnsigned | js/Script.js:411 | leading whitespace and then a decimal read as that number, whatever non-digit text follows |
| Text.ParseIntPlus | js/Script.js:411 | leading whitespace, `+` and then a decimal read as that number |
| Text.ParseIntMinus | js/Script.js:411 | leading whitespace, `-` and then a decimal read as its negation |
| Text.ParseIntNegative | js/Script.js:411 | `"-5"`-style text reads as the negative number |
| Text.ParseIntHex | js/Script.js:411 | a `0x` or `0X` prefix reads the digits after it in base 16 (`"0x1F"` is 31, `" 0X10"` is 16) |
| Text.ParseIntDecimal | js/Script.js:411 | `parseInt` reads back the decimal digits of every whole number |
| Text.ParseIntDecimalPrefix | js/Script.js:411 | a whole number's digits followed by any non-digit text parse to that number, so trailing text is ignored |
| Notes.Classify | js/Script.js:131-144 | blank lines give nothing; a `TOPIC:` line is a topic even when it contains ` — `; the two exact headers come next, then the bullet mark, then the separator; a line is dropped exactly when no rule matches |
| Notes.TopicName | js/Script.js:133-134 | the topic is the line after its `TOPIC:` prefix, trimmed |
| Notes.BulletPoint | js/Script.js:139-140 | the bullet text is the line minus its first character, trimmed |
| Notes.TermLine | js/Script.js:141-143 | the term is the trimmed text before the first ` — `, and the definition the trimmed text between the first and the second |
| Notes.TermFields | js/Script.js:141-143 | a term line's two fields are trimmed and contain no ` — ` |
| Notes.Items | js/Script.js:130-145 | no more items than lines, and every item is what some line of the reply classifies to |
| Notes.CollectFrom | js/Script.js:130-145 | the loop emits at most one item per line, each the classification of one of the lines |
| Notes.CollectEmpty | js/Script.js:130-147 | the loop emits nothing exactly when no line is recognised |
| Notes.SimplifyNotes | js/Script.js:129-147 | the loop's result is the items of the reply's lines in line order, or the raw fallback when there are none |
| Notes.ItemsAppend | js/Script.js:130-145 | lines are classified independently: the items of two blocks of lines are the two blocks' items concatenated |
| Notes.DroppedLine | js/Script.js:131-132 | a blank or unrecognised line contributes nothing wherever it stands |
| Notes.KeptLine | js/Script.js:133-144 | a recognised line contributes its item at its own place in the order |
| Notes.Parse | js/Script.js:129-147 | the raw reply with `<br>` for each newline is shown exactly when no line is recognised; otherwise the items of the reply's lines |
| Notes.ClassifyTopicLine | js/Script.js:133-134 | a line `TOPIC: name` with a clean name is read as that topic |
| Notes.ClassifyBulletLine | js/Script.js:139-140 | a line `• point` with a clean point is read as that bullet |
| Notes.ClassifyHeaders | js/Script.js:135-138 | the two header lines are read as the two headers |
| Notes.ClassifyTermLine | js/Script.js:141-143 | a line `term — definition` with dash-free clean fields is read as that term, not as a topic or bullet |
| Notes.ClassifyRendered | js/Script.js:133-144 | every well-formed item, written in the prompted line format, classifies back to itself |
| Notes.RenderThenParse | js/Script.js:129-147 | parsing a reply written in the prompted format gives back exactly the items it was written from |
| Notes.SampleReply | js/Script.js:129-145 | a five-line reply with one line of each kind is read as its five items |
| Extract.Candidate | js/Script.js:199-201 | there is no candidate exactly when the reply lacks a `[` or a `]` |
| Extract.ExtractArray | js/Script.js:199-203 | a missing bracket, a parse failure, and a value that is not a non-empty array are the three errors, each exactly when it applies; success yields the parsed non-empty array |
| Extract.CandidateShape | js/Script.js:199-202 | a non-empty candidate starts with `[` and ends with `]`, with no `[` before it and no `]` after it in the reply |
| Extract.CandidateOfWrapped | js/Script.js:199-202 | a bracketed block with no `[` before it and no `]` after it is the candidate, whatever prose surrounds it |
| Extract.CandidateEmpty | js/Script.js:202 | the candidate is empty exactly when the last `]` comes before the first `[` |
| Extract.ReversedBrackets | js/Script.js:202 | reversed brackets give the parse error of `JSON.parse("")` |
| Extract.ExtractIgnoresChatter | js/Script.js:271-275 | the outcome depends only on the bracketed block, not on the text around it |
| Extract.Flash | js/Script.js:176-222 | blank notes ask for notes; cards appear exactly when the call succeeded, the array was found and no card is null; there is one card per element, with its `q` and `a` |
| Extract.FlashExample | js/Script.js:199-205 | a one-card array between chatter gives exactly that card |
| Rounding.RoundDiv | js/Script.js:311 | the result is within one half of n / d, with halves rounded up |
| Rounding.RoundDivUnique | js/Script.js:311 | exactly one whole number meets the rounding condition |
| Rounding.RoundDivWhole | js/Script.js:311 | a whole ratio is its own rounding |
| Rounding.RoundDivBetween | js/Script.js:382 | a ratio between two whole bounds rounds to a number between them |
| Rounding.RoundDivMonotone | js/Script.js:382 | a larger numerator never rounds lower |
| Quiz.Percent | js/Script.js:311 | the percentage is the whole number nearest to 100 · correct / total, with halves rounded up |
| Quiz.PercentRange | js/Script.js:311 | a quiz percentage lies in 0..100 |
| Quiz.TierOf | js/Script.js:314 | 80 and up is the top tier, 60..79 the middle one, and below 60 the bottom one |
| Quiz.ScoreOf | js/Script.js:310-314 | the banner carries correct, total, the rounded percentage and its tier; what the percentage and the tier mean is stated by Quiz.Percent, Quiz.TierOf and the threshold lemmas |
| Quiz.TierMonotone | js/Script.js:314 | a higher percentage never earns a lower tier |
| Quiz.ScoreMonotone | js/Script.js:311-314 | one more right answer never lowers the percentage or the tier |
| Quiz.ExcellentThreshold | js/Script.js:311-314 | the top tier is reached exactly when correct / total is at least 79.5% |
| Quiz.GoodEffortThreshold | js/Script.js:311-314 | the middle tier or better is reached exactly when correct / total is at least 59.5% |
| Quiz.ScoreExamples | js/Script.js:311-314 | 4/5 scores 80% in the top tier, 3/5 60% in the middle, 2/5 40% in the bottom |
| Quiz.PerfectScore | js/Script.js:311-314 | all answers right scores 100% in the top tier |
| Quiz.CountBounds | js/Script.js:304-306 | right answers are answers, and no card is answered more than once |
| Quiz.AllAnswered | js/Script.js:310 | the answered count equals the number of cards exactly when every card is answered |
| Quiz.MarkCounts | js/Script.js:304-306 | answering an open card adds one answer, and one right answer exactly when the choice is correct |
| Quiz.CountsOfOpen | js/Script.js:280-288 | freshly rendered cards count no answers |
| Quiz.Explanation | js/Script.js:278 | the stored explanation is the question's own `exp` when that is truthy, and the empty string otherwise |
| Quiz.KeyOf | js/Script.js:284 | a card's correct index is the whole number in its `c` field, and every whole number there is the index |
| Quiz.CardOf | js/Script.js:283-285 | a card is rendered exactly when the question's `o` is an array, with one button per option, all open |
| Quiz.Generate | js/Script.js:271-292 | cards appear exactly when the array is found, no question is null and every question renders; then there is one card and one explanation per question; the total is set whenever the array is found |
| Quiz.SessionBounds | js/Script.js:304-310 | in every valid state correct ≤ answered ≤ total, and the score is due exactly when every card is answered |
| Quiz.QuizSession.constructor | js/Script.js:241 | the page starts with zero counters, no explanations and no cards |
| Quiz.QuizSession.StartQuiz | js/Script.js:243-258 | a blank topic changes nothing; otherwise answered, correct and total become 0, the explanations and cards are cleared, and a request is pending |
| Quiz.QuizSession.FinishQuiz | js/Script.js:260-299 | the total, explanations and cards become what the reply generates, with the counters still 0 |
| Quiz.QuizSession.ClearQuiz | js/Script.js:319-324 | answered, correct and total become 0 and the explanations and cards are cleared |
| Quiz.QuizSession.Answer | js/Script.js:302-317 | a click on an open option adds one to answered and one to correct exactly when it is the right option, and disables the card; a wrong click whose correct index has no button throws; otherwise it shows the truthy explanation, and shows the score exactly when answered reaches total |
| Grades.ScoreToGrade | js/Script.js:358 | A covers 80 and up, B 65..79, C 50..64 and D below 50 |
| Grades.GradeMonotone | js/Script.js:358 | a higher score never earns a lower letter |
| Grades.CountAtLeast | js/Script.js:384 | the number of rows at or above the threshold; what it counts is stated by Grades.CountsCharacterised and Grades.SummaryAppend, its own contract only bounds it by the row count |
| Grades.CountBelow | js/Script.js:385 | the number of rows below the threshold; what it counts is stated by Grades.CountsCharacterised and Grades.SummaryAppend, its own contract only bounds it by the row count |
| Grades.CountsCharacterised | js/Script.js:384-385 | the "at least" count is 0 exactly when every score is below the threshold and the full length exactly when none is; the two counts together cover every row |
| Grades.SummaryAppend | js/Script.js:382-385 | the score sum and both counts add up over two blocks of rows |
| Grades.SumBounds | js/Script.js:382 | the sum of the scores lies between the row count times the lowest and times the highest allowed score |
| Grades.Summarise | js/Script.js:374-385 | an empty term has no figures; otherwise the average is the rounded mean score, and the two counts are the rows at 80 or more and below 65 |
| Grades.AverageBetween | js/Script.js:382 | the average lies between the lowest and highest possible score, so in 0..100 for valid rows |
| Grades.AverageInRange | js/Script.js:382 | a non-empty term with scores in 0..100 averages in 0..100 |
| Grades.CountsMatchLetters | js/Script.js:384-385 | the "A" figure counts the rows graded A, the "to improve" figure those graded C or D, and every row has one letter |
| Grades.CountsDisjoint | js/Script.js:384-385 | no row is in both counts |
| Grades.Validate | js/Script.js:410-414 | an empty trimmed subject is refused first, then a score that is not a whole number in 0..100; an accepted row holds the trimmed subject and the parsed score |
| Grades.NegativeScoreRefused | js/Script.js:411-414 | with a subject given, a score typed as `-` and a positive number is refused as out of range |
| Grades.ScoreTextAccepted | js/Script.js:411-414 | with a subject given, a score of 0..100 typed with leading whitespace, an optional `+` and trailing non-digit text is accepted as that whole number |
| Grades.WithoutSubject | js/Script.js:416 | the filtered rows come from the term and none shares the subject, ignoring case |
| Grades.WithoutSubjectAppend | js/Script.js:416 | the filter works row by row, so other rows keep their order |
| Grades.WithoutSubjectKeeps | js/Script.js:416 | every row of another subject survives the filter |
| Grades.WithoutAbsentSubject | js/Script.js:416 | with no row of that subject the filter changes nothing |
| Grades.Upsert | js/Script.js:416-417 | the new row is last |
| Grades.UpsertSpec | js/Script.js:416-417 | after the upsert only the new row has the subject; every row of another subject stays; no other row comes in |
| Grades.UpsertReplaces | js/Script.js:416-417 | replacing a subject's row keeps the rows before and after it in order and puts the new row last |
| Grades.UpsertAppends | js/Script.js:416-417 | a new subject is appended after the unchanged rows |
| Grades.UpsertIdempotent | js/Script.js:416-417 | adding the same row twice is the same as adding it once |
| Grades.WithoutSubjectDistinct | js/Script.js:416 | filtering keeps subjects distinct |
| Grades.UpsertDistinct | js/Script.js:416-417 | the upsert keeps each term to one row per subject |
| Grades.Remove | js/Script.js:400 | `splice(i, 1)` removes exactly the row at i and shifts the later rows down; past the end it changes nothing |
| Grades.RemoveDistinct | js/Script.js:400 | deleting keeps subjects distinct |
| Grades.RemoveWithin | js/Script.js:400 | deleting keeps scores in range |
| Grades.DefaultsValid | js/Script.js:332-351 | the default store has scores in 0..100 and one row per subject in each term |
| Grades.DefaultSummaries | js/Script.js:332-351 | the default terms summarise to 81% with 4 A's and 1 to improve, 78% with 3 and 0, and 88% with 6 and 0 |
| Grades.GradeBook.constructor | js/Script.js:353-356 | a first visit starts from the default grades |
| Grades.GradeBook.TermSummary | js/Script.js:369 | a term with no entry shows as empty; otherwise the term's summary, whose average lies in 0..100 in every valid state |
| Grades.GradeBook.AddGrade | js/Script.js:409-418 | a refused input or a missing term leaves the store unchanged; otherwise only that term changes, to the upsert of the new row |
| Grades.GradeBook.Delete | js/Script.js:397-403 | after confirmation the term loses exactly the row at the index; a declined dialog, a missing term or an index past the end changes nothing |
| Http.Failure | claude.js:24 | an error response carries its status and `error.message` |
| Http.Guards | claude.js:20-39 | OPTIONS gets an empty 200; any other method but POST gets 405; a missing key gets 500; a body without a non-empty `messages` array gets 400; the request goes on exactly when POST, key and messages are all present |
| Http.KeyBeforeBody | claude.js:28-39 | with no key the body makes no difference to the guards |
| Http.GuardsIgnoreKeyValue | claude.js:28-29 | only whether a key is set matters to the guards |
| GroqProxy.ChatMessages | claude.js:51-54 | the browser's messages in order, after one system message exactly when `system` is truthy |
| GroqProxy.Payload | claude.js:49-57 | the body sent to Groq has exactly the model, the spliced messages, `max_tokens` 1024 and `temperature` 0.7 |
| GroqProxy.Route | claude.js:15-58 | the request is answered by the guards, or forwarded to the Groq URL with the bearer key and the payload |
| GroqProxy.OptionsFirst | claude.js:20 | a preflight gets an empty 200 whatever else the request holds |
| GroqProxy.OtherMethodsRefused | claude.js:23-25 | any method other than POST or OPTIONS gets 405 |
| GroqProxy.MissingKey | claude.js:28-33 | with no `GROQ_API_KEY` every POST gets the same 500, whatever its body |
| GroqProxy.MissingMessagesRefused | claude.js:36-39 | an absent, non-array or empty `messages` gets 400 |
| GroqProxy.UpstreamOnlyAfterGuards | claude.js:20-60 | Groq is called exactly when every guard passes; otherwise its result makes no difference |
| GroqProxy.KeyValueUnseen | claude.js:47 | the key's value never changes the response |
| GroqProxy.UpstreamErrorPassedOn | claude.js:62-67 | a failing upstream's status is passed on, with Groq's message, or `Groq API error.` when that is missing |
| GroqProxy.UpstreamAnswer | claude.js:70-78 | a successful upstream gives 200 with `content[0].text` set to the first choice's content, or 500 `Empty response from Groq.` when that is empty |
| GroqProxy.ThrownError | claude.js:80-85 | a thrown error gives 500 with the message prefixed `Failed to reach Groq API: ` |
| GroqProxy.GuardFailures | claude.js:23-39 | every guard refusal has an error status and a non-empty message |
| GroqProxy.ReplyText | claude.js:70 | no `choices` or an empty `choices` reads as no text, and any text read comes from a first choice with a `message` |
| GroqProxy.FirstChoiceRead | claude.js:70 | the first choice's `message.content` is the text read, whatever else the reply holds |
| GroqProxy.Complete | claude.js:60-85 | once Groq is called, the response succeeds exactly when Groq answered successfully with a non-empty first choice, and every failure carries a non-empty message |
| GroqProxy.Handle | claude.js:15-86 | a refusing guard's answer is the response; otherwise the response is what the Groq call comes to |
| GroqProxy.SuccessShape | claude.js:15-86 | apart from the preflight, a response succeeds exactly when Groq answered with a non-empty first choice, and every other response carries a non-empty message |
| GroqProxy.SystemSpliced | claude.js:51-54 | a request with a system prompt is sent that prompt first and then the conversation |
| AnthropicProxy.MaxTokens | api/claude.js:35 | `max_tokens` is the body's own value when present, and 1024 otherwise |
| AnthropicProxy.Payload | api/claude.js:41-46 | the payload has the model, `max_tokens` and the messages verbatim, and `system` exactly when it is a non-empty string |
| AnthropicProxy.Headers | api/claude.js:52-56 | the key travels only in `x-api-key`, next to the JSON content type and the pinned `anthropic-version` |
| AnthropicProxy.Route | api/claude.js:15-58 | the request is answered by the guards, or forwarded to the Anthropic URL with the key header and the payload |
| AnthropicProxy.OptionsFirst | api/claude.js:20 | a preflight gets an empty 200 whatever else the request holds |
| AnthropicProxy.OtherMethodsRefused | api/claude.js:23-25 | any method other than POST or OPTIONS gets 405 |
| AnthropicProxy.MissingKey | api/claude.js:28-32 | with no `ANTHROPIC_API_KEY` every POST gets the same 500, whatever its body |
| AnthropicProxy.MissingMessagesRefused | api/claude.js:35-38 | an absent, non-array or empty `messages` gets 400 |
| AnthropicProxy.UpstreamOnlyAfterGuards | api/claude.js:20-60 | Anthropic is called exactly when every guard passes; otherwise its result makes no difference |
| AnthropicProxy.KeyValueUnseen | api/claude.js:54 | the key's value never changes the response |
| AnthropicProxy.UpstreamError | api/claude.js:65 | the error is Anthropic's own truthy `error`, and otherwise an object whose message is `Upstream API error.` |
| AnthropicProxy.Complete | api/claude.js:60-76 | once Anthropic is called, the response succeeds exactly when Anthropic answered successfully, and then it is a 200 carrying Anthropic's body |
| AnthropicProxy.Handle | api/claude.js:15-77 | a refusing guard's answer is the response; otherwise the response is what the Anthropic call comes to |
| AnthropicProxy.UpstreamErrorPassedOn | api/claude.js:62-67 | a failing upstream's status is passed on, with its own `error` object, or `{message: 'Upstream API error.'}` when that is missing |
| AnthropicProxy.SuccessRelayed | api/claude.js:69 | a successful upstream body is relayed untouched with 200 |
| AnthropicProxy.ThrownError | api/claude.js:71-76 | a thrown error gives 500 with the message prefixed `Failed to reach Anthropic API: ` |
| Client.ClientRequest | js/Script.js:72-79 | the browser always POSTs a body with a non-empty `messages` array |
| Client.Index0 | js/Script.js:82 | `content[0]` is an array's first element, an object's field "0", a non-empty string's first character, and undefined for anything else |
| Client.CallClaude | js/Script.js:80-82 | an empty or null body rejects without a message; a failing status rejects with the truthy `error.message` or `API error`; a successful status resolves exactly when `content[0]` exists and is not null, with its `text` |
| Client.ReplyText | js/Script.js:82 | the tools get a text exactly when `callClaude` resolved to a string, and then that string |
| Client.ClientRequestForwarded | js/Script.js:72-79 | once a key is set, either deployment forwards the browser's request |
| Client.GroqConversation | js/Script.js:77 | Groq is sent the system prompt and then the one user message |
| Client.WrappedRead | js/Script.js:82 | the Groq deployment's wrapper is read back as its text |
| Client.GroqTextReachesClient | js/Script.js:82 | Groq's non-empty first choice is exactly the text the tools receive |
| Client.AnthropicTextReachesClient | js/Script.js:82 | behind the Anthropic deployment the tools receive `content[0].text` of Anthropic's own reply |
| Client.GroqFailuresReject | js/Script.js:81 | every failure of the Groq deployment rejects `callClaude` with the message the proxy sent |
| Client.GuardRefusalsReject | js/Script.js:81 | a guard's refusal rejects `callClaude` with the guard's message, behind either deployment |

## Left out

- DOM work is not modelled: HTML building, `innerHTML`, event listeners, toasts, loaders, button labels, scrolling, copy to clipboard, navigation and the term tabs (`switchTerm`, `currentTerm`, js/Script.js:360-366 and 421-423). The model keeps only the state the logic reads: cards, their open or disabled buttons, and grade rows.
- The network is not modelled. `fetch` in `callClaude` and in both proxies becomes an input value. Response headers (CORS), `console.error` logging and the upstream request's `JSON.stringify` are left out.
- `JSON.parse` is an abstract parameter, not a JSON parser.
- `localStorage` is not modelled. The grade store lives in memory, starting from `DEFAULT_GRADES`. A stored value that is not the expected shape is not modelled.
- Floating point is not modelled. `Math.round` on `correct / total * 100` and on the grade mean uses exact rationals with halves rounded up. A float rounding error at an exact half is not captured.
- Unicode is reduced to ASCII. `trim` strips ASCII whitespace only, and `toLowerCase` folds ASCII letters only.
- The topic string of `doQuiz` is only checked for blankness. The question count (`parseInt(...) || 8`) and the fixed prompt texts go into the request's wording only, so they are not modelled.
- The `doSimplify` input guard (`raw.length < 40`, js/Script.js:91) is not modelled. It decides only whether a request is sent. The model starts from the reply text.
- Quiz.KeyOf: a `c` field that is a string, an array or an object is treated like any other non-number, as an index no button matches. In the browser the value's text form is pasted into the `onclick` handler and evaluated there. So `"1"` and `[1]` would act as 1, and a longer array such as `[1, 2]` shifts the later arguments. `[]` and `{}` make the handler a SyntaxError, and other text either throws before `ansQ` runs, so the click does nothing, or evaluates to a value that equals no button index (`"true"`, `"null"`), which is what the model does with no key: a wrong answer is counted and then `opts[c]` throws.
- Quiz.QuizSession.StartQuiz: a second start while a request is pending is refused, because the generate button is disabled during the request.
- Client.Index0: for a string `content`, `content[0]` is taken as its first character; UTF-16 code units are not modelled.
- GroqProxy.NullData and AnthropicProxy.NullData: the TypeError text for reading `error` of a `null` body is the one V8 uses. Other engines word it differently.
- Donations, the videos list, the admin password checks, `quotes.js` and `js/script.js` are not part of this model. They are storage and display code with no logic beyond it.
