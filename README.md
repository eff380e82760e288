# EduCore access gateway: verified model of the sign-up logic

This project is a Dafny model of the logic in the EduCore sign-up and
onboarding front end. The model covers five areas.

- **Assistant stream decoder.** The signup assistant's chat panel reads the
  model's answer as a line-based event stream. Each `data: ` payload is
  decoded, the content deltas are accumulated, and the growing answer is
  shown as one assistant message.
- **Assistant panel.** This covers the panel's send guard and its transcript
  updates.
- **Markdown renderer.** The panel uses a small renderer to turn an answer
  into HTML.
- **Sign-up wizard and authentication hook.** The three-page wizard covers the
  phone mask, the teaching-target toggle, the first-page validation, the page
  transitions and the payload. The hook makes the backend requests in a fixed
  order, decides which failures are fatal, fills the profile row, assigns the
  role and picks the toast messages.
- **Dashboard header.** This covers the greeting for the hour, the first name,
  the display name and the profile label.

Modules, one file each:

- `wrappers.dfy`: `Option`, used for `undefined` and `null`.
- `seq_lemmas.dfy`: small facts about sequence concatenation used by the proofs.
- `js_text.dfy`: the JavaScript string built-ins the code relies on (`indexOf`,
  `startsWith`, `endsWith`, `trim`, `includes`, `split`, `join`, `length` in
  UTF-16 code units, number rendering).
- `sse_stream.dfy`: the decoder's line protocol as functions. `Pass` is one
  run of the inner loop and `Feed` is the chunk loop. `Contents`, `Tail` and
  `WellFormed` read a whole stream line by line, and `EmitsOf` gives the sink
  calls of that reading, independently of chunking.
- `ai_assistant.dfy`: the panel state as the class `AssistantPanel`. The
  locals of one `streamChat` call are the class `StreamDecoder`, whose loop
  method `Push` is proved against `SseStream.Pass`.
- `markdown.dfy`: `renderMarkdown`. The lazy `**(.*?)**` and `*(.*?)*`
  regular expressions are written as explicit scanners.
- `auth.dfy`: the decisions of `useAuth`. Every backend answer is a parameter.
- `signup_form.dfy`: the wizard's pure helpers and the class `SignupWizard`.
- `dashboard.dfy`: the header labels.

Two details of the decoder are easy to misread, and the model keeps both:

- **`[DONE]` does not end the stream.** The `break` at AIAssistant.tsx:96
  only leaves the inner loop over the buffer. The outer read loop goes on, so
  the lines after the sentinel are read when the next chunk arrives.
  `SseStream.DoneOnlyDelaysTheRest` proves this.
- **Blank lines.** A line is skipped as blank when its `trim()` is empty
  (AIAssistant.tsx:92), so a line of spaces is skipped too.

One behaviour of the code is proved rather than changed: the rewind on a parse
failure never recovers. The line that failed is complete, so every later pass
cuts out the same line, fails again and puts it back. No content after a
malformed `data:` line is ever shown (`SseStream.StalledFeedIsStuck`).

## Model

All source paths are relative to the repository root.

| member | source | states |
|---|---|---|
| SseStream.Classify | src/components/auth/AIAssistant.tsx:92-96 | the kind of a line: comment, blank, another field, the sentinel, or a payload; what each kind does is stated by `PassSkipsLine`, `PassStopsAtDone`, `PassRewindsOnParseFailure` and `PassAppendsContent` |
| SseStream.LineAction | src/components/auth/AIAssistant.tsx:92-107 | the decoder's action on one line; `PassUnfold` and `ContinuesOnLine` state how a pass follows it |
| SseStream.Pass | src/components/auth/AIAssistant.tsx:86-109 | one run of the inner loop; its contract is carried by `PassSkipsLine`, `PassStopsAtDone`, `PassRewindsOnParseFailure`, `PassAppendsContent`, `PassUnfold`, `PassGrows`, `PassLeavesSuffix`, `PassReadsWellFormed` and `PassEmitsWellFormed` |
| SseStream.Feed | src/components/auth/AIAssistant.tsx:81-109 | the outer read loop; its contract is carried by `FeedGrows`, `FeedReadsWellFormed`, `FeedEmitsWellFormed`, `ChunkingDoesNotMatter`, `DoneOnlyDelaysTheRest` and `StalledFeedIsStuck` |
| SseStream.StripCR | src/components/auth/AIAssistant.tsx:91 | the cleaned line is a prefix of the raw line; it is one character shorter exactly when the raw line ends in a carriage return, and otherwise it is the raw line |
| SseStream.CutAtNewline | src/components/auth/AIAssistant.tsx:87-89 | for a buffer `raw + "\n" + rest` with no line feed in `raw`, the cut is at `|raw|`, the line is `raw` and the buffer keeps exactly `rest` |
| SseStream.PassSkipsLine | src/components/auth/AIAssistant.tsx:92-93 | a comment, whitespace-only or non-`data: ` line is consumed: the pass continues on the rest with the accumulated text unchanged and no sink call |
| SseStream.PassStopsAtDone | src/components/auth/AIAssistant.tsx:95-96 | a `data: [DONE]` line is consumed and the pass stops, keeping the rest of the buffer unprocessed, with no sink call |
| SseStream.DoneOnlyDelaysTheRest | src/components/auth/AIAssistant.tsx:81-96 | feeding a chunk that starts with `[DONE]`, then more chunks, gives the same buffer, text and sink calls as feeding the rest together with the next chunk |
| SseStream.PassRewindsOnParseFailure | src/components/auth/AIAssistant.tsx:105-107 | on a parse failure the new buffer is the line without its carriage return, a line feed and the rest; the pass stops with the text unchanged |
| SseStream.PassAppendsContent | src/components/auth/AIAssistant.tsx:99-104 | a parsed line with content `c` appends `c` to the text and hands the whole new text to the sink; an empty or absent content changes nothing |
| SseStream.PassUnfold | src/components/auth/AIAssistant.tsx:87-108 | one loop iteration, by the line's kind: stop at `[DONE]`, rewind on a parse failure, otherwise continue on the rest with the line's content added |
| SseStream.ContinuesOnLine | src/components/auth/AIAssistant.tsx:87-108 | the loop invariant of `Push` survives one line, and its final result is fixed when the line is `[DONE]` or a parse failure |
| SseStream.PassGrows | src/components/auth/AIAssistant.tsx:100-103 | within a pass each sink argument strictly extends the previous one (the first extends the initial text), and the final text is the last argument |
| SseStream.FeedGrows | src/components/auth/AIAssistant.tsx:81-109 | the same growth property over a whole sequence of chunks |
| SseStream.GrowsMeansPrefixes | src/components/auth/AIAssistant.tsx:101-103 | every sink argument strictly extends the initial text and every earlier argument |
| SseStream.PassLeavesSuffix | src/components/auth/AIAssistant.tsx:87-107 | a pass that runs out of line feeds leaves a buffer with no line feed; unless it rewound, the buffer left is a suffix of the input |
| SseStream.PassReadsWellFormed | src/components/auth/AIAssistant.tsx:87-109 | if every data line parses and `[DONE]` can only be last, one pass adds exactly the contents of all complete lines and keeps only the unterminated tail |
| SseStream.FeedReadsWellFormed | src/components/auth/AIAssistant.tsx:81-109 | under the same condition, feeding chunks after a buffer with no complete line leaves the tail of the whole text and adds its contents |
| SseStream.PassEmitsWellFormed | src/components/auth/AIAssistant.tsx:87-109 | under the same condition, one pass makes exactly the sink calls of the line-by-line reading: one call with the whole new text per complete line with non-empty content |
| SseStream.FeedEmitsWellFormed | src/components/auth/AIAssistant.tsx:81-109 | under the same condition, feeding chunks after a buffer with no complete line makes exactly the sink calls of the line-by-line reading of the whole text |
| SseStream.ChunkingDoesNotMatter | src/components/auth/AIAssistant.tsx:81-109 | under the same condition, any split into chunks gives the same sink calls, with the same texts in the same order, and the same final text and buffer as feeding the whole text as one chunk |
| SseStream.SkippedLineIsInvisible | src/components/auth/AIAssistant.tsx:92-93 | inserting a comment, blank or other-field line between complete lines changes neither the contents nor well-formedness |
| SseStream.RewoundLineIsStalled | src/components/auth/AIAssistant.tsx:105-107 | the buffer produced by a rewind starts with a complete line that fails again |
| SseStream.RewindLeavesStall | src/components/auth/AIAssistant.tsx:105-107 | every pass that ends in a rewind leaves such a stalled buffer |
| SseStream.StalledPassIsStuck | src/components/auth/AIAssistant.tsx:84-107 | appending any chunk to a stalled buffer and running a pass adds nothing, calls no sink and leaves a stalled buffer |
| SseStream.StalledFeedIsStuck | src/components/auth/AIAssistant.tsx:81-107 | from a stalled buffer, no later chunks ever add text or reach the sink |
| AiAssistant.WithAssistantReply | src/components/auth/AIAssistant.tsx:72-78 | if the last message is the assistant's, the length is unchanged and only the last message is replaced; otherwise exactly one assistant message is appended; earlier messages are kept |
| AiAssistant.ReplyReplacesReply | src/components/auth/AIAssistant.tsx:72-78 | two successive updates leave only the second content: the transcript shows one assistant turn |
| AiAssistant.RepliesCollapse | src/components/auth/AIAssistant.tsx:70-79 | any non-empty series of updates equals one update with the last content |
| AiAssistant.RepliesAppend | src/components/auth/AIAssistant.tsx:70-79 | updates over two concatenated series compose |
| AiAssistant.StreamTranscript | src/components/auth/AIAssistant.tsx:100-103 | the transcript after a stream is the previous one plus one assistant message holding the accumulated text, or unchanged when nothing was sent |
| AiAssistant.SendText | src/components/auth/AIAssistant.tsx:124 | a non-empty quick-action text is sent as is; otherwise the trimmed input is sent |
| AiAssistant.BlankInputIsNotSent | src/components/auth/AIAssistant.tsx:124-125 | a whitespace-only input yields an empty text, which the guard refuses |
| AiAssistant.HttpErrorText | src/components/auth/AIAssistant.tsx:59-61 | the toast for a failed response is its non-empty `error` field, else the connection message; never empty |
| AiAssistant.AssistantPanel.constructor | src/components/auth/AIAssistant.tsx:19-21 | no messages, empty input, not loading |
| AiAssistant.AssistantPanel.UpdateAssistant | src/components/auth/AIAssistant.tsx:70-79 | the messages become `WithAssistantReply` of the old ones; input and loading flag unchanged |
| AiAssistant.AssistantPanel.Send | src/components/auth/AIAssistant.tsx:123-133 | a send starts exactly when the text is non-empty and no answer is loading; then the user message is appended, the input cleared, loading set, and the request carries the new transcript; otherwise nothing changes |
| AiAssistant.AssistantPanel.Receive | src/components/auth/AIAssistant.tsx:45-121 | every ending clears the loading flag; an HTTP error or a missing body shows its toast and appends the apology; a stream leaves the transcript that `Feed` over the chunks determines, plus the apology and toast after a read failure |
| AiAssistant.StreamDecoder.constructor | src/components/auth/AIAssistant.tsx:47-68 | empty buffer and empty accumulated text |
| AiAssistant.StreamDecoder.Push | src/components/auth/AIAssistant.tsx:84-109 | after appending a chunk, the loop leaves the buffer and text that `Pass` computes, and the panel shows one update for each sink call of that pass |
| AiAssistant.StreamDecoder.NextLine | src/components/auth/AIAssistant.tsx:87-91 | the line is the buffer up to the first line feed minus a trailing carriage return; the buffer keeps what follows the line feed |
| AiAssistant.StreamDecoder.HandleLine | src/components/auth/AIAssistant.tsx:92-108 | the loop ends exactly at `[DONE]` or a parse failure; a failure puts the line back; content is appended and shown only when non-empty |
| Markdown.Replace | src/components/auth/AIAssistant.tsx:148-150 | a global lazy replace; its contract is carried by `MarkedSpan`, `ReplaceWithoutMarker`, `ReplaceEmptyIff` and `FindCloseIsFirst` |
| Markdown.RenderLine | src/components/auth/AIAssistant.tsx:147-156 | one line's fragment; its contract is carried by `RenderLineClassified` and `RenderLineKinds` |
| Markdown.RenderMarkdown | src/components/auth/AIAssistant.tsx:142-158 | the whole rendering; its contract is carried by `SingleLine`, `FirstLineRendered` and `RenderLinesSnoc` |
| Markdown.FindCloseIsFirst | src/components/auth/AIAssistant.tsx:148-150 | a found closing marker is the first occurrence, with no line terminator before it; when none is found, every occurrence lies beyond a line terminator |
| Markdown.FindClose | src/components/auth/AIAssistant.tsx:148-150 | a found closing delimiter really sits at the returned position |
| Markdown.FindCloseAfterPlain | src/components/auth/AIAssistant.tsx:148-150 | the lazy match closes at the first delimiter after text with no delimiter character and no line terminator |
| Markdown.FindCloseMissing | src/components/auth/AIAssistant.tsx:148-150 | with no delimiter character there is no closing match |
| Markdown.MarkedSpan | src/components/auth/AIAssistant.tsx:148-150 | a delimited span of plain text becomes open tag, text, close tag, and replacement continues after it |
| Markdown.ReplaceWithoutMarker | src/components/auth/AIAssistant.tsx:148-150 | text without the delimiter's first character passes through unchanged, markup included |
| Markdown.ReplaceEmptyIff | src/components/auth/AIAssistant.tsx:148-150 | a substitution with a non-empty tag yields empty text exactly for empty text |
| Markdown.BoldSpan | src/components/auth/AIAssistant.tsx:148 | `**t**` becomes `<strong>t</strong>` |
| Markdown.ItalicSpan | src/components/auth/AIAssistant.tsx:150 | `*t*` becomes `<em>t</em>` |
| Markdown.BoldOfSingleStars | src/components/auth/AIAssistant.tsx:148 | the bold pass leaves `*t*` alone |
| Markdown.BoldOfPlainThenStar | src/components/auth/AIAssistant.tsx:148 | the bold pass leaves text followed by one star alone |
| Markdown.UnclosedBoldBecomesEmptyItalic | src/components/auth/AIAssistant.tsx:148-150 | an unclosed `**t` renders as `<em></em>t` |
| Markdown.EmphasizeEmptyIff | src/components/auth/AIAssistant.tsx:148-150 | emphasis yields an empty line exactly for an empty line |
| Markdown.RenderLineClassified | src/components/auth/AIAssistant.tsx:147-155 | for every line, markers or not: a line written with a `- ` or `• ` bullet gives the `li` of the emphasized text after the bullet, and any other non-empty line gives the `p` of its emphasized text |
| Markdown.RenderLineKinds | src/components/auth/AIAssistant.tsx:151-155 | a line renders as `<br/>` exactly when it is empty; a non-empty line without stars that starts with `- ` or `• ` gives an `li` of the text after those two characters, any other such line a `p`; both carry the line index as key |
| Markdown.RenderLinesSnoc | src/components/auth/AIAssistant.tsx:144-157 | appending a line to the input appends its fragment, keyed by its position: the output is the lines' fragments in order |
| Markdown.SingleLine | src/components/auth/AIAssistant.tsx:144-157 | content without a line feed renders as its single line with key 0 |
| Markdown.FirstLineRendered | src/components/auth/AIAssistant.tsx:144-157 | the first line's fragment comes first, followed by the rest from index 1 |
| Auth.RoleFor | src/hooks/useAuth.tsx:150-156 | `etec` and `vestibular` give student, `professor` gives teacher and nothing else does, and the role is never admin or moderator |
| Auth.SignUpFailureText | src/hooks/useAuth.tsx:177-180 | the sign-up failure text; `SignUpMessageSelection` and `NoUserShowsGenericMessage` state which text is shown |
| Auth.SignInFailureText | src/hooks/useAuth.tsx:216-221 | the sign-in failure text; `SignInMessageSelection` states which text is shown |
| Auth.SignUp | src/hooks/useAuth.tsx:106-192 | the sign-up flow over the backend's answers; `SignUpOrdering` and `SignUpFatalFailures` state its requests, error and toast |
| Auth.SignUpMessageSelection | src/hooks/useAuth.tsx:177-180 | the "e-mail already registered" text is shown exactly when the error message contains `already registered`; otherwise the generic text |
| Auth.NoUserShowsGenericMessage | src/hooks/useAuth.tsx:125-127 | a reply without a user gets the generic sign-up failure text |
| Auth.SignInMessageSelection | src/hooks/useAuth.tsx:216-221 | the credentials text wins whenever the message contains `Invalid login credentials`; the unconfirmed text only otherwise with `Email not confirmed`; the generic text when neither occurs |
| Auth.ProfileRowFor | src/hooks/useAuth.tsx:130-142 | required fields are copied; each optional text column is null exactly when its input is absent or empty and otherwise holds it; teaching targets are copied as given |
| Auth.SignUpOrdering | src/hooks/useAuth.tsx:111-161 | the account is created first; the profile is inserted only for a created user; the role is inserted only after the profile succeeded, with `RoleFor` of the profile type |
| Auth.SignUpFatalFailures | src/hooks/useAuth.tsx:121-188 | `signUp` succeeds exactly when a user was created and the profile insert succeeded; each fatal failure is the returned error with its destructive toast; the role insert's answer never changes the outcome |
| Auth.SignIn | src/hooks/useAuth.tsx:198-229 | one password sign-in request; the returned error is the service's; success shows the welcome toast, failure a destructive toast with `SignInFailureText` |
| SignupForm.FormatPhone | src/components/auth/SignupForm.tsx:43-49 | the masked phone is at most 15 characters, within the input's `maxLength` of 16 |
| SignupForm.Digits | src/components/auth/SignupForm.tsx:44 | `replace(/\D/g, "")`; `FormatPhoneKeepsDigits` and `FormatPhoneIdempotent` state what the mask does with it |
| SignupForm.Without | src/components/auth/SignupForm.tsx:68 | the filtered list holds no copy of the target and exactly the other entries of the old list |
| SignupForm.Toggled | src/components/auth/SignupForm.tsx:66-71 | the toggled list; its contract is carried by `ToggleMembership`, `ToggleKeepsOthersInOrder`, `ToggleTwice` and `ToggleKeepsDistinct` |
| SignupForm.FormatPhoneKeepsDigits | src/components/auth/SignupForm.tsx:44-48 | the digits of the masked phone are exactly the first eleven digits of the input |
| SignupForm.FormatPhoneShape | src/components/auth/SignupForm.tsx:45-48 | up to two digits are shown bare; from three digits the area code is in parentheses followed by `) `; from eight a hyphen follows the next five digits |
| SignupForm.FormatPhoneIdempotent | src/components/auth/SignupForm.tsx:43-49 | masking a masked phone changes nothing |
| SignupForm.ToggleMembership | src/components/auth/SignupForm.tsx:66-71 | the target is in the result exactly when it was not in the list; other targets keep their membership |
| SignupForm.ToggleKeepsOthersInOrder | src/components/auth/SignupForm.tsx:66-71 | with the target filtered out, the result equals the old list: other entries keep their order |
| SignupForm.ToggleTwice | src/components/auth/SignupForm.tsx:66-71 | an absent target is appended at the end and a second toggle restores the list; a present one is removed and toggled back moves to the end |
| SignupForm.ToggleKeepsDistinct | src/components/auth/SignupForm.tsx:66-71 | toggling never duplicates a target |
| SignupForm.ValidateStep1 | src/components/auth/SignupForm.tsx:74-84 | true exactly when all five fields are non-empty, the passwords agree and the password is at least 8 UTF-16 code units |
| SignupForm.PasswordLengthInCharacters | src/components/auth/SignupForm.tsx:81 | eight characters always satisfy the length rule; fewer than four never do |
| SignupForm.Payload | src/components/auth/SignupForm.tsx:99-111 | required fields pass through; each optional field is omitted exactly when empty; the target list is omitted exactly when no target is chosen |
| SignupForm.FormToProfileRow | src/components/auth/SignupForm.tsx:99-111 | through `signUp`, an optional column is null exactly when its field was empty and the target list is null exactly when none was chosen; the role is teacher exactly for the teacher profile |
| SignupForm.SignupWizard.constructor | src/components/auth/SignupForm.tsx:16-40 | first page, empty fields, no profile, terms not accepted, not submitting |
| SignupForm.SignupWizard.ChangePhone | src/components/auth/SignupForm.tsx:51-53 | only the phone field changes, to the masked input |
| SignupForm.SignupWizard.ToggleTarget | src/components/auth/SignupForm.tsx:66-71 | only the target list changes, to its toggled form |
| SignupForm.SignupWizard.ChooseProfile | src/components/auth/SignupForm.tsx:294 | the chosen profile is recorded and the step stays valid |
| SignupForm.SignupWizard.Submit | src/components/auth/SignupForm.tsx:87-111 | page 1 advances only when `ValidateStep1` holds; page 2 only with a profile; page 3 yields the payload and starts submitting only with the terms accepted; the step stays in 1..3; an enabled submit button always advances or submits |
| SignupForm.SignupWizard.FinishSubmit | src/components/auth/SignupForm.tsx:113-119 | submitting ends, and the wizard switches to login exactly when `signUp` returned no error |
| SignupForm.SignupWizard.Back | src/components/auth/SignupForm.tsx:541-547 | the step goes down by one only when above 1 and not submitting, and stays in 1..3 |
| Dashboard.Greeting | src/pages/Dashboard.tsx:91-96 | the greeting for an hour; `GreetingByHour` and `GreetingIsMonotone` state which |
| Dashboard.GreetingByHour | src/pages/Dashboard.tsx:91-96 | for hours 0..23: "Bom dia" exactly before 12, "Boa tarde" exactly from 12 to 17, "Boa noite" exactly from 18 |
| Dashboard.GreetingIsMonotone | src/pages/Dashboard.tsx:91-96 | the greeting never moves back through the day |
| Dashboard.FirstName | src/pages/Dashboard.tsx:98 | the first name is never empty |
| Dashboard.FirstNameIsFirstWord | src/pages/Dashboard.tsx:98 | a full name that starts with a word yields that word: a non-empty space-free prefix ended by a space or the end |
| Dashboard.FirstNameFallsBack | src/pages/Dashboard.tsx:98 | without a first word, the local part of the e-mail is used when non-empty, else "Estudante" |
| Dashboard.DisplayName | src/pages/Dashboard.tsx:113 | the full name when non-empty, otherwise the user's e-mail (possibly absent) |
| Dashboard.FirstNameBeginsDisplayName | src/pages/Dashboard.tsx:98-113 | the welcome first name is a prefix of the header's display name |
| Dashboard.ProfileLabel | src/pages/Dashboard.tsx:115-117 | the label under the display name; `ProfileLabelCases` and `LabelOfNewAccount` state which |
| Dashboard.ProfileLabelCases | src/pages/Dashboard.tsx:115-117 | `etec` gives "Aluno ETEC", `vestibular` gives "Aluno Vestibular", any other non-empty type is shown as is, and no profile or an empty type gives "Estudante" |
| Dashboard.LabelOfNewAccount | src/pages/Dashboard.tsx:115-117 | for an account made by the wizard, the two student profiles get their labels and a teacher's shows the raw type `professor` |

## Left out

- Transport: `fetch`, `response.body.getReader()`, the `reader.read()` calls and `TextDecoder` with `{stream: true}` (AIAssistant.tsx:50-67, 82-84) are browser I/O. A response is modelled by what the panel observes: an HTTP error with its `error` field, a missing body, or a sequence of already-decoded text chunks ending normally or with a read error.
- `JSON.parse` and the `choices?.[0]?.delta?.content` lookup (AIAssistant.tsx:99-100) are a given function `parse`. Its result is a failure, an absent content or a string content. A payload that parses to `null` throws inside the same `try`, so it counts as a failure. A non-string truthy content, which JavaScript would turn into a string, is not modelled.
- React scheduling: state updates (`setMessages`, `setIsLoading`, `setStep`) take effect at once and in program order. The `await` inside `handleSend` and `handleSubmit` splits each handler into two methods: `Send`/`Receive` and `Submit`/`FinishSubmit`. Nothing else runs between the two halves except what the guards allow.
- Toasts (sonner and the toast hook), scrolling, opening and closing the panel, quick actions, password visibility toggles, the photo upload through `FileReader` (SignupForm.tsx:55-64) and all JSX other than the submit and Back buttons' enabled state are presentation.
- The HTML produced by `renderMarkdown` is inserted unescaped (AIAssistant.tsx:251). The model treats the output as a string and does not model how a browser parses it. `Markdown.ReplaceWithoutMarker` shows that markup in the content passes through.
- Strings are sequences of Unicode scalar values. JavaScript strings that hold unpaired surrogates cannot be represented. The password length rule counts UTF-16 code units (`JsText.Utf16Length`), as JavaScript does.
- The text fields of the wizard (name, e-mail, passwords, school, course, income, technical course, invite code, subject) and the terms checkbox are plain field assignments in the source. `SignupWizard` has no method for them. The invite code is collected but not sent, and `Payload` omits it.
- SignupForm.SignupWizard.Back: the button itself has no guard (`setStep(step - 1)`, SignupForm.tsx:545). The method applies the conditions under which the button is rendered (step above 1) and enabled (not submitting).
- Auth.RoleFor: `roleMap[...]` is an object lookup. A profile type that names an inherited object property (such as `constructor`) would give a function instead of a role. The model maps it to student like any other unknown type. The wizard only sends `etec`, `vestibular` or `professor`.
- The `loading` flag of the auth hook (set on entry and reset in `finally`), the session subscription, `fetchProfile`, `signOut` and all backend calls (useAuth.tsx:55-104, 237) are left out. The answers of the account creation, the profile insert, the role insert and the password sign-in are parameters.
- The clock: `getGreeting` takes the hour as a parameter instead of reading `new Date().getHours()` (Dashboard.tsx:92). The `capitalize` style on the profile label and the dashboard's mock data arrays are presentation.
- The signup assistant's server function, the login form, the auth layout, the index page and the generated database types are not part of this model. They are I/O plumbing or presentation. Only the `app_role` enumeration (types.ts:246) is used, as `Auth.AppRole`.
