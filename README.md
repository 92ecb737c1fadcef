# WhatsApp Gemini bot: the `/webhook` handler in Dafny

The bot receives WhatsApp messages through a Twilio webhook. A message whose
trimmed text starts with `!bot` is a command. The text after `!bot` is a
question for Google's Gemini model; a command with nothing after it gets a
usage hint. The
bot keeps one Gemini chat per sender in a process-wide dictionary
(`conversaciones`). It creates a chat the first time a sender asks and reuses
it afterwards. The answer goes back marked `@bot `, and it is cut when it is
too long. A failed call is reported in the chat instead of being raised.

This project models that handler and proves what it promises:

- `text.dfy` (module `Text`): Python's `str.strip()` and `str.startswith()`
  on strings of code points. `Strip` scans forward past the leading
  whitespace and then back past the trailing whitespace, as CPython does. It
  is proved against an independent characterisation (`IsStripOf`), which
  determines its result.
- `reply.dfy` (module `Reply`): the fixed texts, the formatting and cutting of
  an answer, and the error report.
- `bot.dfy` (module `Bot`): the command gate (`Classify`), one request as a
  function of the store before it (`Respond`), and the store itself as a class
  (`Conversations`). Its `Webhook` method updates the map in place and is
  proved to do exactly what `Respond` says.
- `wrappers.dfy` (module `Wrappers`): `Option`, and `CallResult` for a library
  call that either returns a value or raises an exception with a message.

The inputs of one request are the two form fields `Body` and `From`. Both are
plain strings, and a missing field is the empty string. Two library calls are
also inputs, given as call results: `model.start_chat(history=[])` (`started`) and
`chat.send_message(question).text` (`answer`). A chat handle is an abstract
type. The handler's result is `Option<string>`, where `None` is a response
with no message element.

## Model

| member | source | states |
|---|---|---|
| `Text.IsWs` | whatsapp_gemini_bot.py:24 | the characters `strip()` removes include space, tab, newline, vertical tab, form feed and carriage return, and no visible ASCII character |
| `Text.StartsWith` | whatsapp_gemini_bot.py:31 | `startswith(p)` holds exactly when `p` is no longer than the string and agrees with it character by character from the start |
| `Text.SkipWsForward` | whatsapp_gemini_bot.py:24 | the scan stops at the first non-whitespace character, having passed only whitespace |
| `Text.SkipWsBackward` | whatsapp_gemini_bot.py:24 | the backward scan stops after the last non-whitespace character, not below the start, having passed only whitespace |
| `Text.Strip` | whatsapp_gemini_bot.py:24 | `strip()` returns a slice of its input with only whitespace outside it, and the slice neither begins nor ends with whitespace |
| `Text.StripCharacterised` | whatsapp_gemini_bot.py:24 | any slice with that property is exactly what `strip()` returns, so the characterisation determines the result |
| `Text.SameStripBounds` | whatsapp_gemini_bot.py:33 | two slices that both meet the characterisation of `strip()` are equal |
| `Text.StripIdempotent` | whatsapp_gemini_bot.py:33 | stripping an already stripped string changes nothing |
| `Text.StripEmptyIff` | whatsapp_gemini_bot.py:33-35 | a string strips to empty if and only if it is all whitespace |
| `Reply.FormatAnswer` | whatsapp_gemini_bot.py:50-54 | an answer message always starts with `@bot ` and is at most 1500 characters plus the cut notice |
| `Reply.FormatAnswerFits` | whatsapp_gemini_bot.py:50-53 | when `"@bot " + text` is at most 1500 characters it is sent unchanged, and the answer can be read back after the marker |
| `Reply.FormatAnswerCuts` | whatsapp_gemini_bot.py:53-54 | when it is longer, the message is its first 1500 characters followed by the exact cut notice, it is 1500 plus the notice's length long, and it keeps the first 1495 characters of the answer |
| `Reply.FormatAnswerFaithful` | whatsapp_gemini_bot.py:50-54 | up to 1500 characters, the message agrees with the marked answer |
| `Reply.FormatAnswerWithinWhatsAppLimit` | whatsapp_gemini_bot.py:52-54 | an answer message never exceeds WhatsApp's 1600-character limit |
| `Reply.ErrorReply` | whatsapp_gemini_bot.py:58-59 | a failure report starts with `@bot `, is `"@bot ❌ Error: "` followed by the exception text, and that text can be read back from it |
| `Reply.UsageHintMarked` | whatsapp_gemini_bot.py:36 | the usage hint starts with `@bot ` |
| `Bot.Classify` | whatsapp_gemini_bot.py:24-35 | a question is never empty and neither begins nor ends with whitespace (which text it is: `Bot.QuestionIsRest`) |
| `Bot.ClassifyIgnoredIff` | whatsapp_gemini_bot.py:31 | a body is ignored exactly when its stripped form does not start with `!bot` |
| `Bot.ClassifyNoQuestionIff` | whatsapp_gemini_bot.py:33-35 | a command carries no question exactly when it starts with `!bot` and only whitespace follows the first 4 characters |
| `Bot.QuestionIsRest` | whatsapp_gemini_bot.py:33 | the question is the text after the first 4 characters of the stripped body with only whitespace removed around it; with `Classify`'s contract this fixes it uniquely |
| `Bot.NoQuestionIsBareCommand` | whatsapp_gemini_bot.py:31-35 | a command carries no question exactly when the stripped body is `!bot` alone |
| `Bot.QuestionIsStripped` | whatsapp_gemini_bot.py:33 | the question sent to the model is already stripped |
| `Bot.ClassifyNeedsNoSpace` | whatsapp_gemini_bot.py:31-33 | `!botfoo` asks `foo`: no space is needed after the command |
| `Bot.ClassifyStripsQuestion` | whatsapp_gemini_bot.py:33 | `!bot 2+2?` asks `2+2?` |
| `Bot.ClassifyBareCommand` | whatsapp_gemini_bot.py:31-35 | `!bot` alone carries no question |
| `Bot.ClassifyPaddedCommand` | whatsapp_gemini_bot.py:24-35 | `  !bot   ` carries no question: the body is stripped before the gate |
| `Bot.ClassifyIgnores` | whatsapp_gemini_bot.py:31 | `hola !bot` and `!BOT hola` are ignored: the command must open the message and is case-sensitive |
| `Bot.Respond` | whatsapp_gemini_bot.py:22-61 | one request never removes a key from the store and adds at most the sender; every message it sends starts with `@bot `; it calls the model only when it sends a message |
| `Bot.IgnoredChangesNothing` | whatsapp_gemini_bot.py:28-31 | without the command, no message is sent, the store is unchanged and the model is not called |
| `Bot.NoQuestionGetsUsageHint` | whatsapp_gemini_bot.py:33-37 | a command without a question gets exactly the usage hint, leaves the store unchanged and does not call the model |
| `Bot.QuestionUsesSession` | whatsapp_gemini_bot.py:41-47 | for a question, when the sender has a chat or one can be started, the sender has a chat afterwards, an existing chat is reused rather than replaced, and the question goes to the model on that chat |
| `Bot.FailedStartStoresNothing` | whatsapp_gemini_bot.py:41-42 | when starting a chat for a new sender fails, the store is unchanged, the model is not called and the reply is the error report, so the next question starts a chat again |
| `Bot.CallIff` | whatsapp_gemini_bot.py:31-47 | the model is called if and only if there is a question and the sender has, or can be given, a chat |
| `Bot.StoreOnlyGrows` | whatsapp_gemini_bot.py:41-42 | the keys before a request are kept, at most the sender is added, and no stored chat changes |
| `Bot.QuestionReply` | whatsapp_gemini_bot.py:47-59 | the message for a question is the error report of a failed chat start, else the error report of a failed call, else the formatted answer |
| `Bot.FailedCallReported` | whatsapp_gemini_bot.py:58-61 | a failed call still gets a reply, exactly `"@bot ❌ Error: "` followed by the exception text |
| `Bot.ConsecutiveQuestionsShareConversation` | whatsapp_gemini_bot.py:41-44 | two questions in a row from one sender go to the model on the same chat, and the second leaves the store unchanged |
| `Bot.SessionsStayPrivate` | whatsapp_gemini_bot.py:41-42 | if every new chat is a new object, no two senders ever share a chat |
| `Bot.Conversations.constructor` | whatsapp_gemini_bot.py:19 | the store starts empty |
| `Bot.Conversations.Webhook` | whatsapp_gemini_bot.py:22-61 | after the gate of `Classify`, handling a request updates the store in place, and its new store, its message and its model call are exactly those of `Respond` on the old store |

## Left out

- Flask routing and reading the form fields (`request.values`): HTTP input. `Body` and `From` are plain string parameters.
- The Twilio `MessagingResponse` object and its XML serialisation: a foreign library. The model keeps only whether a message is present and its text.
- Gemini configuration, and what `start_chat` and `send_message` do inside: network calls into a library whose code is not part of this model. Their results are inputs.
- How a chat's history grows after each exchange: it lives inside the Gemini library. Two questions from one sender are proved to use the same chat object, not to see each other's history.
- Bot.SessionsStayPrivate: assumes that `start_chat` returns an object no sender holds yet. Python guarantees this for a newly built object, but the library's code is not part of this model.
- Environment variables, the unused Twilio credentials, and the server port: configuration only.
- The `/health` and `/` handlers: they return constants.
- Server start-up and concurrent requests on the shared dictionary: runtime and concurrency. The model handles one request at a time.
- Text.IsWs: lists the characters Python's `str.isspace()` accepts (the ones `strip()` removes) from the Unicode tables of current Python versions. A future Unicode version that adds a whitespace character would not be covered.
