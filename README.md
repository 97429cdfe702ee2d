# WhatsApp voice-to-email: a Dafny model

This project models the core of a small ASP.NET service that turns WhatsApp
voice notes into emails. Twilio posts each incoming WhatsApp message to a
webhook. The service downloads the voice note and has it transcribed by a
speech-to-text provider. It enhances the transcript with a language model and
emails the result to an address. The address is either spoken in the voice
note or, when the transcript holds none, asked for in a follow-up message. A
second endpoint does the same for an uploaded audio file and an explicit
recipient.

The model has one module per part of the program:

- `Interfaces` (`interfaces.dfy`): the remote collaborators as oracles. These
  are the media download, `ITranscriptionService`, `IContentService` and
  `IEmailService`. Each call answers `Ok(value)` or `Fail` (it threw). Every
  handler returns the log of the calls it made, so order and arguments can be
  stated.
- `Models` (`models.dfy`): `WhatsAppMessage` and `ConversationState` with
  their defaults, and `IsStale` on integer DateTime ticks.
- `EmailExtractor` (`email_extractor.dfy`): `ExtractEmailAddress`, the
  leftmost match of `[a-zA-Z0-9._%+-]+@[a-zA-Z0-9.-]+\.[a-zA-Z]{2,}`. It is
  written as the backtracking engine runs that pattern. It is proved equal to
  a declarative definition: the leftmost substring in the pattern's language,
  longest at that start.
- `Transcription` (`transcription.dfy`): `TranscribeAudioAsync` as a method.
  It uploads, submits, then runs a poll loop of at most 60 iterations over a
  provider oracle whose n-th poll may answer differently from the next.
- `WhatsApp` (`whatsapp_service.dfy`): the conversation state machine. Class
  `WhatsAppService` holds the per-sender dictionary as a `map` field, and its
  handlers update one entry in place. Each handler is proved equal to a pure
  turn function. The routing, the state updates, the pairing invariant and
  the recipient of every email are proved about those functions.
- `Numerals` (`numerals.dfy`): `int.Parse` of the `NumMedia` field and the
  decimal rendering of the loop index in the `MediaUrl{i}` keys.
- `Webhook` (`webhook_controller.dfy`): `WhatsAppController.Webhook`. This is
  the form-to-message mapping with its media loop, the TwiML envelope, and the
  apology on any exception.
- `MessageApi` (`message_controller.dfy`): `MessageController.SendMessage`.
  It validates, then runs transcribe → enhance → send, and returns either the
  result or a 500.

The reply envelope keeps the CR LF line ends of the controller's verbatim
string literal. Time is a parameter `now` in DateTime ticks (100 ns). `MediaUrls.First()` is
a choice among the stored URLs (`firstUrl`), because .NET does not fix the
enumeration order of a `Dictionary`.

Two behaviours of the code are worth stating outright:

- The "couldn't find your voice note" branch
  (VoiceToEmail.API/Services/WhatsAppService.cs:152-156) returns without
  touching the conversation state.
- `IsStale` is never consulted, and the service never refreshes
  `LastUpdated`, so a state stays in the dictionary however old it is.

The handlers keep their states in a static dictionary
(VoiceToEmail.API/Services/WhatsAppService.cs:16) shared by every instance
the framework creates per request scope. One `WhatsAppService` object of the
model stands for that process-wide dictionary; its constructor stands for
the static initializer, not for the per-request construction.

## Model

Five functions model source lines without a row of their own; the rows
about them stand for them:

- `EmailExtractor.ExtractEmailAddress`
  (VoiceToEmail.API/Services/WhatsAppService.cs:182-187) by
  `EmailExtractor.ExtractEmailAddressCorrect` and the lemmas after it.
- `Models.ConversationState.IsStale`
  (VoiceToEmail.Core/Models/WhatsAppMessage.cs:21) by `Models.StaleThreshold`
  and `Models.StaleIsMonotonic`.
- `WhatsApp.LoadState` (VoiceToEmail.API/Services/WhatsAppService.cs:58-66),
  the lookup-or-create of a sender's state, by `WhatsApp.IncomingTurn`.
- `Webhook.Envelope` (VoiceToEmail.API/Controllers/WhatsAppController.cs:72-77)
  by `Webhook.EnvelopeRoundTrip` and `Webhook.EnvelopeInjective`.
- `Webhook.Lookup`, the form's `GetValueOrDefault`
  (VoiceToEmail.API/Controllers/WhatsAppController.cs:47-58), by
  `Webhook.FormMessage`.

| member | source | states |
|---|---|---|
| Models.NewWhatsAppMessage | VoiceToEmail.Core/Models/WhatsAppMessage.cs:5-10 | A new message has every string field null, `NumMedia == 0` and an empty media dictionary |
| Models.NewConversationState | VoiceToEmail.Core/Models/WhatsAppMessage.cs:15-18 | A new state has an empty phone number, no pending note, is not waiting, was updated at its creation time, is not stale then, and keeps the pairing invariant |
| Models.StaleThreshold | VoiceToEmail.Core/Models/WhatsAppMessage.cs:21 | Stale iff strictly more than 24 hours have passed: exactly 24 hours is not stale, one tick more is |
| Models.StaleIsMonotonic | VoiceToEmail.Core/Models/WhatsAppMessage.cs:18-21 | Once stale, a state stays stale as time goes on |
| Numerals.NatToString | VoiceToEmail.API/Controllers/WhatsAppController.cs:57-58 | The rendering of the loop index is non-empty decimal digits without a leading zero |
| Numerals.ParseInt32 | VoiceToEmail.API/Controllers/WhatsAppController.cs:51 | A parsed `NumMedia` lies in the 32-bit range (int.Parse throws otherwise) |
| Numerals.ParseInt32Sound | VoiceToEmail.API/Controllers/WhatsAppController.cs:51 | Every parsed value comes from a text of white space, an optional sign, decimal digits and white space, whose signed value it is |
| Numerals.ParseInt32Complete | VoiceToEmail.API/Controllers/WhatsAppController.cs:51 | Every such text whose value fits in 32 bits is parsed to that value |
| Numerals.ParseInt32Correct | VoiceToEmail.API/Controllers/WhatsAppController.cs:51 | Parsing succeeds with `v` iff the text is a 32-bit integer literal with value `v`; malformed and out-of-range text give None |
| Numerals.ParseInt32Alphabet | VoiceToEmail.API/Controllers/WhatsAppController.cs:51 | A text holding any character other than white space, a sign or a digit gives None |
| Numerals.ParseIntToString | VoiceToEmail.API/Controllers/WhatsAppController.cs:51 | Parsing the rendering of any 32-bit integer gives the integer back |
| Numerals.NatToStringInjective | VoiceToEmail.API/Controllers/WhatsAppController.cs:57-58 | Different indices give different renderings |
| EmailExtractor.Backtrack | VoiceToEmail.API/Services/WhatsAppService.cs:185 | A match the backtracking step reports ends past the domain's start and within the text |
| EmailExtractor.BacktrackFinds | VoiceToEmail.API/Services/WhatsAppService.cs:185 | Backtracking the domain run finds a position where `\.[a-zA-Z]{2,}` can start and ends the match after its letters, or there is none in the range |
| EmailExtractor.MatchAt | VoiceToEmail.API/Services/WhatsAppService.cs:185 | A match at a start position is non-empty and ends within the text |
| EmailExtractor.BacktrackFindsRightmost | VoiceToEmail.API/Services/WhatsAppService.cs:185 | If a tld can start at q0, backtracking succeeds at a position at or right of q0 |
| EmailExtractor.MatchAtSound | VoiceToEmail.API/Services/WhatsAppService.cs:185 | Every match the engine reports at a start position is in the pattern's language |
| EmailExtractor.MatchAtComplete | VoiceToEmail.API/Services/WhatsAppService.cs:185 | Every substring in the pattern's language is found by the engine at its start, with a match at least as long |
| EmailExtractor.SearchFromFirst | VoiceToEmail.API/Services/WhatsAppService.cs:185-186 | The search reports the engine's match at the first start position that has one, and None when none has |
| EmailExtractor.ExtractEmailAddressCorrect | VoiceToEmail.API/Services/WhatsAppService.cs:182-187 | None iff no substring matches; otherwise the result is the leftmost match, longest at its start |
| EmailExtractor.ExtractEmailAddressIdempotent | VoiceToEmail.API/Services/WhatsAppService.cs:182-187 | Extracting from an extracted address gives the address back |
| EmailExtractor.ExtractBareAddress | VoiceToEmail.API/Services/WhatsAppService.cs:185-186 | A text that is itself an address extracts to itself |
| EmailExtractor.NoAtSignNoAddress | VoiceToEmail.API/Services/WhatsAppService.cs:185-186 | A text without '@' gives None |
| EmailExtractor.ExtractSurrounded | VoiceToEmail.API/Services/WhatsAppService.cs:185-186 | An address surrounded by text that cannot extend it is extracted exactly |
| EmailExtractor.ExampleRejected | VoiceToEmail.API/Services/WhatsAppService.cs:145-150 | "not an email" holds no address |
| Transcription.ClassifyPoll | VoiceToEmail.API/Services/TranscriptionService.cs:92-125 | A failed status fails the poll. "completed" with non-empty text yields exactly that text, and with null or empty text it is a failure. "error" fails with the provider's message or "Unknown error". Anything else, a null body included, means keep polling |
| Transcription.TranscribeAudio | VoiceToEmail.API/Services/TranscriptionService.cs:26-135 | Upload failures end after the upload request. The submission carries the upload URL with language detection on, and its failures end without polling. Between 1 and 60 polls follow, all but the last pending; the last decides the result, or all 60 were pending and the result is a timeout. A success is never empty |
| WhatsApp.EnhanceAndSend | VoiceToEmail.API/Services/WhatsAppService.cs:120-123 | The email goes to the given address with the fixed subject and the enhanced text, as the last call; success iff enhancement and send succeed |
| WhatsApp.VoiceNoteTurn | VoiceToEmail.API/Services/WhatsAppService.cs:90-139 | Downloads the given URL first. A failed download or transcription ends in the matching exception with nothing changed, and once the enhancement is reached every outcome other than the confirmation is an exception; the only replies are the confirmation, the request for an address, or an exception. The state either stays or puts this URL on hold with waiting set, and the latter only with the ask-for-address reply. Pairing is kept, and an email is only ever the last call |
| WhatsApp.EmailProvidedTurn | VoiceToEmail.API/Services/WhatsAppService.cs:141-180 | No address, or no note on hold, is rejected with no call and no change. Otherwise the held URL is downloaded first; a failed download or transcription ends in the matching exception, and once anything is called every outcome other than the confirmation is an exception. The hold is cleared iff the email went out; any failure leaves the state as it was |
| WhatsApp.IncomingTurn | VoiceToEmail.API/Services/WhatsAppService.cs:51-88 | A null sender throws. Only the sender's entry is created or changed, and a new one carries the sender's number and the current time. Waiting plus a body is exactly the email branch's turn on the loaded state, even with media; otherwise media give exactly the voice-note branch's turn on the chosen URL; otherwise the instructions with no call. Pairing is kept, so "couldn't find your voice note" never occurs |
| WhatsApp.RunKeepsPairing | VoiceToEmail.API/Services/WhatsAppService.cs:128-170 | After any sequence of messages every stored state waiting for an address has a note on hold, and no sender is forgotten |
| WhatsApp.AnswerDeliversToAddress | VoiceToEmail.API/Services/WhatsAppService.cs:158-173 | After a successful download and transcription of the held note, the calls are exactly download, transcribe, enhance and, when enhancement succeeds, the email of the enhanced text to the extracted address, whether or not the send then fails; success iff every step succeeded |
| WhatsApp.SpokenAddressDelivers | VoiceToEmail.API/Services/WhatsAppService.cs:115-123 | A transcript naming an address is enhanced and emailed there at once: the calls are exactly download, transcribe, enhance and, when enhancement succeeds, the email to that address; the state is not modified, and any failure is an exception |
| WhatsApp.UnaddressedVoiceNoteIsHeld | VoiceToEmail.API/Services/WhatsAppService.cs:125-131 | A transcript without an address puts this note on hold, replacing any earlier one, and asks for an address |
| WhatsApp.HoldRejectDeliver | VoiceToEmail.API/Services/WhatsAppService.cs:51-180 | Voice note without address, then a non-address, then an address: held, unchanged with no call, then delivered to that address with the hold cleared, or left as it was on failure |
| WhatsApp.WhatsAppService.constructor | VoiceToEmail.API/Services/WhatsAppService.cs:16 | The process-wide dictionary starts empty, as its static initializer makes it |
| WhatsApp.WhatsAppService.HandleIncomingMessage | VoiceToEmail.API/Services/WhatsAppService.cs:51-88 | Reply, calls and new dictionary are those of `IncomingTurn`, with the voice note taken from the stored URLs; the pairing invariant is kept |
| WhatsApp.WhatsAppService.HandleVoiceNote | VoiceToEmail.API/Services/WhatsAppService.cs:90-139 | Updates only the sender's entry, as `VoiceNoteTurn` says |
| WhatsApp.WhatsAppService.HandleEmailProvided | VoiceToEmail.API/Services/WhatsAppService.cs:141-180 | Updates only the sender's entry, as `EmailProvidedTurn` says |
| Webhook.MediaKeysDistinct | VoiceToEmail.API/Controllers/WhatsAppController.cs:57-58 | Each iteration reads its own `MediaUrl{i}` and `MediaContentType{i}` fields, and no key is both |
| Webhook.CollectMedia | VoiceToEmail.API/Controllers/WhatsAppController.cs:55-65 | The media loop fails iff some iteration has a non-empty URL and no content type |
| Webhook.MediaEntriesFromIterations | VoiceToEmail.API/Controllers/WhatsAppController.cs:55-65 | Every stored entry maps the content type of some iteration to that iteration's non-empty URL |
| Webhook.MediaIterationsStored | VoiceToEmail.API/Controllers/WhatsAppController.cs:59-61 | Every iteration with a non-empty URL leaves its content type in the dictionary |
| Webhook.MediaCountBounded | VoiceToEmail.API/Controllers/WhatsAppController.cs:55-65 | The dictionary has at most one entry per iteration |
| Webhook.LastWriteWins | VoiceToEmail.API/Controllers/WhatsAppController.cs:61 | For a content type, the URL of the last iteration with it is the one kept |
| Webhook.FormMessage | VoiceToEmail.API/Controllers/WhatsAppController.cs:45-65 | Scalar fields are copied verbatim, with absent ones null. `NumMedia` defaults to "0" and an unparsable one fails. A count of zero or less never fails and stores nothing; otherwise the media loop decides |
| Webhook.ParseForm | VoiceToEmail.API/Controllers/WhatsAppController.cs:45-65 | The loop over i = 0 .. NumMedia-1 builds exactly `FormMessage(form)` |
| Webhook.EnvelopeRoundTrip | VoiceToEmail.API/Controllers/WhatsAppController.cs:72-77 | The reply is read back out of its envelope unchanged |
| Webhook.EnvelopeInjective | VoiceToEmail.API/Controllers/WhatsAppController.cs:72-77 | Different replies give different envelopes |
| Webhook.ResponseText | VoiceToEmail.API/Controllers/WhatsAppController.cs:68-89 | A reply is sent as it is; an exception becomes the apology |
| Webhook.TurnRepliesAreFixed | VoiceToEmail.API/Services/WhatsAppService.cs:51-180 | Every reply of a turn is one of the five fixed texts |
| Webhook.ResponsesAreFixed | VoiceToEmail.API/Controllers/WhatsAppController.cs:67-89 | The webhook answers with one of six fixed texts: the five replies or the apology |
| Webhook.WhatsAppController.constructor | VoiceToEmail.API/Controllers/WhatsAppController.cs:14-20 | The controller holds the given service |
| Webhook.WhatsAppController.Webhook | VoiceToEmail.API/Controllers/WhatsAppController.cs:32-91 | Always `application/xml`. A malformed form gets the apology with no call and no state change. Otherwise the service's turn runs, and its reply, or the apology if it threw, goes back in the envelope |
| MessageApi.Pipeline | VoiceToEmail.API/Controllers/Controllers.cs:40-50 | The three calls in order, transcription first |
| MessageApi.SendMessage | VoiceToEmail.API/Controllers/Controllers.cs:28-66 | No file or an empty one is a bad request with no call. Otherwise the calls are a prefix of transcribe → enhance → send, each taking the previous output, and stop at the first failed step, which is a 500 with the fixed text. Success iff all three succeed, echoing transcript, enhanced content, recipient and "Completed" |
| MessageApi.EmailOnlyAfterEnhancement | VoiceToEmail.API/Controllers/Controllers.cs:40-50 | An email goes out only after transcription and enhancement succeeded, to the recipient with the enhanced text, as the last call |

## Left out

- Concurrency: the lock around the shared dictionary, and handler mutations outside it. The model is one sequential map.
- Network I/O: HTTP downloads, Twilio and AssemblyAI client setup, and SendGrid and OpenAI. Each remote result is an oracle value.
- The one-second delay between polls. Polls are counted, not timed.
- Logging throughout.
- JSON (de)serialisation of the provider's replies. Each reply is an already-decoded record with optional fields, and malformed JSON, which would throw, is not modelled.
- `IsStale` computes `TotalHours` as a double. The model compares integer ticks.
- Staleness eviction and timestamp refresh. The code has neither.
- The `Test` GET endpoint of the WhatsApp controller. It only returns a fixed string.
- `Trim` on the enhanced text inside ContentService. ContentService.cs, EmailService.cs and Program.cs are not part of this model beyond the oracles.
- Numerals.ParseInt32: .NET also accepts trailing NUL characters and culture-specific sign symbols; the model accepts ASCII '+'/'-' and the six ASCII white-space characters only.
- MessageApi.SendMessage: a missing `recipientEmail` binds to null in the framework; the model takes the recipient as a string.
- WhatsApp.IncomingTurn: the service and the message API see transcription only through the `transcribe` oracle. The non-empty-text guarantee of `Transcription.TranscribeAudio` is not assumed there.
