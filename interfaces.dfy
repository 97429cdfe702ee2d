/**
 * The collaborators the core talks to, as the interfaces ITranscriptionService,
 * IContentService and IEmailService declare them, plus the media download of
 * the WhatsApp service. Each remote call is an oracle: a total function from
 * the request to `Ok(value)` or `Fail` (the call threw). The core records every
 * call it makes as an `ExternalCall`, so that order and arguments can be stated.
 */
module Interfaces {
  datatype Option<+T> = None | Some(value: T) {
    function GetOr(default: T): T {
      match this
      case Some(v) => v
      case None => default
    }
  }

  /** Outcome of one call to a remote service. */
  datatype Attempt<+T> = Ok(value: T) | Fail

  newtype byte = x: int | 0 <= x < 256

  type Audio = seq<byte>

  /** The arguments of IEmailService.SendEmailAsync(to, subject, content). */
  datatype Email = Email(to: string, subject: string, content: string)

  datatype Environment = Environment(
    download: string -> Attempt<Audio>,      // HttpClient.GetByteArrayAsync(url)
    transcribe: Audio -> Attempt<string>,    // ITranscriptionService.TranscribeAudioAsync
    enhance: string -> Attempt<string>,      // IContentService.EnhanceContentAsync
    send: Email -> bool)                     // IEmailService.SendEmailAsync: true when it does not throw

  datatype ExternalCall =
    | Download(url: string)
    | Transcribe(audio: Audio)
    | Enhance(text: string)
    | SendEmail(email: Email)
}
