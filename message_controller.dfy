/**
 * MessageController.SendMessage (POST api/message): the direct upload path.
 * An uploaded audio file is transcribed, the transcript enhanced, and the
 * enhanced text emailed to the recipient given with the request; the caller
 * gets back what was produced. Any exception on the way is a status 500 with
 * a fixed text. The collaborators are the oracles of `Environment`.
 */
module MessageApi {
  import opened Interfaces

  const EmailSubject: string := "Voice Message Transcription"
  const AudioRequiredText: string := "Audio file is required"
  const ServerErrorText: string := "An error occurred while processing your message"
  const CompletedStatus: string := "Completed"

  /** The anonymous object the action returns on success. */
  datatype MessageResponse = MessageResponse(
    transcribedText: string,
    enhancedContent: string,
    recipientEmail: string,
    status: string)

  datatype ActionResult =
    | BadRequestResult(text: string)            // BadRequest(...), status 400
    | OkResult(response: MessageResponse)       // Ok(...), status 200
    | StatusCodeResult(statusCode: int, text: string)

  /** The three calls of the pipeline, each taking the previous one's
      output (a step after a failed one is never reached, and its argument
      is left empty here). */
  function Pipeline(audio: Audio, recipientEmail: string, env: Environment): (calls: seq<ExternalCall>)
    ensures |calls| == 3 && calls[0] == Transcribe(audio)
  {
    var transcript := if env.transcribe(audio).Ok? then env.transcribe(audio).value else "";
    var content := if env.enhance(transcript).Ok? then env.enhance(transcript).value else "";
    [Transcribe(audio), Enhance(transcript), SendEmail(Email(recipientEmail, EmailSubject, content))]
  }

  /** `audioFile` is None when no file was posted (null). */
  function SendMessage(audioFile: Option<Audio>, recipientEmail: string, env: Environment)
    : (r: (ActionResult, seq<ExternalCall>))
    // validation comes first: no file, or an empty one, is a bad request and nothing is called
    ensures audioFile.None? || audioFile.value == [] <==> r.0 == BadRequestResult(AudioRequiredText)
    ensures r.0.BadRequestResult? ==> r.1 == []
    // every other outcome is success or the fixed server error
    ensures r.0.BadRequestResult? || r.0.OkResult? || r.0 == StatusCodeResult(500, ServerErrorText)
    // the calls made are the pipeline's, in order, up to the first failure
    ensures audioFile.Some? && audioFile.value != [] ==>
      1 <= |r.1| <= 3 && r.1 == Pipeline(audioFile.value, recipientEmail, env)[..|r.1|]
    // and they stop at the first failed step, which is answered with the server error
    ensures audioFile.Some? && audioFile.value != [] && env.transcribe(audioFile.value).Fail? ==>
      r == (StatusCodeResult(500, ServerErrorText), [Transcribe(audioFile.value)])
    ensures audioFile.Some? && audioFile.value != [] && env.transcribe(audioFile.value).Ok? ==>
      var transcript := env.transcribe(audioFile.value).value;
      env.enhance(transcript).Fail? ==>
        r == (StatusCodeResult(500, ServerErrorText), [Transcribe(audioFile.value), Enhance(transcript)])
    ensures audioFile.Some? && audioFile.value != [] && env.transcribe(audioFile.value).Ok? ==>
      var transcript := env.transcribe(audioFile.value).value;
      env.enhance(transcript).Ok? && !env.send(Email(recipientEmail, EmailSubject, env.enhance(transcript).value)) ==>
        r == (StatusCodeResult(500, ServerErrorText), Pipeline(audioFile.value, recipientEmail, env))
    // success exactly when every step succeeded; the response reports what each step produced
    ensures r.0.OkResult? <==>
      && audioFile.Some? && audioFile.value != []
      && env.transcribe(audioFile.value).Ok?
      && env.enhance(env.transcribe(audioFile.value).value).Ok?
      && env.send(Email(recipientEmail, EmailSubject, env.enhance(env.transcribe(audioFile.value).value).value))
    ensures r.0.OkResult? ==>
      var transcript := env.transcribe(audioFile.value).value;
      var content := env.enhance(transcript).value;
      && r.0.response == MessageResponse(transcript, content, recipientEmail, CompletedStatus)
      && r.1 == [Transcribe(audioFile.value), Enhance(transcript),
                 SendEmail(Email(recipientEmail, EmailSubject, content))]
  {
    if audioFile.None? || audioFile.value == [] then (BadRequestResult(AudioRequiredText), [])
    else
      var audio := audioFile.value;
      match env.transcribe(audio)
      case Fail => (StatusCodeResult(500, ServerErrorText), [Transcribe(audio)])
      case Ok(transcribedText) =>
        match env.enhance(transcribedText)
        case Fail => (StatusCodeResult(500, ServerErrorText), [Transcribe(audio), Enhance(transcribedText)])
        case Ok(enhancedContent) =>
          var email := Email(recipientEmail, EmailSubject, enhancedContent);
          var calls := [Transcribe(audio), Enhance(transcribedText), SendEmail(email)];
          if env.send(email) then
            (OkResult(MessageResponse(transcribedText, enhancedContent, recipientEmail, CompletedStatus)), calls)
          else
            (StatusCodeResult(500, ServerErrorText), calls)
  }

  /** An email goes out only when the request carried audio and its transcript
      was enhanced; it goes to the requested recipient with the fixed subject
      and the enhanced transcript as content, and it is the last call. */
  lemma EmailOnlyAfterEnhancement(audioFile: Option<Audio>, recipientEmail: string, env: Environment, k: nat)
    requires k < |SendMessage(audioFile, recipientEmail, env).1|
    requires SendMessage(audioFile, recipientEmail, env).1[k].SendEmail?
    ensures audioFile.Some? && env.transcribe(audioFile.value).Ok?
    ensures var transcript := env.transcribe(audioFile.value).value;
      && env.enhance(transcript).Ok?
      && SendMessage(audioFile, recipientEmail, env).1[k] ==
           SendEmail(Email(recipientEmail, EmailSubject, env.enhance(transcript).value))
    ensures k == |SendMessage(audioFile, recipientEmail, env).1| - 1
  {
  }
}
