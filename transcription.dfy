/**
 * TranscriptionService.TranscribeAudioAsync: upload the audio to the
 * transcription provider, submit a transcript request for the uploaded file,
 * then poll the transcript at most 60 times until it completes or fails.
 *
 * The provider is an oracle: each HTTP exchange is a function from the request
 * to an already-decoded reply (status code and optional JSON body), and the
 * n-th poll of a transcript may answer differently from the (n+1)-th. Every
 * request issued is recorded, so "no request after a failure" and "at most 60
 * polls" can be stated. A thrown exception is a `Failed` result.
 */
module Transcription {
  import opened Interfaces

  /** Poll budget (one poll per second, one minute in all). */
  const MaxAttempts: nat := 60

  datatype HttpReply<+T> = HttpReply(statusCode: int, body: Option<T>) {
    /** HttpResponseMessage.IsSuccessStatusCode */
    predicate IsSuccess() {
      200 <= statusCode <= 299
    }
  }

  datatype UploadResponse = UploadResponse(uploadUrl: Option<string>)

  datatype TranscriptionRequest = TranscriptionRequest(audioUrl: Option<string>, languageDetection: bool)

  datatype TranscriptionResponse = TranscriptionResponse(
    id: Option<string>,
    status: Option<string>,
    text: Option<string>,
    error: Option<string>)

  datatype Provider = Provider(
    upload: Audio -> HttpReply<UploadResponse>,                         // POST upload
    submit: TranscriptionRequest -> HttpReply<TranscriptionResponse>,   // POST transcript
    poll: (string, nat) -> HttpReply<TranscriptionResponse>)            // GET transcript/{id}, n-th time

  datatype Request =
    | PostUpload(audio: Audio)
    | PostTranscript(request: TranscriptionRequest)
    | GetTranscript(id: string)

  /** The exceptions TranscribeAudioAsync throws. */
  datatype TranscriptionError =
    | UploadFailed(uploadStatus: int)        // HttpRequestException "Upload failed with status ..."
    | UploadUrlMissing                       // InvalidOperationException "Failed to get upload URL ..."
    | SubmissionFailed(submitStatus: int)    // HttpRequestException "Transcription request failed ..."
    | TranscriptIdMissing                    // InvalidOperationException "Failed to get transcript ID ..."
    | PollFailed(pollStatus: int)            // HttpRequestException "Polling failed with status ..."
    | EmptyTranscript                        // InvalidOperationException "Received empty transcription text"
    | RemoteError(detail: string)            // Exception "Transcription failed: {detail}"
    | TimedOut                               // TimeoutException "Transcription timed out after 60 seconds"

  datatype TranscriptionResult = Transcribed(text: string) | Failed(error: TranscriptionError)

  /** `uploadResult?.upload_url` */
  function UploadUrl(reply: HttpReply<UploadResponse>): Option<string> {
    if reply.body.Some? then reply.body.value.uploadUrl else None
  }

  /** `transcriptionResult?.id` */
  function TranscriptId(reply: HttpReply<TranscriptionResponse>): Option<string> {
    if reply.body.Some? then reply.body.value.id else None
  }

  /** `pollingResult?.status` */
  function PollStatus(reply: HttpReply<TranscriptionResponse>): Option<string> {
    if reply.body.Some? then reply.body.value.status else None
  }

  datatype PollVerdict = Pending | Finished(result: TranscriptionResult)

  /** What one poll reply means for the polling loop: a terminal result, or
      go on polling. */
  function ClassifyPoll(reply: HttpReply<TranscriptionResponse>): (v: PollVerdict)
    // a transport failure stops the loop
    ensures !reply.IsSuccess() ==> v == Finished(Failed(PollFailed(reply.statusCode)))
    // success only on "completed" with text, and then exactly that text
    ensures v.Finished? && v.result.Transcribed? <==>
      reply.IsSuccess() && PollStatus(reply) == Some("completed")
      && reply.body.value.text.Some? && reply.body.value.text.value != ""
    ensures v.Finished? && v.result.Transcribed? ==>
      v.result.text == reply.body.value.text.value && v.result.text != ""
    // "completed" with no text is a failure
    ensures (reply.IsSuccess() && PollStatus(reply) == Some("completed")
             && reply.body.value.text.GetOr("") == "") ==> v == Finished(Failed(EmptyTranscript))
    // "error" carries the provider's message, or "Unknown error"
    ensures reply.IsSuccess() && PollStatus(reply) == Some("error") ==>
      v == Finished(Failed(RemoteError(reply.body.value.error.GetOr("Unknown error"))))
    // everything else, a missing body included, keeps polling
    ensures v == Pending <==>
      reply.IsSuccess() && PollStatus(reply) != Some("completed") && PollStatus(reply) != Some("error")
  {
    if !reply.IsSuccess() then Finished(Failed(PollFailed(reply.statusCode)))
    else if PollStatus(reply) == Some("completed") then
      var text := reply.body.value.text;
      if text.None? || text.value == "" then Finished(Failed(EmptyTranscript))
      else Finished(Transcribed(text.value))
    else if PollStatus(reply) == Some("error") then
      Finished(Failed(RemoteError(reply.body.value.error.GetOr("Unknown error"))))
    else Pending
  }

  /** The polls of job `id` issued so far. */
  function Polls(id: string, n: nat): (r: seq<Request>)
    ensures |r| == n && forall k :: 0 <= k < n ==> r[k] == GetTranscript(id)
  {
    seq(n, _ => GetTranscript(id))
  }

  method TranscribeAudio(audio: Audio, provider: Provider) returns (result: TranscriptionResult, requests: seq<Request>)
    // a successful transcription is never empty
    ensures result.Transcribed? ==> result.text != ""
    // upload: a failed status or a missing upload_url ends it before any transcript request
    ensures var up := provider.upload(audio);
      !up.IsSuccess() ==> result == Failed(UploadFailed(up.statusCode)) && requests == [PostUpload(audio)]
    ensures var up := provider.upload(audio);
      up.IsSuccess() && UploadUrl(up).None? ==> result == Failed(UploadUrlMissing) && requests == [PostUpload(audio)]
    // submission: the request carries the upload URL with language detection on;
    // a failed status or a missing id ends it without polling
    ensures var up := provider.upload(audio);
      up.IsSuccess() && UploadUrl(up).Some? ==>
        var req := TranscriptionRequest(UploadUrl(up), true);
        var sub := provider.submit(req);
        && |requests| >= 2 && requests[..2] == [PostUpload(audio), PostTranscript(req)]
        && (!sub.IsSuccess() ==> result == Failed(SubmissionFailed(sub.statusCode)) && |requests| == 2)
        && (sub.IsSuccess() && TranscriptId(sub).None? ==> result == Failed(TranscriptIdMissing) && |requests| == 2)
    // polling: between 1 and 60 polls; every poll but the last was pending; the
    // last one decided the result, or it was pending too and all 60 were spent
    ensures var up := provider.upload(audio);
      up.IsSuccess() && UploadUrl(up).Some? ==>
        var sub := provider.submit(TranscriptionRequest(UploadUrl(up), true));
        sub.IsSuccess() && TranscriptId(sub).Some? ==>
          var id, n := TranscriptId(sub).value, |requests| - 2;
          && 1 <= n <= MaxAttempts
          && requests[2..] == Polls(id, n)
          && (forall k :: 0 <= k < n - 1 ==> ClassifyPoll(provider.poll(id, k)) == Pending)
          && (ClassifyPoll(provider.poll(id, n - 1)) == Finished(result)
              || (n == MaxAttempts && ClassifyPoll(provider.poll(id, n - 1)) == Pending && result == Failed(TimedOut)))
  {
    // upload the audio file
    requests := [PostUpload(audio)];
    var uploadResponse := provider.upload(audio);
    if !uploadResponse.IsSuccess() {
      return Failed(UploadFailed(uploadResponse.statusCode)), requests;
    }
    var uploadUrl := UploadUrl(uploadResponse);
    if uploadUrl.None? {
      return Failed(UploadUrlMissing), requests;
    }

    // create the transcription request
    var transcriptionRequest := TranscriptionRequest(uploadUrl, true);
    requests := requests + [PostTranscript(transcriptionRequest)];
    var transcriptionResponse := provider.submit(transcriptionRequest);
    if !transcriptionResponse.IsSuccess() {
      return Failed(SubmissionFailed(transcriptionResponse.statusCode)), requests;
    }
    var id := TranscriptId(transcriptionResponse);
    if id.None? {
      return Failed(TranscriptIdMissing), requests;
    }

    // poll for completion
    var attempts := 0;
    while attempts < MaxAttempts
      invariant 0 <= attempts <= MaxAttempts
      invariant requests == [PostUpload(audio), PostTranscript(transcriptionRequest)] + Polls(id.value, attempts)
      invariant forall k :: 0 <= k < attempts ==> ClassifyPoll(provider.poll(id.value, k)) == Pending
    {
      requests := requests + [GetTranscript(id.value)];
      var pollingResponse := provider.poll(id.value, attempts);
      if !pollingResponse.IsSuccess() {
        return Failed(PollFailed(pollingResponse.statusCode)), requests;
      }
      var status := PollStatus(pollingResponse);
      if status == Some("completed") {
        var text := pollingResponse.body.value.text;
        if text.None? || text.value == "" {
          return Failed(EmptyTranscript), requests;
        }
        return Transcribed(text.value), requests;
      }
      if status == Some("error") {
        return Failed(RemoteError(pollingResponse.body.value.error.GetOr("Unknown error"))), requests;
      }
      attempts := attempts + 1;
    }
    return Failed(TimedOut), requests;
  }
}
