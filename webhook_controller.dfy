/**
 * WhatsAppController.Webhook: the Twilio form post becomes a WhatsAppMessage,
 * the service answers it, and the answer goes back as a TwiML envelope. Any
 * exception (a NumMedia that int.Parse rejects, a media URL whose content type
 * is missing, an exception of the service) is answered with a fixed apology in
 * the same envelope, so the webhook always answers with XML.
 *
 * The form is the `Dictionary<string, string>` the framework binds, a map here;
 * `GetValueOrDefault` of an absent key is `None` (null).
 */
module Webhook {
  import opened Interfaces
  import opened Models
  import opened Numerals
  import opened WhatsApp

  const XmlContentType: string := "application/xml"
  const ApologyText: string := "Sorry, there was an error processing your message. Please try again."

  /** The envelope around the reply, as the verbatim string literal of the
      controller spells it (its lines end in CR LF). */
  const EnvelopeHead: string := "<?xml version=\"1.0\" encoding=\"utf-8\"?>\r\n<Response>\r\n    <Message>"
  const EnvelopeTail: string := "</Message>\r\n</Response>"

  /** `Content(text, contentType)` */
  datatype ContentResult = ContentResult(content: string, contentType: string)

  /** The exceptions building the message can throw. */
  datatype FormError =
    | NumMediaNotANumber          // int.Parse: FormatException or OverflowException
    | MissingContentType          // MediaUrls[null] = url: ArgumentNullException

  datatype FormResult = Parsed(message: WhatsAppMessage) | Malformed(error: FormError)

  /** `form.GetValueOrDefault(key)` */
  function Lookup(form: map<string, string>, key: string): (r: Option<string>)
    ensures r.Some? <==> key in form
    ensures r.Some? ==> r.value == form[key]
  {
    if key in form then Some(form[key]) else None
  }

  function MediaUrlKey(i: nat): string {
    "MediaUrl" + NatToString(i)
  }

  function MediaContentTypeKey(i: nat): string {
    "MediaContentType" + NatToString(i)
  }

  /** Each iteration reads its own two fields, and no field is read as both
      a URL and a content type. */
  lemma MediaKeysDistinct(i: nat, j: nat)
    ensures MediaUrlKey(i) != MediaContentTypeKey(j)
    ensures MediaUrlKey(i) == MediaUrlKey(j) ==> i == j
    ensures MediaContentTypeKey(i) == MediaContentTypeKey(j) ==> i == j
  {
    assert MediaUrlKey(i)[5] == 'U' && MediaContentTypeKey(j)[5] == 'C';
    if MediaUrlKey(i) == MediaUrlKey(j) {
      assert MediaUrlKey(i)[8..] == NatToString(i);
      assert MediaUrlKey(j)[8..] == NatToString(j);
      NatToStringInjective(i, j);
    }
    if MediaContentTypeKey(i) == MediaContentTypeKey(j) {
      assert MediaContentTypeKey(i)[16..] == NatToString(i);
      assert MediaContentTypeKey(j)[16..] == NatToString(j);
      NatToStringInjective(i, j);
    }
  }

  /** Iteration `i` of the media loop stores something: its URL is neither
      null nor empty. */
  predicate HasMediaUrl(form: map<string, string>, i: nat) {
    MediaUrlKey(i) in form && form[MediaUrlKey(i)] != ""
  }

  /** The media dictionary after the first `n` iterations of the media loop,
      or None once an iteration with a URL found no content type. */
  function CollectMedia(form: map<string, string>, n: nat): (r: Option<map<string, string>>)
    // a failure is an iteration with a URL and no content type, and a success has none
    ensures r.None? <==> exists i :: 0 <= i < n && HasMediaUrl(form, i) && MediaContentTypeKey(i) !in form
  {
    if n == 0 then Some(map[])
    else
      match CollectMedia(form, n - 1)
      case None => None
      case Some(media) =>
        if !HasMediaUrl(form, n - 1) then Some(media)
        else
          match Lookup(form, MediaContentTypeKey(n - 1))
          case None => None
          case Some(contentType) => Some(media[contentType := form[MediaUrlKey(n - 1)]])
  }

  lemma UpdateGrowsByOne(m: map<string, string>, k: string, v: string)
    ensures |m[k := v]| <= |m| + 1
  {
    if k in m {
      assert m[k := v].Keys == m.Keys;
    } else {
      assert m[k := v].Keys == m.Keys + {k};
    }
  }

  /** Every entry comes from one iteration: its content type maps to that
      iteration's non-empty URL. */
  lemma {:induction false} MediaEntriesFromIterations(form: map<string, string>, n: nat, contentType: string)
    requires CollectMedia(form, n).Some? && contentType in CollectMedia(form, n).value
    ensures exists i :: (0 <= i < n && HasMediaUrl(form, i) && Lookup(form, MediaContentTypeKey(i)) == Some(contentType)
                         && form[MediaUrlKey(i)] == CollectMedia(form, n).value[contentType])
  {
    var prev := CollectMedia(form, n - 1).value;
    if HasMediaUrl(form, n - 1) && form[MediaContentTypeKey(n - 1)] == contentType {
      assert CollectMedia(form, n).value[contentType] == form[MediaUrlKey(n - 1)];
    } else {
      assert CollectMedia(form, n).value[contentType] == prev[contentType];
      MediaEntriesFromIterations(form, n - 1, contentType);
    }
  }

  /** Every iteration with a URL leaves its content type in the dictionary. */
  lemma {:induction false} MediaIterationsStored(form: map<string, string>, n: nat, i: nat)
    requires CollectMedia(form, n).Some? && i < n && HasMediaUrl(form, i)
    ensures MediaContentTypeKey(i) in form && form[MediaContentTypeKey(i)] in CollectMedia(form, n).value
  {
    if i < n - 1 {
      MediaIterationsStored(form, n - 1, i);
    }
  }

  /** The dictionary has at most one entry per iteration. */
  lemma {:induction false} MediaCountBounded(form: map<string, string>, n: nat)
    requires CollectMedia(form, n).Some?
    ensures |CollectMedia(form, n).value| <= n
  {
    if n == 0 {
      assert CollectMedia(form, n).value == map[];
    } else {
      MediaCountBounded(form, n - 1);
      var prev := CollectMedia(form, n - 1).value;
      var cur := CollectMedia(form, n).value;
      if HasMediaUrl(form, n - 1) {
        var contentType := form[MediaContentTypeKey(n - 1)];
        assert cur == prev[contentType := form[MediaUrlKey(n - 1)]];
        UpdateGrowsByOne(prev, contentType, form[MediaUrlKey(n - 1)]);
      } else {
        assert cur == prev;
      }
    }
  }

  /** Two iterations write the same entry exactly when they have the same
      content type; the later one wins. */
  lemma {:induction false} LastWriteWins(form: map<string, string>, n: nat, i: nat)
    requires i < n && HasMediaUrl(form, i) && MediaContentTypeKey(i) in form
    requires forall j :: i < j < n && HasMediaUrl(form, j) ==>
      Lookup(form, MediaContentTypeKey(j)) != Some(form[MediaContentTypeKey(i)])
    requires CollectMedia(form, n).Some?
    ensures form[MediaContentTypeKey(i)] in CollectMedia(form, n).value
    ensures CollectMedia(form, n).value[form[MediaContentTypeKey(i)]] == form[MediaUrlKey(i)]
  {
    var prev := CollectMedia(form, n - 1);
    assert prev.Some?;
    if i < n - 1 {
      LastWriteWins(form, n - 1, i);
      var key := form[MediaContentTypeKey(i)];
      if HasMediaUrl(form, n - 1) {
        var contentType := form[MediaContentTypeKey(n - 1)];
        assert contentType != key;
        assert CollectMedia(form, n).value == prev.value[contentType := form[MediaUrlKey(n - 1)]];
      } else {
        assert CollectMedia(form, n) == prev;
      }
    }
  }

  /** The message built from the form, or the exception building it throws. */
  function FormMessage(form: map<string, string>): (r: FormResult)
    // the scalar fields are copied as they are, missing ones as null
    ensures r.Parsed? ==>
      && r.message.messageSid == Lookup(form, "MessageSid")
      && r.message.from == Lookup(form, "From")
      && r.message.to == Lookup(form, "To")
      && r.message.body == Lookup(form, "Body")
    // NumMedia defaults to "0" and must parse as a 32-bit integer
    ensures r.Parsed? ==> Some(r.message.numMedia) == ParseInt32(Lookup(form, "NumMedia").GetOr("0"))
    ensures ParseInt32(Lookup(form, "NumMedia").GetOr("0")).None? ==> r == Malformed(NumMediaNotANumber)
    // a count of zero or less (a missing NumMedia included) never fails and stores no media
    ensures var count := ParseInt32(Lookup(form, "NumMedia").GetOr("0"));
      count.Some? && count.value <= 0 ==> r.Parsed? && r.message.mediaUrls == map[]
    // with a positive count, the media loop decides
    ensures var count := ParseInt32(Lookup(form, "NumMedia").GetOr("0"));
      count.Some? && count.value > 0 ==>
        (r.Parsed? <==> CollectMedia(form, count.value).Some?)
        && (r.Parsed? ==> r.message.mediaUrls == CollectMedia(form, count.value).value)
  {
    match ParseInt32(Lookup(form, "NumMedia").GetOr("0"))
    case None => Malformed(NumMediaNotANumber)
    case Some(numMedia) =>
      var n := if numMedia < 0 then 0 else numMedia;
      match CollectMedia(form, n)
      case None => Malformed(MissingContentType)
      case Some(media) =>
        Parsed(WhatsAppMessage(Lookup(form, "MessageSid"), Lookup(form, "From"), Lookup(form, "To"),
                               Lookup(form, "Body"), numMedia, media))
  }

  /** The envelope the controller answers with. */
  function Envelope(reply: string): string {
    EnvelopeHead + reply + EnvelopeTail
  }

  /** The reply inside an envelope, None when `xml` is not one. */
  function EnvelopeText(xml: string): (r: Option<string>)
    ensures r.Some? ==> |xml| == |EnvelopeHead| + |r.value| + |EnvelopeTail|
  {
    if |xml| >= |EnvelopeHead| + |EnvelopeTail|
       && xml[..|EnvelopeHead|] == EnvelopeHead
       && xml[|xml| - |EnvelopeTail|..] == EnvelopeTail
    then Some(xml[|EnvelopeHead|..|xml| - |EnvelopeTail|])
    else None
  }

  /** The reply can be read back out of its envelope, so different replies
      give different envelopes. */
  lemma EnvelopeRoundTrip(reply: string)
    ensures EnvelopeText(Envelope(reply)) == Some(reply)
  {
    var xml := Envelope(reply);
    assert xml[..|EnvelopeHead|] == EnvelopeHead;
    assert xml[|xml| - |EnvelopeTail|..] == EnvelopeTail;
    assert xml[|EnvelopeHead|..|xml| - |EnvelopeTail|] == reply;
  }

  lemma EnvelopeInjective(a: string, b: string)
    requires Envelope(a) == Envelope(b)
    ensures a == b
  {
    EnvelopeRoundTrip(a);
    EnvelopeRoundTrip(b);
  }

  /** What the webhook sends back for a turn's outcome. */
  function ResponseText(reply: HandleResult): (r: string)
    ensures reply.Replied? ==> r == reply.text
    ensures reply.Threw? ==> r == ApologyText
  {
    match reply
    case Replied(text) => text
    case Threw(_) => ApologyText
  }

  /** The texts the service can reply with. */
  function ReplyTexts(): set<string> {
    {SentReply, AskForEmailReply, InvalidEmailReply, NoVoiceNoteReply, DefaultReply}
  }

  /** Every reply of a turn is one of the service's fixed texts. */
  lemma TurnRepliesAreFixed(states: map<string, ConversationState>, message: WhatsAppMessage, now: int,
                            env: Environment, firstUrl: string)
    ensures var r := IncomingTurn(states, message, now, env, firstUrl).reply;
      r.Replied? ==> r.text in ReplyTexts()
  {
  }

  /** The webhook answers with one of six fixed texts: a reply of the
      service or the apology. */
  lemma ResponsesAreFixed(states: map<string, ConversationState>, message: WhatsAppMessage, now: int,
                          env: Environment, firstUrl: string)
    ensures ResponseText(IncomingTurn(states, message, now, env, firstUrl).reply) in ReplyTexts() + {ApologyText}
  {
    TurnRepliesAreFixed(states, message, now, env, firstUrl);
  }

  class WhatsAppController {
    const service: WhatsAppService

    constructor (service: WhatsAppService)
      ensures this.service == service
    {
      this.service := service;
    }

    /** POST api/whatsapp. `firstUrl` is the URL the service took as the
        voice note, when it took one. */
    method Webhook(form: map<string, string>, now: int, env: Environment)
      returns (result: ContentResult, calls: seq<ExternalCall>, ghost firstUrl: string)
      requires service.Valid()
      modifies service
      ensures service.Valid()
      // the answer is always XML
      ensures result.contentType == XmlContentType
      // a malformed form is apologised for before the service sees it
      ensures FormMessage(form).Malformed? ==>
        result.content == Envelope(ApologyText) && calls == []
        && service.conversationStates == old(service.conversationStates)
      // otherwise the service handles the message, and its reply, or the
      // apology if it threw, goes back in the envelope
      ensures FormMessage(form).Parsed? ==>
        var message := FormMessage(form).message;
        var r := IncomingTurn(old(service.conversationStates), message, now, env, firstUrl);
        && (HasMedia(message) ==> firstUrl in message.mediaUrls.Values)
        && service.conversationStates == r.states && calls == r.calls
        && result.content == Envelope(ResponseText(r.reply))
    {
      var parsed := ParseForm(form);
      if parsed.Malformed? {
        firstUrl := "";
        return ContentResult(Envelope(ApologyText), XmlContentType), [], firstUrl;
      }
      var reply;
      reply, calls, firstUrl := service.HandleIncomingMessage(parsed.message, now, env);
      match reply
      case Replied(text) =>
        result := ContentResult(Envelope(text), XmlContentType);
      case Threw(_) =>
        result := ContentResult(Envelope(ApologyText), XmlContentType);
    }
  }

  /** Building the message: the scalar fields, then the media loop over
      i = 0 .. NumMedia - 1, where a later URL with the same content type
      replaces an earlier one. */
  method ParseForm(form: map<string, string>) returns (r: FormResult)
    ensures r == FormMessage(form)
  {
    var numMedia := ParseInt32(Lookup(form, "NumMedia").GetOr("0"));
    if numMedia.None? {
      return Malformed(NumMediaNotANumber);
    }
    var message := WhatsAppMessage(Lookup(form, "MessageSid"), Lookup(form, "From"), Lookup(form, "To"),
                                   Lookup(form, "Body"), numMedia.value, map[]);
    var i: nat := 0;
    while i < message.numMedia
      invariant message.numMedia >= 0 ==> i <= message.numMedia
      invariant message.numMedia < 0 ==> i == 0
      invariant message == WhatsAppMessage(Lookup(form, "MessageSid"), Lookup(form, "From"), Lookup(form, "To"),
                                            Lookup(form, "Body"), numMedia.value, message.mediaUrls)
      invariant CollectMedia(form, i) == Some(message.mediaUrls)
      decreases message.numMedia - i
    {
      var mediaUrl := Lookup(form, MediaUrlKey(i));
      var mediaContentType := Lookup(form, MediaContentTypeKey(i));
      if mediaUrl.Some? && mediaUrl.value != "" {
        if mediaContentType.None? {
          return Malformed(MissingContentType);
        }
        message := message.(mediaUrls := message.mediaUrls[mediaContentType.value := mediaUrl.value]);
      }
      i := i + 1;
    }
    return Parsed(message);
  }
}
