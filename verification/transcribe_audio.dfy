/** The `transcribe-audio` edge function: after the CORS preflight it checks
    the body's `audio`, then the API key, decodes the base64 audio into a
    byte buffer and relays the transcription. The platform's base64 decoder
    `atob` (section 4 of RFC 4648) and the transcription request are the
    parameters `atob` and `transcribe`. */
module TranscribeAudio {
  import opened Optional
  import Text
  import Relay

  /** A UTF-16 code unit, what `charCodeAt` returns. */
  type CodeUnit = n: nat | n < 0x1_0000

  /** An element of a `Uint8Array`. */
  newtype Byte = n: int | 0 <= n < 256

  datatype AudioBody = AudioBody(audio: Option<string>)

  /** What `atob` gives: a binary string, or the exception's message. */
  datatype Decoded = Binary(units: seq<CodeUnit>) | DecodeFailed(message: string)

  /** The provider's answer: a transcript, a non-ok response with its
      `error.message` (if any) and status text, or a thrown request. */
  datatype ProviderResponse =
    | Transcript(text: string)
    | ApiError(errorMessage: Option<string>, statusText: string)
    | RequestFailed(message: string)

  datatype TextReply = TextReply(text: string)

  const Fallback := "Transcription failed"

  /** `bytes[i] = code`: a `Uint8Array` store keeps the code modulo 256. */
  function ByteOf(u: CodeUnit): (b: Byte)
    ensures b as int == u % 256
  {
    (u % 256) as Byte
  }

  function BytesOf(s: seq<CodeUnit>): (r: seq<Byte>)
    ensures |r| == |s| && forall i :: 0 <= i < |s| ==> r[i] as int == s[i] % 256
  {
    seq(|s|, i requires 0 <= i < |s| => ByteOf(s[i]))
  }

  /** A binary string (every code below 256, as `atob` returns) is copied
      byte for byte, and the copy reads back as the same string. */
  lemma BinaryStringCopied(s: seq<CodeUnit>)
    requires forall i :: 0 <= i < |s| ==> s[i] < 256
    ensures forall i :: 0 <= i < |s| ==> BytesOf(s)[i] as int == s[i]
    ensures seq(|s|, i requires 0 <= i < |s| => BytesOf(s)[i] as int) == s
  {
  }

  /** The copy loop into a fresh `Uint8Array` of the string's length. */
  method ToBytes(s: seq<CodeUnit>) returns (bytes: array<Byte>)
    ensures fresh(bytes) && bytes[..] == BytesOf(s)
  {
    bytes := new Byte[|s|];
    for i := 0 to |s|
      invariant forall j :: 0 <= j < i ==> bytes[j] == ByteOf(s[j])
    {
      bytes[i] := ByteOf(s[i]);
    }
  }

  /** `OpenAI API error: ${errorData.error?.message || response.statusText}`. */
  function ApiErrorMessage(errorMessage: Option<string>, statusText: string): (m: string)
    ensures |m| >= 18 && m[..18] == "OpenAI API error: "
    ensures Text.Truthy(errorMessage) ==> m[18..] == errorMessage.value
    ensures !Text.Truthy(errorMessage) ==> m[18..] == statusText
  {
    "OpenAI API error: " + Text.OrElse(errorMessage.GetOr(""), statusText)
  }

  /** The response for the provider's answer. */
  function Relayed(p: ProviderResponse): Relay.Response<TextReply> {
    match p
    case Transcript(text) => Relay.Success(TextReply(text))
    case ApiError(m, statusText) => Relay.Failure(ApiErrorMessage(m, statusText), Fallback)
    case RequestFailed(message) => Relay.Failure(message, Fallback)
  }

  /** The request handler. The checks run in this order: preflight, body,
      `audio`, API key, decoding; only then is the audio sent. */
  method Handle(req: Relay.Request<AudioBody>, apiKey: Option<string>,
                atob: string -> Decoded, transcribe: seq<Byte> -> ProviderResponse)
    returns (resp: Relay.Response<TextReply>)
    ensures Relay.WellShaped(resp)
    ensures req.httpMethod == "OPTIONS" ==> resp == Relay.Preflight()
    ensures req.httpMethod != "OPTIONS" && req.body.Malformed? ==> resp == Relay.Failure(req.body.message, Fallback)
    ensures req.httpMethod != "OPTIONS" && req.body.Parsed? && !Text.Truthy(req.body.fields.audio) ==>
      resp == Relay.Failure("No audio data provided", Fallback)
    ensures req.httpMethod != "OPTIONS" && req.body.Parsed? && Text.Truthy(req.body.fields.audio) && !Text.Truthy(apiKey) ==>
      resp == Relay.Failure("OpenAI API key not configured", Fallback)
    ensures req.httpMethod != "OPTIONS" && req.body.Parsed? && Text.Truthy(req.body.fields.audio) && Text.Truthy(apiKey) ==>
      var d := atob(req.body.fields.audio.value);
      resp == if d.DecodeFailed? then Relay.Failure(d.message, Fallback) else Relayed(transcribe(BytesOf(d.units)))
  {
    if req.httpMethod == "OPTIONS" {
      return Relay.Preflight();
    }
    if req.body.Malformed? {
      return Relay.Failure(req.body.message, Fallback);
    }
    var audio := req.body.fields.audio;
    if !Text.Truthy(audio) {
      return Relay.Failure("No audio data provided", Fallback);
    }
    if !Text.Truthy(apiKey) {
      return Relay.Failure("OpenAI API key not configured", Fallback);
    }
    var d := atob(audio.value);
    if d.DecodeFailed? {
      return Relay.Failure(d.message, Fallback);
    }
    var bytes := ToBytes(d.units);
    resp := Relayed(transcribe(bytes[..]));
  }
}
