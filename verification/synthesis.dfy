/**
 The Synthesis Client, `text_to_speech_azure` of app.py: the text is
 validated against the shorter synthesis bound, an unknown voice falls back
 to the default, and the three outcomes of the speech service (completed,
 canceled, any other reason) are told apart. Every failure leaves as an
 APIError. The speech service is a function parameter.
 */
module Synthesis {
  import opened Outcomes
  import opened Strings
  import opened Validation
  import opened Config

  /** The keys of AZURE_VOICES (app.py:65-74). */
  const AzureVoices := [
    "en-US-AriaNeural", "en-US-GuyNeural", "en-US-JennyNeural", "en-GB-RyanNeural",
    "en-GB-SoniaNeural", "es-ES-ElviraNeural", "fr-FR-DeniseNeural", "de-DE-KatjaNeural"]
  const DefaultVoice := "en-US-AriaNeural"
  /** The text bound used for synthesis (app.py:315). */
  const SynthesisMaxLength := 10000
  const ErrorPrefix := "Azure Speech synthesis error: "

  /** The only output format the code configures (app.py:327-329). */
  datatype AudioFormat = Audio16Khz128KBitRateMonoMp3

  datatype SynthesisRequest = SynthesisRequest(
    subscription: string,
    region: string,
    voice: string,
    format: AudioFormat,
    text: string)

  /** The result of `speak_text_async(text).get()`, its reasons rendered as
      the text an f-string gives, or the message of an exception raised on
      the way. */
  datatype SynthesisOutcome =
    | Completed(audio: seq<byte>)
    | Canceled(reason: string, details: string)
    | OtherReason(reason: string)
    | Raised(message: string)

  function SelectVoice(voice: string): (v: string)
    ensures v in AzureVoices
    ensures voice in AzureVoices ==> v == voice
    ensures voice !in AzureVoices ==> v == DefaultVoice
  {
    if voice !in AzureVoices then DefaultVoice else voice
  }

  /** The message of app.py:345-347. */
  function CancellationMessage(reason: string, details: string): (m: string)
    ensures StartsWith(m, "Speech synthesis canceled: " + reason)
    ensures details == [] ==> m == "Speech synthesis canceled: " + reason
    ensures details != [] ==> EndsWith(m, " - " + details) && |m| == |"Speech synthesis canceled: " + reason| + 3 + |details|
  {
    "Speech synthesis canceled: " + reason + (if details != [] then " - " + details else [])
  }

  /** The body inside the `try` of app.py:315-353. */
  function Attempt(config: AppConfig, text: string, voiceName: string,
                   synthesize: SynthesisRequest -> SynthesisOutcome): Result<seq<byte>>
  {
    var validText :- ValidateTextInput(text, SynthesisMaxLength);
    var request := SynthesisRequest(config.speechKey, config.speechRegion, SelectVoice(voiceName),
                                    Audio16Khz128KBitRateMonoMp3, validText);
    match synthesize(request)
    case Completed(audio) => Ok(audio)
    case Canceled(reason, details) => Fail(APIError, CancellationMessage(reason, details))
    case OtherReason(reason) => Fail(APIError, "Speech synthesis failed with reason: " + reason)
    case Raised(m) => Fail(APIError, m)
  }

  /** `text_to_speech_azure(config, text, voice_name, output_format)`. The
      `outputFormat` argument is accepted and not used. */
  function TextToSpeechAzure(config: AppConfig, text: string, voiceName: string, outputFormat: string,
                             synthesize: SynthesisRequest -> SynthesisOutcome): (r: Result<seq<byte>>)
    ensures r.Err? ==> r.error.kind == APIError && StartsWith(r.error.message, ErrorPrefix)
    ensures ValidateTextInput(text, SynthesisMaxLength).Err? ==>
              r == Fail(APIError, ErrorPrefix + ValidateTextInput(text, SynthesisMaxLength).error.message)
    ensures ValidateTextInput(text, SynthesisMaxLength).Ok? ==>
              var sent := synthesize(SynthesisRequest(config.speechKey, config.speechRegion, SelectVoice(voiceName),
                                                      Audio16Khz128KBitRateMonoMp3,
                                                      ValidateTextInput(text, SynthesisMaxLength).value));
              && (r.Ok? <==> sent.Completed?)
              && (sent.Completed? ==> r.value == sent.audio)
              && (sent.Canceled? ==> r.error.message == ErrorPrefix + CancellationMessage(sent.reason, sent.details))
              && (sent.OtherReason? ==> r.error.message == ErrorPrefix + "Speech synthesis failed with reason: " + sent.reason)
              && (sent.Raised? ==> r.error.message == ErrorPrefix + sent.message)
  {
    Rewrap(Attempt(config, text, voiceName, synthesize), APIError, ErrorPrefix)
  }

  lemma ContainsMiddle(a: string, part: string, b: string)
    ensures Contains(a + part + b, part)
  {
    var s := a + part + b;
    assert s[|a|..][..|part|] == part;
    assert StartsWith(s[|a|..], part);
  }

  /** The wrapped cancellation message holds the reason and any details. */
  lemma CancellationMessageShows(reason: string, details: string)
    ensures Contains(ErrorPrefix + CancellationMessage(reason, details), reason)
    ensures details != [] ==> Contains(ErrorPrefix + CancellationMessage(reason, details), details)
  {
    var head := ErrorPrefix + "Speech synthesis canceled: ";
    var tail := if details != [] then " - " + details else [];
    assert ErrorPrefix + CancellationMessage(reason, details) == head + reason + tail;
    ContainsMiddle(head, reason, tail);
    if details != [] {
      assert ErrorPrefix + CancellationMessage(reason, details) == (head + reason + " - ") + details + [];
      ContainsMiddle(head + reason + " - ", details, []);
    }
  }

  /** A cancellation's reason and, when present, its detail string reach
      the caller's message through both layers of wrapping. */
  lemma CancellationDetailsSurface(config: AppConfig, text: string, voiceName: string, outputFormat: string,
                                   synthesize: SynthesisRequest -> SynthesisOutcome, reason: string, details: string)
    requires ValidateTextInput(text, SynthesisMaxLength).Ok?
    requires synthesize(SynthesisRequest(config.speechKey, config.speechRegion, SelectVoice(voiceName),
                                         Audio16Khz128KBitRateMonoMp3,
                                         ValidateTextInput(text, SynthesisMaxLength).value)) == Canceled(reason, details)
    ensures TextToSpeechAzure(config, text, voiceName, outputFormat, synthesize).Err?
    ensures details != [] ==> Contains(TextToSpeechAzure(config, text, voiceName, outputFormat, synthesize).error.message, details)
    ensures Contains(TextToSpeechAzure(config, text, voiceName, outputFormat, synthesize).error.message, reason)
  {
    CancellationMessageShows(reason, details);
  }

  /** Whatever format is asked for, the same request goes out. */
  lemma OutputFormatIgnored(config: AppConfig, text: string, voiceName: string, f1: string, f2: string,
                            synthesize: SynthesisRequest -> SynthesisOutcome)
    ensures TextToSpeechAzure(config, text, voiceName, f1, synthesize) == TextToSpeechAzure(config, text, voiceName, f2, synthesize)
  {
  }
}
