/**
 The Generation Client, `get_openai_response` of app.py: the prompt is
 validated, the model, token limit and temperature are clamped to the
 policy rather than refused, and every failure leaves as an APIError.
 The chat-completion service is a function parameter.
 */
module Generation {
  import opened Outcomes
  import opened Strings
  import opened Validation

  const SupportedModels := ["gpt-4o", "gpt-4o-mini", "gpt-4-turbo", "gpt-3.5-turbo"]
  const DefaultModel := "gpt-4o-mini"
  /** MAX_TOKENS of app.py:62, the ceiling on requested output tokens. */
  const MaxTokens := 4000
  const DefaultTemperature: real := 0.7
  const MinTemperature: real := 0.0
  const MaxTemperature: real := 2.0
  const SystemInstruction := "You are a helpful assistant that creates engaging and informative content."
  const RequestTimeoutSeconds: real := 30.0
  const ErrorPrefix := "OpenAI API error: "

  datatype Message = Message(role: string, content: string)

  /** The arguments of `chat.completions.create`. */
  datatype GenerationRequest = GenerationRequest(
    model: string,
    messages: seq<Message>,
    maxTokens: int,
    temperature: real,
    timeout: real)

  /** What the service call yields: the first choice's message content,
      which may be None, or the message of the exception it raised. */
  datatype Completion = Content(content: Option<string>) | Raised(message: string)

  /** Unsupported models fall back to the default. */
  function SelectModel(model: string): (m: string)
    ensures m in SupportedModels
    ensures model in SupportedModels ==> m == model
    ensures model !in SupportedModels ==> m == DefaultModel
  {
    if model !in SupportedModels then DefaultModel else model
  }

  /** The token limit is capped at MAX_TOKENS; it has no lower bound. */
  function ClampMaxTokens(maxTokens: int): (n: int)
    ensures n <= MaxTokens
    ensures maxTokens <= MaxTokens ==> n == maxTokens
    ensures maxTokens > MaxTokens ==> n == MaxTokens
  {
    if maxTokens > MaxTokens then MaxTokens else maxTokens
  }

  /** A temperature outside [0, 2] is replaced by 0.7; both ends are kept. */
  function ClampTemperature(temperature: real): (t: real)
    ensures MinTemperature <= t <= MaxTemperature
    ensures MinTemperature <= temperature <= MaxTemperature ==> t == temperature
    ensures !(MinTemperature <= temperature <= MaxTemperature) ==> t == DefaultTemperature
  {
    if !(MinTemperature <= temperature <= MaxTemperature) then DefaultTemperature else temperature
  }

  /** Clamping is a projection: applied to its own output it changes nothing. */
  lemma ClampingIdempotent(model: string, maxTokens: int, temperature: real)
    ensures SelectModel(SelectModel(model)) == SelectModel(model)
    ensures ClampMaxTokens(ClampMaxTokens(maxTokens)) == ClampMaxTokens(maxTokens)
    ensures ClampTemperature(ClampTemperature(temperature)) == ClampTemperature(temperature)
  {
  }

  /** The request sent for an already validated prompt. */
  function BuildRequest(prompt: string, model: string, maxTokens: int, temperature: real): (q: GenerationRequest)
    ensures q.model in SupportedModels
    ensures q.maxTokens <= MaxTokens
    ensures MinTemperature <= q.temperature <= MaxTemperature
    ensures q.model == SelectModel(model) && q.maxTokens == ClampMaxTokens(maxTokens) && q.temperature == ClampTemperature(temperature)
    ensures |q.messages| == 2 && q.messages[1] == Message("user", prompt)
    ensures q.messages[0] == Message("system", SystemInstruction)
    ensures q.timeout == RequestTimeoutSeconds
  {
    GenerationRequest(
      SelectModel(model),
      [Message("system", SystemInstruction), Message("user", prompt)],
      ClampMaxTokens(maxTokens),
      ClampTemperature(temperature),
      RequestTimeoutSeconds)
  }

  /** The body inside the `try` of app.py:256-285; its failures are
      re-raised by the caller as APIError. */
  function Attempt(prompt: string, model: string, maxTokens: int, temperature: real,
                   complete: GenerationRequest -> Completion): Result<string>
  {
    var validPrompt :- ValidateTextInput(prompt, MaxTextLength);
    match complete(BuildRequest(validPrompt, model, maxTokens, temperature))
    case Raised(m) => Fail(APIError, m)
    case Content(c) =>
      if c.None? || c.value == [] then Fail(APIError, "Empty response from OpenAI")
      else Ok(Strip(c.value))
  }

  /** `get_openai_response(config, prompt, model, max_tokens, temperature)`. */
  function GetOpenAIResponse(prompt: string, model: string, maxTokens: int, temperature: real,
                             complete: GenerationRequest -> Completion): (r: Result<string>)
    ensures r.Err? ==> r.error.kind == APIError && StartsWith(r.error.message, ErrorPrefix)
    ensures ValidateTextInput(prompt, MaxTextLength).Err? ==>
              r == Fail(APIError, ErrorPrefix + ValidateTextInput(prompt, MaxTextLength).error.message)
    ensures ValidateTextInput(prompt, MaxTextLength).Ok? ==>
              var sent := complete(BuildRequest(ValidateTextInput(prompt, MaxTextLength).value, model, maxTokens, temperature));
              && (r.Ok? <==> sent.Content? && sent.content.Some? && sent.content.value != [])
              && (r.Ok? ==> r.value == Strip(sent.content.value))
  {
    Rewrap(Attempt(prompt, model, maxTokens, temperature, complete), APIError, ErrorPrefix)
  }

  /** An unknown model name and an out-of-range temperature are not errors:
      the request goes out with the defaults. */
  lemma UnknownModelAndHotTemperatureProceed(prompt: string, maxTokens: int,
                                             complete: GenerationRequest -> Completion)
    requires ValidateTextInput(prompt, MaxTextLength).Ok?
    ensures var q := BuildRequest(ValidateTextInput(prompt, MaxTextLength).value, "not-a-real-model", maxTokens, 5.0);
            q.model == DefaultModel && q.temperature == DefaultTemperature
  {
  }

  /** A reply of only whitespace is not refused: it comes back as "". */
  lemma BlankReplyAccepted(prompt: string, model: string, maxTokens: int, temperature: real,
                           complete: GenerationRequest -> Completion, reply: string)
    requires ValidateTextInput(prompt, MaxTextLength).Ok?
    requires complete(BuildRequest(ValidateTextInput(prompt, MaxTextLength).value, model, maxTokens, temperature)) == Content(Some(reply))
    requires reply != [] && AllSpace(reply)
    ensures GetOpenAIResponse(prompt, model, maxTokens, temperature, complete) == Ok([])
  {
  }
}
