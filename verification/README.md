# Text-to-speech content pipeline: validation, truncation and policy core

A Dafny model of the pure logic inside a Streamlit application that turns text
into speech. The text comes from a prompt, a web page or an uploaded file. An
OpenAI chat model optionally rewrites it, and Azure Speech then reads it aloud
(`app.py`, with the older `app_v2.py`). The model covers the parts that decide
what happens to the user's data:

- the **Security Validator**:
  - `validate_text_input` strips the text and checks its length. It then removes
    `<script…>…</script>` spans and `javascript:` with two left-to-right,
    case-insensitive scans.
  - `validate_url` applies the scheme and host block lists.
- the **Token-Budget Truncator** `truncate_text_smart`. It greedily cuts at
  sentence boundaries on a budget of four characters per token, and falls back
  to a character cut.
- the **parameter policy and error mapping**:
  - of the Generation Client (`get_openai_response`);
  - of the Synthesis Client (`text_to_speech_azure`);
  - of process configuration (`AppConfig`, `_get_required_env`).
- the **Input Acquirer**:
  - the metadata checks and the ordered decoding of `process_uploaded_file`;
  - the paragraph post-processing and error mapping of `extract_content_from_url`.
- the word/non-word **token truncator** `truncate_text` of `app_v2.py`.

Every operation that can fail returns a `Result`: either a value or an error of one of the three
kinds `ConfigurationError`, `APIError` and `SecurityError`. Services the code calls
are function parameters:
- `validators.url` and `urlparse`;
- the UTF-8 and cp1252 decoders;
- the chat-completion service;
- the speech synthesizer;
- the HTTP fetch together with HTML parsing.

The contracts therefore hold for every behaviour of those services. The
classifier behind `\w` is a parameter too.

Modules, one per file:

- `Outcomes`: error kinds, `Option`, `Result` and the re-wrapping of errors.
- `Strings`: Python's `str.strip` over the `str.isspace` characters, slicing with a possibly negative bound, and decimal rendering.
- `Sanitize`: the two `re.sub` removals.
- `Validation`: the two validators.
- `Truncation`: `truncate_text_smart`, including `re.split(r'[.!?]+')`.
- `Config`, `Generation`, `Synthesis` and `Acquisition`: the clients and the acquirer.
- `TokenTruncation`: `truncate_text` of `app_v2.py`.

## Model

| member | source | states |
|---|---|---|
| Outcomes.Rewrap | app.py:287-290 | A value passes through unchanged. An error becomes the given kind, with the prefix put in front of its message. |
| Strings.Strip | app.py:143 | The result is the slice of the input left after removing leading and trailing whitespace. That whitespace is all `isspace` characters, and the result starts and ends with a non-space. It is empty exactly when the input is all whitespace. |
| Strings.StripFixed | app.py:143 | Stripping a text with no whitespace at either end returns it unchanged. |
| Strings.PyPrefix | app.py:227 | `xs[:n]` keeps min(n, len) elements for n ≥ 0. For negative n it keeps len+n elements, and none when that is not positive. The result is always a prefix. |
| Sanitize.MatchEnd | app.py:149-150 | Where a match starting exactly at a position ends. Any match ends strictly later and within the text, so neither pattern matches the empty string. `javascript:` matches exactly where the eleven letters occur, ignoring case, and spans them. |
| Sanitize.ScriptMatchShape | app.py:149 | A script match starts with `<script` and ends with `</script>`, with at least one `>` between them. Without `<script` at a position, no match starts there. |
| Sanitize.ScriptMatchIsLazy | app.py:149 | Both `.*?` are lazy. Let `j` be the first `>` after `<script`. A match exists exactly when some `</script>` starts after `j`, and it ends at the first such `</script>`. |
| Sanitize.ScriptMatchNeedsClosingBracket | app.py:149 | With no `>` after `<script`, no match starts there. |
| Sanitize.Remove | app.py:149-150 | The `re.sub` scan never lengthens the text. Its partner `Sanitize.RemoveUnchangedIff` states when it changes the text at all. |
| Sanitize.RemoveUnchangedIff | app.py:149-150 | A removal leaves the text unchanged exactly when the pattern occurs nowhere in it. Any occurrence makes the text strictly shorter. |
| Sanitize.ScriptRemovalIsSinglePass | app.py:149 | `<scr<script></script>ipt>x</script>` holds a script span. Removing it yields `<script>x</script>`, which still holds one. |
| Validation.Sanitized | app.py:148-150 | Applying the script removal and then the `javascript:` removal never lengthens the text. Its partner `Validation.ValidatePreservesExactlyClean` states that the text is unchanged exactly when it holds neither pattern. |
| Validation.ValidateTextInput | app.py:126-152 | Fails with SecurityError exactly on the empty string or a stripped text longer than the bound. The bound is checked before sanitising, so an accepted result is no longer than the bound. A clean stripped text comes back as it is. Non-empty all-whitespace text is accepted as "". |
| Validation.ValidatePreservesExactlyClean | app.py:143-152 | An accepted text equals its stripped input exactly when that input holds no script span and no `javascript:`. Otherwise it is strictly shorter. |
| Validation.ValidatedTextMayHoldScript | app.py:149-152 | Validating `<scr<script></script>ipt>x</script>` succeeds with `<script>x</script>`. That result is not clean. |
| Validation.BlockedHost | app.py:185-194 | A missing host is never blocked. A present host is blocked exactly when it is `localhost`, `127.0.0.1` or `0.0.0.0`, or starts with `192.168.`, `10.` or `172.`. These are plain text tests, and `PrivateDottedQuadBlocked`, `PublicAddressUnder172Blocked` and `OtherLoopbackAddressPasses` show what they do to addresses. |
| Validation.ValidateUrl | app.py:155-196 | Succeeds, returning the stripped URL, exactly when all of these hold: the URL is non-empty; `validators.url` accepts it; the scheme is http or https; the host is not one of the three local names; the host starts with none of `192.168.`, `10.`, `172.`. Every failure is a SecurityError. |
| Validation.PrivateDottedQuadBlocked | app.py:189-194 | Every RFC 1918 address written as a dotted quad (10/8, 172.16/12, 192.168/16) is a blocked host. |
| Validation.PublicAddressUnder172Blocked | app.py:189-194 | 172.32.0.1 is outside RFC 1918 and is still blocked. |
| Validation.OtherLoopbackAddressPasses | app.py:185-194 | 127.0.0.2, a loopback address, is not blocked. Only the literal 127.0.0.1 is. |
| Validation.PrivateHostUrlRejected | app.py:185-194 | A URL whose parsed host is a private dotted quad is refused with a SecurityError. |
| Truncation.SplitSentences | app.py:217 | `re.split(r'[.!?]+')` yields at least one piece, and no piece contains a terminator. |
| Truncation.Separators | app.py:217 | The terminator runs `re.split` drops, one fewer than the pieces it returns. |
| Truncation.SplitSentencesPartition | app.py:217 | Putting the dropped terminator runs back between the pieces rebuilds the text. |
| Truncation.SeparatorsAreMaximalRuns | app.py:217 | Every dropped separator is a non-empty run of `.`, `!`, `?`. |
| Truncation.InteriorPiecesNonEmpty | app.py:217 | Only the first and the last piece can be empty, so every dropped run is maximal. |
| Truncation.TakeWhileFits | app.py:218-223 | The sentence loop stops at the first piece whose addition would exceed the budget. Every earlier piece fit, so none is skipped. |
| Truncation.GreedyUnique | app.py:220-223 | That stopping point is unique. |
| Truncation.TakenShape | app.py:220-229 | Once at least one piece is taken, the built text ends in ". ", is not blank, and is at most budget+1 characters after stripping. |
| Truncation.TakenHasNoBangOrQuestion | app.py:220-223 | The built text never contains `!` or `?`. |
| Truncation.SentencePathFacts | app.py:218-229 | The built text is blank exactly when no piece was taken. Otherwise its stripped form is at most budget+1 characters and has no `!` or `?`. |
| Truncation.TruncateTextSmart | app.py:199-229 | Text within 4·max_tokens is returned unstripped. When even the first piece does not fit, the result is the stripped character cut. Otherwise the result has no `!` or `?`. For max_tokens ≥ 0 the length is at most 4·max_tokens+1. |
| Truncation.TruncateTextSmartIsGreedy | app.py:214-229 | Past the budget, once the greedy loop has taken at least one piece, the result is the stripped concatenation of the pieces taken, each followed by ". ". No piece is skipped. |
| Truncation.NegativeBudgetCutsFromEnd | app.py:211-227 | A negative max_tokens always takes the character cut, and that cut drops characters from the end. |
| Truncation.SentencePathOvershootsByOne | app.py:218-229 | With a budget of one token, "abcd.efgh" becomes "abcd.", five characters for a budget of four. |
| Config.GetRequiredEnv | app.py:108-123 | Succeeds exactly when the variable is set and its stripped value has at least 10 characters, and then returns that stripped value. A missing or empty value and a short value each fail with their own ConfigurationError message. |
| Config.GetRequiredEnvStable | app.py:111-123 | Storing the accepted value back and reading again gives the same result. |
| Config.BlankSecretTooShort | app.py:118-121 | A non-empty all-whitespace value is reported as too short, not as missing. |
| Config.LoadConfig | app.py:95-106 | Succeeds exactly when all three secrets are plausible and the client builds, and then holds the stripped secrets. The OpenAI key, the speech key and the region are read in that order, and the first one's failure is the error reported. When all three are accepted, a client build failure is reported as a ConfigurationError carrying its message. |
| Generation.SelectModel | app.py:259-260 | The result is always a supported model. A supported model is kept; any other becomes gpt-4o-mini. |
| Generation.ClampMaxTokens | app.py:262-263 | The result never exceeds 4000. Values up to 4000 are kept, however small. |
| Generation.ClampTemperature | app.py:265-266 | The result lies in [0, 2]. A value in [0, 2], both ends included, is kept; any other becomes 0.7. |
| Generation.ClampingIdempotent | app.py:259-266 | Applying any of the three clamps twice gives the same result as applying it once. |
| Generation.BuildRequest | app.py:270-279 | The request carries the clamped arguments: the selected model, the capped token limit and the clamped temperature. So the model is supported, the limit is at most 4000 and the temperature is in [0, 2]. It also carries the system instruction then the user prompt, and a 30-second timeout. |
| Generation.GetOpenAIResponse | app.py:255-290 | Every failure is an APIError prefixed "OpenAI API error: ", a SecurityError from prompt validation included. Success comes exactly when the reply content is present and non-empty, and the result is then that content stripped. |
| Generation.UnknownModelAndHotTemperatureProceed | app.py:259-266 | An unknown model and a temperature of 5.0 are not errors. The request goes out with gpt-4o-mini and 0.7. |
| Generation.BlankReplyAccepted | app.py:281-285 | A whitespace-only reply is accepted and returned as "". |
| Synthesis.SelectVoice | app.py:317-318 | The result is always a known voice. A known voice is kept; any other becomes en-US-AriaNeural. |
| Synthesis.TextToSpeechAzure | app.py:313-358 | The text is validated against 10000 characters. Success comes exactly when synthesis completes, and returns its audio. A cancellation and any other reason each give their own message. Every failure is an APIError prefixed "Azure Speech synthesis error: ". |
| Synthesis.CancellationMessage | app.py:345-347 | The message starts with "Speech synthesis canceled: " and the reason. With no details it is exactly that. Otherwise it ends in " - " and the details, with nothing else added. |
| Synthesis.CancellationMessageShows | app.py:343-349 | The cancellation message contains the reason, and the details when they are non-empty. |
| Synthesis.CancellationDetailsSurface | app.py:343-358 | After both layers of wrapping, the caller's error message still contains the cancellation reason and any details. |
| Synthesis.OutputFormatIgnored | app.py:292-329 | The output-format argument has no effect on the outcome. |
| Acquisition.Latin1RoundTrip | app.py:470-472 | Latin-1 decoding loses nothing: encoding the decoded text gives back the bytes. |
| Acquisition.Decode | app.py:470-472 | Latin-1 always succeeds and gives one character per byte. UTF-8 and cp1252 give what their codecs give. utf-8-sig is UTF-8 when the data does not start with a byte order mark. |
| Acquisition.Utf8SigSkipsOneBom | app.py:470-472 | utf-8-sig decodes the data after one leading byte order mark as UTF-8. A second mark is left in place for UTF-8 to decode. |
| Acquisition.FirstDecoding | app.py:470-475 | The result is the text of the first encoding in the list that decodes the bytes, and is None only when every encoding fails. |
| Acquisition.DecodingNeverExhausted | app.py:470-477 | Latin-1 always decodes, so the decoding loop always returns and "Unable to decode" is never raised. |
| Acquisition.DecodeText | app.py:470-477 | The bytes are validated as the text of the first encoding that decodes them. |
| Acquisition.ProcessUploadedFile | app.py:447-484 | Every failure is a SecurityError. The checks run in order, each with its own message: missing file, size over 10 MiB (exactly 10 MiB passes), media type, `.txt` name, read failure. Each check's message is given only when every earlier check passed. Past them, the result is the validation of the first successful decoding, and a success is at most 50000 characters. |
| Acquisition.OnlyUtf8OrLatin1Chosen | app.py:470-475 | When UTF-8 treats a byte order mark as an ordinary character, the text comes from UTF-8 or else Latin-1. utf-8-sig and cp1252 are never used. |
| Acquisition.Utf8DecodedTextIsValidated | app.py:470-475 | A file that decodes as UTF-8 gives exactly the validation of that text. A SecurityError from validation does not lead to another encoding. |
| Acquisition.SizeLimitInclusive | app.py:452-454 | A file of exactly 10485760 bytes passes the size check. |
| Acquisition.HasTextExtension | app.py:460-462 | A name passes exactly when it has at least four characters and its last four, lowered, are `.`, `t`, `x`, `t`. |
| Acquisition.UpperCaseExtensionAccepted | app.py:461-462 | The extension check lowers the name first, so NOTES.TXT is accepted. |
| Acquisition.NonBlankParagraphs | app.py:419 | The kept paragraphs are stripped and non-blank, and are no more than the input. None is kept exactly when every paragraph is blank. |
| Acquisition.NonBlankParagraph | app.py:419 | A single paragraph is kept, stripped, exactly when it is not blank. |
| Acquisition.NonBlankParagraphsAppend | app.py:419 | Filtering a concatenation gives the concatenation of the filtered parts. |
| Acquisition.JoinedWordsTrimmed | app.py:419 | Joining trimmed non-empty words with single spaces gives a trimmed text, which is empty only for no words. |
| Acquisition.ParagraphText | app.py:416-419 | The joined text is empty exactly when every paragraph in the first max_paragraphs is blank. Otherwise it has no boundary whitespace. |
| Acquisition.PageText | app.py:397-424 | An HTML page with at least one paragraph and non-blank joined text gives exactly the validation of that text, and only such a page succeeds. A clean text comes back verbatim. A fetch failure gives its message as an APIError. A non-HTML page, a page without paragraphs and a page without readable text each give their own APIError message. The only SecurityError is a joined text over 50000 characters. |
| Acquisition.ExtractContentFromUrl | app.py:376-431 | A URL validation error is returned as it is. A SecurityError from the page's text passes through. Every other failure is an APIError prefixed "Content extraction error: ". |
| Acquisition.BlockedUrlNeverFetched | app.py:376-388 | A URL the validator refuses gives the same SecurityError whatever the fetch would return. |
| Acquisition.IsHtml | app.py:397-399 | The content type counts as HTML exactly when `text/html` occurs in it at some position once its characters are lowered. |
| Acquisition.LoweredContainsHtml | app.py:397-399 | Searching the lowered content type for `text/html` finds it exactly at the positions where the character-wise test holds. |
| Acquisition.NonHtmlPageRefused | app.py:397-431 | A page with another content type is refused with the wrapped "URL does not return HTML content". |
| Acquisition.OnlyFirstParagraphsRead | app.py:416-422 | If every paragraph among the first max_paragraphs is blank, the joined text is empty, whatever later paragraphs hold. |
| Acquisition.ParagraphsAfterDefaultLimitIgnored | app.py:361-419 | With the default `max_paragraphs` of 50, paragraphs after the fiftieth never change the text read from the page. |
| TokenTruncation.Tokens | app_v2.py:12 | `re.findall(r'\w+\|\W+')` finds no run in the empty text and at least one in any other. The first run starts with the text's first character. There are never more runs than characters. |
| TokenTruncation.RunLength | app_v2.py:12 | One match of the word-or-non-word pattern at the front consumes the longest non-empty run of one class. |
| TokenTruncation.RunLengthUnique | app_v2.py:12 | A run ends exactly where the class first changes. |
| TokenTruncation.TokensWellFormed | app_v2.py:12 | The tokens are non-empty, each of one class, and adjacent tokens alternate word and non-word. |
| TokenTruncation.TokensPartition | app_v2.py:12 | Concatenating the tokens gives the text back. |
| TokenTruncation.TokensUnique | app_v2.py:12 | Any sequence of non-empty, one-class, alternating runs that concatenates to the text is the tokenisation. |
| TokenTruncation.JoinedRunsPrefix | app_v2.py:12-14 | The first k tokens joined form a prefix of the text whose own tokens are exactly those k. |
| TokenTruncation.TruncateText | app_v2.py:11-14 | The result is a prefix of the text made of whole leading tokens: min(n, count) of them for n ≥ 0, and count+n (at least 0) for negative n. |
| TokenTruncation.TruncateWithinBudget | app_v2.py:11-14 | With n at least the token count, the text is returned unchanged. |
| TokenTruncation.TruncateEmpty | app_v2.py:11-14 | The empty text truncates to the empty text. |
| TokenTruncation.TruncatedIsJoinedRuns | app_v2.py:11-14 | The result is the concatenation of the text's first tokens. |
| TokenTruncation.TruncateMonotone | app_v2.py:11-14 | A larger non-negative budget yields an extension of what a smaller one yields. |
| TokenTruncation.TruncateIdempotent | app_v2.py:11-14 | Truncating again with the same non-negative budget changes nothing. |

## Where the code and its documented intent differ

The model follows the code. Each item names where the intent is stated:

- **Script removal is one pass.** The comment at app.py:148 says the two substitutions remove potential XSS content. The removal can instead join the text around an inner element into a new `<script…>…</script>` span, and that span stays in the validated output. See `Sanitize.ScriptRemovalIsSinglePass` and `Validation.ValidatedTextMayHoldScript`.
- **Private hosts are matched by prefix.** The comment at app.py:188 says private IP ranges are blocked. The textual prefixes do not match those ranges:
  - every host beginning with `172.` is blocked, not only 172.16.0.0/12;
  - of the loopback range, only the literal `127.0.0.1` is blocked (app.py:185).
- **The sentence path can overshoot.** The docstring at app.py:201 promises to stay within token limits. The budget test runs before ". " is appended, so after stripping the result can be one character longer than 4·max_tokens.
- **The decoding error cannot happen.** The encoding list at app.py:470 ends with cp1252, and app.py:477 raises "Unable to decode file content" when every encoding fails. Latin-1 comes third and decodes every byte string, so cp1252 is never tried and that error is never raised.

One further observation about the code, which app.py neither promises nor rules out: `get_openai_response` returns the model's stripped content without passing it through the validator (app.py:280-285).

## Left out

- The Streamlit interface (`create_streamlit_interface`, `main`, every `st.*` call), logging and `load_dotenv`: UI and process wiring with no checked behaviour.
- The chat-completion service, the Azure Speech SDK, `requests.get` and BeautifulSoup parsing: external services, taken as function parameters. Consequences:
  - script and style removal before paragraph extraction belongs to the parser and is not modelled;
  - so are the HTTP headers, redirects and timeouts of the fetch.
- The internals of `validators.url`, `urlparse` and the UTF-8 and cp1252 codecs: library code, taken as parameters. utf-8-sig is modelled as UTF-8 after skipping one leading byte order mark.
- Non-string arguments (`isinstance` checks): the model is typed, so only the empty-string half of those guards exists.
- `app_v2.py` beyond `truncate_text`: its OpenAI, Azure and SSML calls and its `speech.wav` output are I/O.
- Acquisition.HasTextExtension: lowers only ASCII letters, because no other character lowers to `.`, `t` or `x`. The suffix test is therefore unaffected by Unicode lowering.
- Acquisition.IsHtml: lowers only ASCII letters, because no other character lowers to any of `t`, `e`, `x`, `/`, `h`, `m`, `l`. The substring test is therefore unaffected by Unicode lowering.
- Generation.ClampTemperature: temperature is a `real`, not a binary float. It is used only in comparisons, so rounding plays no part.
- Synthesis.TextToSpeechAzure: the SDK's result reasons are taken as the strings their f-string rendering gives. The audio format is the single one the code configures.
- Config.LoadConfig: building the OpenAI client is reduced to an optional failure message. The client object is represented by the completion function that `Generation.GetOpenAIResponse` takes.
- The character class of `\w` (Unicode letters, digits, underscore) is a parameter of `TokenTruncation`. The pattern letters' case folding in `Sanitize` covers ASCII plus the special cases Python's engine applies to `s` and `i`.
