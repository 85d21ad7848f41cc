/**
 The Input Acquirer for uploaded files and web pages: the checks and the
 ordered decoding of `process_uploaded_file`, and the paragraph
 post-processing and error mapping of `extract_content_from_url` (app.py).
 The HTTP fetch with HTML parsing, and the UTF-8 and cp1252 decoders, are
 function parameters.
 */
module Acquisition {
  import opened Outcomes
  import opened Strings
  import opened Validation

  /** MAX_FILE_SIZE of app.py:63: 10 MiB. */
  const MaxFileSize := 10 * 1024 * 1024
  const AllowedMediaTypes := ["text/plain", "application/octet-stream"]
  const TextExtension := ".txt"

  /** The parts of a Streamlit upload the checks read. `size` is None when
      the object has no `size` attribute; `readFailure` is the message of an
      exception `read()` raises, if it raises one. */
  datatype UploadedFile = UploadedFile(
    size: Option<int>,
    data: seq<byte>,
    mediaType: string,
    name: string,
    readFailure: Option<string>)

  /** The size the check reads (app.py:452). */
  function DeclaredSize(f: UploadedFile): int {
    if f.size.Some? then f.size.value else |f.data|
  }

  /** `name.lower().endswith('.txt')`. No character other than the ASCII
      upper-case letters lowers to '.', 't' or 'x', so lowering the ASCII
      letters decides the suffix. */
  function HasTextExtension(name: string): (b: bool)
    ensures b <==> && |name| >= 4
                   && LowerAscii(name[|name| - 4]) == '.' && LowerAscii(name[|name| - 3]) == 't'
                   && LowerAscii(name[|name| - 2]) == 'x' && LowerAscii(name[|name| - 1]) == 't'
  {
    var lowered := LowerAsciiString(name);
    if |name| >= 4 then
      assert lowered[|name| - 4..] == [lowered[|name| - 4], lowered[|name| - 3], lowered[|name| - 2], lowered[|name| - 1]];
      EndsWith(lowered, TextExtension)
    else
      EndsWith(lowered, TextExtension)
  }

  /** The metadata checks of app.py:453-462, all passed. */
  predicate PassesChecks(f: UploadedFile) {
    && DeclaredSize(f) <= MaxFileSize
    && f.mediaType in AllowedMediaTypes
    && HasTextExtension(f.name)
  }

  datatype Encoding = Utf8 | Utf8Sig | Latin1 | Cp1252

  /** The order of app.py:470. */
  const EncodingOrder := [Utf8, Utf8Sig, Latin1, Cp1252]

  /** `bytes.decode` for the two codecs whose tables this model does not
      hold: None stands for UnicodeDecodeError. */
  datatype Decoders = Decoders(utf8: seq<byte> -> Option<string>, cp1252: seq<byte> -> Option<string>)

  const Bom: seq<byte> := [0xEF, 0xBB, 0xBF]

  predicate StartsWithBom(data: seq<byte>) {
    |data| >= 3 && data[..3] == Bom
  }

  /** Latin-1 maps every byte to the code point of the same value. */
  function Latin1Decode(b: seq<byte>): (s: string)
    ensures |s| == |b|
    ensures forall i :: 0 <= i < |b| ==> s[i] as int == b[i] as int
  {
    seq(|b|, i requires 0 <= i < |b| => (b[i] as int) as char)
  }

  function Latin1Encode(s: string): (b: seq<byte>)
    requires forall i :: 0 <= i < |s| ==> s[i] as int < 256
    ensures |b| == |s|
  {
    seq(|s|, i requires 0 <= i < |s| => (s[i] as int) as byte)
  }

  /** Latin-1 decoding loses nothing: encoding gives the bytes back. */
  lemma Latin1RoundTrip(b: seq<byte>)
    ensures Latin1Encode(Latin1Decode(b)) == b
  {
  }

  /** `data.decode(encoding)`. utf-8-sig skips one leading byte order mark
      and otherwise decodes as UTF-8. */
  function Decode(decoders: Decoders, encoding: Encoding, data: seq<byte>): (r: Option<string>)
    ensures encoding == Latin1 ==> r.Some? && |r.value| == |data|
    ensures encoding == Utf8Sig && !StartsWithBom(data) ==> r == decoders.utf8(data)
    ensures encoding == Utf8 ==> r == decoders.utf8(data)
    ensures encoding == Cp1252 ==> r == decoders.cp1252(data)
  {
    match encoding
    case Utf8 => decoders.utf8(data)
    case Utf8Sig => if StartsWithBom(data) then decoders.utf8(data[3..]) else decoders.utf8(data)
    case Latin1 => Some(Latin1Decode(data))
    case Cp1252 => decoders.cp1252(data)
  }

  /** utf-8-sig drops exactly one leading byte order mark: a second one is
      left for UTF-8 to decode. */
  lemma Utf8SigSkipsOneBom(decoders: Decoders, rest: seq<byte>)
    ensures Decode(decoders, Utf8Sig, Bom + rest) == decoders.utf8(rest)
    ensures Decode(decoders, Utf8Sig, Bom + Bom + rest) == decoders.utf8(Bom + rest)
  {
    assert (Bom + rest)[..3] == Bom && (Bom + rest)[3..] == rest;
    assert (Bom + Bom + rest)[..3] == Bom && (Bom + Bom + rest)[3..] == Bom + rest;
  }

  /** The text of the first encoding in `order` that decodes `data`. */
  function FirstDecoding(decoders: Decoders, order: seq<Encoding>, data: seq<byte>): (r: Option<string>)
    ensures r.None? <==> forall i :: 0 <= i < |order| ==> Decode(decoders, order[i], data).None?
    ensures r.Some? ==> exists i :: 0 <= i < |order| && Decode(decoders, order[i], data) == r &&
                                   forall j :: 0 <= j < i ==> Decode(decoders, order[j], data).None?
    decreases |order|
  {
    if |order| == 0 then None
    else
      var d := Decode(decoders, order[0], data);
      if d.Some? then d
      else
        var rest := FirstDecoding(decoders, order[1..], data);
        assert forall i :: 1 <= i < |order| ==> order[1..][i - 1] == order[i];
        rest
  }

  /** Latin-1 never fails, so the loop of app.py:470-475 always returns and
      the error of app.py:477 cannot be raised. */
  lemma DecodingNeverExhausted(decoders: Decoders, data: seq<byte>)
    ensures FirstDecoding(decoders, EncodingOrder, data).Some?
  {
    assert Decode(decoders, EncodingOrder[2], data).Some?;
  }

  /** The decoding loop of app.py:470-477 and the validation of its text. */
  function DecodeText(data: seq<byte>, decoders: Decoders): (r: Result<string>)
    ensures FirstDecoding(decoders, EncodingOrder, data).Some?
    ensures r == ValidateTextInput(FirstDecoding(decoders, EncodingOrder, data).value, MaxTextLength)
  {
    DecodingNeverExhausted(decoders, data);
    match FirstDecoding(decoders, EncodingOrder, data)
    case Some(text) => ValidateTextInput(text, MaxTextLength)
    case None => Fail(SecurityError, "Unable to decode file content. Please ensure it's a valid text file.")
  }

  /** `process_uploaded_file(uploaded_file)`; None is a missing upload. */
  function ProcessUploadedFile(file: Option<UploadedFile>, decoders: Decoders): (r: Result<string>)
    ensures r.Err? ==> r.error.kind == SecurityError
    ensures file.None? ==> r == Fail(SecurityError, "No file uploaded")
    ensures file.Some? && DeclaredSize(file.value) > MaxFileSize ==>
              r == Fail(SecurityError, "File too large: " + IntToString(DeclaredSize(file.value)) + " bytes (max: " + IntToString(MaxFileSize) + ")")
    ensures file.Some? && DeclaredSize(file.value) <= MaxFileSize && file.value.mediaType !in AllowedMediaTypes ==>
              r == Fail(SecurityError, "Invalid file type: " + file.value.mediaType + ". Only .txt files are allowed.")
    ensures file.Some? && DeclaredSize(file.value) <= MaxFileSize && file.value.mediaType in AllowedMediaTypes &&
            !HasTextExtension(file.value.name) ==>
              r == Fail(SecurityError, "Only .txt files are allowed")
    ensures r.Ok? ==> file.Some? && PassesChecks(file.value) && file.value.readFailure.None?
    ensures r.Ok? ==> |r.value| <= MaxTextLength
    ensures file.Some? && PassesChecks(file.value) && file.value.readFailure.Some? ==>
              r == Fail(SecurityError, "File processing error: " + file.value.readFailure.value)
    ensures file.Some? && PassesChecks(file.value) && file.value.readFailure.None? ==>
              FirstDecoding(decoders, EncodingOrder, file.value.data).Some? &&
              r == ValidateTextInput(FirstDecoding(decoders, EncodingOrder, file.value.data).value, MaxTextLength)
  {
    match file
    case None => Fail(SecurityError, "No file uploaded")
    case Some(f) =>
      var size := DeclaredSize(f);
      if size > MaxFileSize then
        Fail(SecurityError, "File too large: " + IntToString(size) + " bytes (max: " + IntToString(MaxFileSize) + ")")
      else if f.mediaType !in AllowedMediaTypes then
        Fail(SecurityError, "Invalid file type: " + f.mediaType + ". Only .txt files are allowed.")
      else if !HasTextExtension(f.name) then
        Fail(SecurityError, "Only .txt files are allowed")
      else if f.readFailure.Some? then
        Fail(SecurityError, "File processing error: " + f.readFailure.value)
      else
        DecodeText(f.data, decoders)
  }

  /** Whatever the first two decoders make of a text, when UTF-8 treats a
      leading byte order mark as an ordinary character (it decodes as
      U+FEFF), the text comes from UTF-8 or else from Latin-1: utf-8-sig and
      cp1252 are never the ones chosen. */
  lemma OnlyUtf8OrLatin1Chosen(decoders: Decoders, data: seq<byte>)
    requires StartsWithBom(data) ==> (decoders.utf8(data).Some? <==> decoders.utf8(data[3..]).Some?)
    ensures decoders.utf8(data).Some? ==> FirstDecoding(decoders, EncodingOrder, data) == decoders.utf8(data)
    ensures decoders.utf8(data).None? ==> FirstDecoding(decoders, EncodingOrder, data) == Some(Latin1Decode(data))
  {
    assert EncodingOrder[1..][1..] == [Latin1, Cp1252];
  }

  /** A text that decodes as UTF-8 is validated as such, even when its
      validation fails: a SecurityError is not a decoding error, so no
      later encoding is tried. */
  lemma Utf8DecodedTextIsValidated(file: UploadedFile, decoders: Decoders, text: string)
    requires PassesChecks(file) && file.readFailure.None?
    requires decoders.utf8(file.data) == Some(text)
    ensures ProcessUploadedFile(Some(file), decoders) == ValidateTextInput(text, MaxTextLength)
  {
  }

  /** A file of exactly MAX_FILE_SIZE bytes is within the limit. */
  lemma SizeLimitInclusive(file: UploadedFile, decoders: Decoders)
    requires DeclaredSize(file) == MaxFileSize
    requires file.mediaType == "text/plain" && HasTextExtension(file.name) && file.readFailure.None?
    ensures ProcessUploadedFile(Some(file), decoders) == DecodeText(file.data, decoders)
  {
  }

  /** The extension check lowers the name first: "NOTES.TXT" is accepted. */
  lemma UpperCaseExtensionAccepted()
    ensures HasTextExtension("NOTES.TXT")
  {
    assert LowerAsciiString("NOTES.TXT") == "notes.txt";
  }

  /** The default of max_paragraphs (app.py:361). */
  const MaxParagraphs := 50
  const ContentErrorPrefix := "Content extraction error: "

  /** What the HTTP fetch and the HTML parser of app.py:388-410 yield: the
      content-type header ("" when absent) and the text of every paragraph
      element once script and style elements are removed, or the message of
      the exception raised on the way (network failure, HTTP error status). */
  datatype FetchOutcome =
    | Fetched(contentType: string, paragraphs: seq<string>)
    | FetchFailed(message: string)

  const HtmlMediaType := "text/html"

  /** `'text/html' in content_type.lower()`: a substring search that ignores
      ASCII case. */
  function IsHtml(contentType: string): (b: bool)
    ensures b <==> exists i: nat :: HtmlAt(contentType, i)
  {
    LoweredContainsHtml(contentType);
    Contains(LowerAsciiString(contentType), HtmlMediaType)
  }

  /** `text/html` occurs at position `i` of `contentType` once each of its
      characters is lowered. */
  predicate HtmlAt(contentType: string, i: nat) {
    i + |HtmlMediaType| <= |contentType| &&
      forall k :: 0 <= k < |HtmlMediaType| ==> LowerAscii(contentType[i + k]) == HtmlMediaType[k]
  }

  lemma HtmlAtLowered(contentType: string, i: nat)
    requires i <= |contentType|
    ensures HtmlAt(contentType, i) <==> StartsWith(LowerAsciiString(contentType)[i..], HtmlMediaType)
  {
    var lowered := LowerAsciiString(contentType)[i..];
    if i + |HtmlMediaType| <= |contentType| {
      assert forall k :: 0 <= k < |HtmlMediaType| ==> lowered[..|HtmlMediaType|][k] == LowerAscii(contentType[i + k]);
    }
  }

  /** Searching the lowered text for `text/html` finds it exactly where
      `HtmlAt` holds. */
  lemma LoweredContainsHtml(contentType: string)
    ensures Contains(LowerAsciiString(contentType), HtmlMediaType) <==> exists i: nat :: HtmlAt(contentType, i)
  {
    var lowered := LowerAsciiString(contentType);
    if Contains(lowered, HtmlMediaType) {
      var i :| 0 <= i <= |lowered| && StartsWith(lowered[i..], HtmlMediaType);
      HtmlAtLowered(contentType, i);
    }
    if exists i: nat :: HtmlAt(contentType, i) {
      var i: nat :| HtmlAt(contentType, i);
      HtmlAtLowered(contentType, i);
    }
  }

  /** A non-empty word without leading or trailing whitespace. */
  predicate Trimmed(w: string) {
    w != [] && !IsSpace(w[0]) && !IsSpace(w[|w| - 1])
  }

  /** The stripped paragraphs that are not blank, in order. */
  function NonBlankParagraphs(ps: seq<string>): (r: seq<string>)
    ensures |r| <= |ps|
    ensures r == [] <==> forall i :: 0 <= i < |ps| ==> AllSpace(ps[i])
    ensures forall i :: 0 <= i < |r| ==> Trimmed(r[i])
    decreases |ps|
  {
    if |ps| == 0 then []
    else
      var rest := NonBlankParagraphs(ps[1..]);
      assert forall j :: 1 <= j < |ps| ==> ps[1..][j - 1] == ps[j];
      if AllSpace(ps[0]) then rest else [Strip(ps[0])] + rest
  }

  /** One paragraph is kept, stripped, exactly when it is not blank. */
  lemma NonBlankParagraph(p: string)
    ensures NonBlankParagraphs([p]) == if AllSpace(p) then [] else [Strip(p)]
  {
    assert [p][1..] == [];
  }

  /** Filtering distributes over concatenation: each paragraph is kept or
      dropped on its own. */
  lemma {:induction false} NonBlankParagraphsAppend(ps: seq<string>, qs: seq<string>)
    ensures NonBlankParagraphs(ps + qs) == NonBlankParagraphs(ps) + NonBlankParagraphs(qs)
    decreases |ps|
  {
    if |ps| == 0 {
      assert ps + qs == qs;
    } else {
      assert (ps + qs)[1..] == ps[1..] + qs;
      NonBlankParagraphsAppend(ps[1..], qs);
    }
  }

  /** Joining words that have no boundary whitespace with single spaces
      gives a text with none either, and an empty text only for no words. */
  lemma {:induction false} JoinedWordsTrimmed(parts: seq<string>)
    requires forall i :: 0 <= i < |parts| ==> Trimmed(parts[i])
    ensures Join(parts, " ") == [] <==> parts == []
    ensures parts != [] ==> Trimmed(Join(parts, " "))
    decreases |parts|
  {
    if |parts| > 1 {
      JoinedWordsTrimmed(parts[1..]);
    }
  }

  /** The `' '.join(...)` of app.py:416-419. */
  function ParagraphText(paragraphs: seq<string>, maxParagraphs: int): (t: string)
    ensures t == [] <==> forall i :: 0 <= i < |PyPrefix(paragraphs, maxParagraphs)| ==> AllSpace(PyPrefix(paragraphs, maxParagraphs)[i])
    ensures t != [] ==> !IsSpace(t[0]) && !IsSpace(t[|t| - 1])
  {
    var kept := NonBlankParagraphs(PyPrefix(paragraphs, maxParagraphs));
    JoinedWordsTrimmed(kept);
    Join(kept, " ")
  }

  /** What app.py:397-424 makes of a fetched page. */
  function PageText(page: FetchOutcome, maxParagraphs: int): (r: Result<string>)
    ensures r.Err? ==> r.error.kind == SecurityError || r.error.kind == APIError
    ensures page.FetchFailed? ==> r == Fail(APIError, page.message)
    ensures r.Ok? ==>
              && page.Fetched? && IsHtml(page.contentType) && page.paragraphs != []
              && ParagraphText(page.paragraphs, maxParagraphs) != []
              && r == ValidateTextInput(ParagraphText(page.paragraphs, maxParagraphs), MaxTextLength)
    ensures r.Ok? && Clean(ParagraphText(page.paragraphs, maxParagraphs)) ==>
              r.value == ParagraphText(page.paragraphs, maxParagraphs)
    ensures r.Err? && r.error.kind == SecurityError ==>
              page.Fetched? && |ParagraphText(page.paragraphs, maxParagraphs)| > MaxTextLength
    ensures page.Fetched? && IsHtml(page.contentType) && page.paragraphs != [] &&
            ParagraphText(page.paragraphs, maxParagraphs) != [] ==>
              r == ValidateTextInput(ParagraphText(page.paragraphs, maxParagraphs), MaxTextLength)
    ensures page.Fetched? && !IsHtml(page.contentType) ==>
              r == Fail(APIError, "URL does not return HTML content")
    ensures page.Fetched? && IsHtml(page.contentType) && page.paragraphs == [] ==>
              r == Fail(APIError, "No paragraph content found on the page")
    ensures page.Fetched? && IsHtml(page.contentType) && page.paragraphs != [] &&
            ParagraphText(page.paragraphs, maxParagraphs) == [] ==>
              r == Fail(APIError, "No readable text content found")
  {
    match page
    case FetchFailed(m) => Fail(APIError, m)
    case Fetched(contentType, paragraphs) =>
      if !IsHtml(contentType) then Fail(APIError, "URL does not return HTML content")
      else if paragraphs == [] then Fail(APIError, "No paragraph content found on the page")
      else
        var text := ParagraphText(paragraphs, maxParagraphs);
        if text == [] then Fail(APIError, "No readable text content found")
        else
          StripFixed(text);
          ValidateTextInput(text, MaxTextLength)
  }

  /** The body inside the `try` of app.py:376-424, before the exception
      mapping. */
  function ExtractAttempt(url: string, lib: UrlLibrary, fetch: string -> FetchOutcome, maxParagraphs: int): (r: Result<string>)
    ensures ValidateUrl(url, lib).Err? ==> r == ValidateUrl(url, lib)
    ensures ValidateUrl(url, lib).Ok? ==> r == PageText(fetch(ValidateUrl(url, lib).value), maxParagraphs)
  {
    var valid :- ValidateUrl(url, lib);
    PageText(fetch(valid), maxParagraphs)
  }

  /** `extract_content_from_url(url, max_paragraphs)`: SecurityError passes
      through unchanged, every other failure becomes an APIError. */
  function ExtractContentFromUrl(url: string, lib: UrlLibrary, fetch: string -> FetchOutcome, maxParagraphs: int): (r: Result<string>)
    ensures r.Err? ==> r.error.kind == SecurityError || r.error.kind == APIError
    ensures r.Err? && r.error.kind == APIError ==> StartsWith(r.error.message, ContentErrorPrefix)
    ensures ValidateUrl(url, lib).Err? ==> r == ValidateUrl(url, lib)
    ensures ValidateUrl(url, lib).Ok? && fetch(ValidateUrl(url, lib).value).FetchFailed? ==>
              r == Fail(APIError, ContentErrorPrefix + fetch(ValidateUrl(url, lib).value).message)
    ensures ValidateUrl(url, lib).Ok? ==>
              var page := PageText(fetch(ValidateUrl(url, lib).value), maxParagraphs);
              && (page.Ok? || page.error.kind == SecurityError ==> r == page)
              && (page.Err? && page.error.kind == APIError ==> r == Fail(APIError, ContentErrorPrefix + page.error.message))
    ensures r.Ok? ==> |r.value| <= MaxTextLength
  {
    var r := ExtractAttempt(url, lib, fetch, maxParagraphs);
    if r.Err? && r.error.kind != SecurityError then Fail(APIError, ContentErrorPrefix + r.error.message)
    else r
  }

  /** A URL whose host is private is refused before any request is made:
      the outcome does not depend on what the page would have returned. */
  lemma BlockedUrlNeverFetched(url: string, lib: UrlLibrary, fetch1: string -> FetchOutcome,
                               fetch2: string -> FetchOutcome, maxParagraphs: int)
    requires ValidateUrl(url, lib).Err?
    ensures ExtractContentFromUrl(url, lib, fetch1, maxParagraphs) == ExtractContentFromUrl(url, lib, fetch2, maxParagraphs)
    ensures ExtractContentFromUrl(url, lib, fetch1, maxParagraphs).error.kind == SecurityError
  {
  }

  /** With the default `max_paragraphs`, paragraphs after the first fifty
      never change the text read from a page. */
  lemma ParagraphsAfterDefaultLimitIgnored(first: seq<string>, later: seq<string>)
    requires |first| == MaxParagraphs
    ensures ParagraphText(first + later, MaxParagraphs) == ParagraphText(first, MaxParagraphs)
  {
    assert PyPrefix(first + later, MaxParagraphs) == first;
    assert PyPrefix(first, MaxParagraphs) == first;
  }

  /** A page served with another content type is refused, whatever it holds. */
  lemma NonHtmlPageRefused(url: string, lib: UrlLibrary, fetch: string -> FetchOutcome, maxParagraphs: int)
    requires ValidateUrl(url, lib).Ok?
    requires fetch(ValidateUrl(url, lib).value).Fetched?
    requires !IsHtml(fetch(ValidateUrl(url, lib).value).contentType)
    ensures ExtractContentFromUrl(url, lib, fetch, maxParagraphs) ==
              Fail(APIError, ContentErrorPrefix + "URL does not return HTML content")
  {
  }

  /** A page whose paragraphs are all blank among the first ones read is
      reported as having no readable text, even if later paragraphs have
      some. */
  lemma OnlyFirstParagraphsRead(paragraphs: seq<string>, maxParagraphs: int)
    requires 0 <= maxParagraphs <= |paragraphs|
    requires forall i :: 0 <= i < maxParagraphs ==> AllSpace(paragraphs[i])
    ensures ParagraphText(paragraphs, maxParagraphs) == []
  {
  }
}
