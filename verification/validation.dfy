/**
 The Security Validator: `validate_text_input` and `validate_url` of app.py.
 */
module Validation {
  import opened Outcomes
  import opened Strings
  import opened Sanitize

  /** MAX_TEXT_LENGTH, the default bound of `validate_text_input`. */
  const MaxTextLength := 50000

  /** Both removals of app.py:149-150, script elements first. */
  function Sanitized(t: string): (r: string)
    ensures |r| <= |t|
  {
    Remove(JavascriptScheme, Remove(ScriptElement, t))
  }

  /** Text that neither removal touches. */
  predicate Clean(t: string) {
    NoMatch(ScriptElement, t) && NoMatch(JavascriptScheme, t)
  }

  /** `validate_text_input(text, max_length)`. Rejects the empty string and
      a stripped text longer than `maxLength` (measured before sanitising),
      otherwise returns the stripped text with both removals applied. */
  function ValidateTextInput(text: string, maxLength: int): (r: Result<string>)
    ensures r.Err? <==> text == [] || |Strip(text)| > maxLength
    ensures r.Err? ==> r.error.kind == SecurityError
    ensures r.Ok? ==> |r.value| <= |Strip(text)| <= maxLength
    ensures r.Ok? && Clean(Strip(text)) ==> r.value == Strip(text)
    ensures text != [] && AllSpace(text) && maxLength >= 0 ==> r == Ok([])
  {
    if text == [] then
      Fail(SecurityError, "Invalid text input: must be a non-empty string")
    else
      var t := Strip(text);
      if |t| > maxLength then
        Fail(SecurityError, "Text too long: " + NatToString(|t|) + " characters (max: " + IntToString(maxLength) + ")")
      else
        RemoveUnchangedIff(ScriptElement, t);
        RemoveUnchangedIff(JavascriptScheme, t);
        Ok(Sanitized(t))
  }

  /** A successful validation returns the stripped text itself exactly when
      that text holds neither pattern; otherwise it returns something shorter. */
  lemma ValidatePreservesExactlyClean(text: string, maxLength: int)
    requires ValidateTextInput(text, maxLength).Ok?
    ensures ValidateTextInput(text, maxLength).value == Strip(text) <==> Clean(Strip(text))
    ensures !Clean(Strip(text)) ==> |ValidateTextInput(text, maxLength).value| < |Strip(text)|
  {
    var t := Strip(text);
    var once := Remove(ScriptElement, t);
    RemoveUnchangedIff(ScriptElement, t);
    RemoveUnchangedIff(JavascriptScheme, once);
    if !NoMatch(ScriptElement, t) {
      assert |Sanitized(t)| < |t|;
    } else {
      assert once == t;
    }
  }

  /** The validator's output can still hold a script element: removing the
      inner element of NestedScript joins the text around it into one. */
  lemma ValidatedTextMayHoldScript()
    ensures ValidateTextInput(NestedScript, MaxTextLength) == Ok(JoinedScript)
    ensures !Clean(JoinedScript)
  {
    StripFixed(NestedScript);
    ScriptRemovalIsSinglePass();
    JoinedScriptHasNoScheme();
    RemoveUnchangedIff(JavascriptScheme, JoinedScript);
    assert Sanitized(NestedScript) == JoinedScript;
  }

  /** What `urlparse(url)` yields that the validator reads. */
  datatype ParsedUrl = ParsedUrl(scheme: string, hostname: Option<string>)

  /** The two library calls the validator relies on: `validators.url` and
      `urllib.parse.urlparse`. Their internals are not part of this model. */
  datatype UrlLibrary = UrlLibrary(isUrl: string -> bool, parse: string -> ParsedUrl)

  const AllowedSchemes := ["http", "https"]
  const LocalHosts := ["localhost", "127.0.0.1", "0.0.0.0"]
  const PrivatePrefixes := ["192.168.", "10.", "172."]

  /** The host test of app.py:185-194: one of three literal names, or a name
      starting with one of three textual prefixes. */
  function BlockedHost(hostname: Option<string>): (b: bool)
    ensures hostname.None? ==> !b
    ensures hostname.Some? ==>
              (b <==> || hostname.value == "localhost" || hostname.value == "127.0.0.1" || hostname.value == "0.0.0.0"
                      || StartsWith(hostname.value, "192.168.") || StartsWith(hostname.value, "10.")
                      || StartsWith(hostname.value, "172."))
  {
    hostname.Some? &&
      (hostname.value in LocalHosts ||
       exists prefix :: prefix in PrivatePrefixes && StartsWith(hostname.value, prefix))
  }

  /** `validate_url(url)`. */
  function ValidateUrl(url: string, lib: UrlLibrary): (r: Result<string>)
    ensures r.Err? ==> r.error.kind == SecurityError
    ensures r.Ok? ==> r.value == Strip(url)
    ensures r.Ok? <==>
              && url != []
              && lib.isUrl(Strip(url))
              && lib.parse(Strip(url)).scheme in AllowedSchemes
              && !BlockedHost(lib.parse(Strip(url)).hostname)
  {
    if url == [] then
      Fail(SecurityError, "Invalid URL: must be a non-empty string")
    else
      var u := Strip(url);
      if !lib.isUrl(u) then
        Fail(SecurityError, "Invalid URL format")
      else
        var parsed := lib.parse(u);
        if parsed.scheme !in AllowedSchemes then
          Fail(SecurityError, "Only HTTP and HTTPS URLs are allowed")
        else if parsed.hostname.Some? && parsed.hostname.value in LocalHosts then
          Fail(SecurityError, "Local URLs are not allowed")
        else if parsed.hostname.Some? && parsed.hostname.value != [] &&
                (StartsWith(parsed.hostname.value, "192.168.") ||
                 StartsWith(parsed.hostname.value, "10.") ||
                 StartsWith(parsed.hostname.value, "172.")) then
          Fail(SecurityError, "Private IP addresses are not allowed")
        else
          Ok(u)
  }

  /** The dotted-decimal spelling of an IPv4 address. */
  function DottedQuad(a: nat, b: nat, c: nat, d: nat): string {
    NatToString(a) + "." + NatToString(b) + "." + NatToString(c) + "." + NatToString(d)
  }

  /** The private address blocks of RFC 1918, section 3: 10.0.0.0/8,
      172.16.0.0/12 and 192.168.0.0/16. */
  predicate PrivateAddress(a: nat, b: nat) {
    a == 10 || (a == 172 && 16 <= b <= 31) || (a == 192 && b == 168)
  }

  lemma PrefixOfDotted(x: string, rest: string, prefix: string)
    requires prefix == x + "."
    ensures StartsWith(x + "." + rest, prefix)
  {
    assert (x + "." + rest)[..|prefix|] == x + ".";
  }

  lemma PrefixBlocked(h: string, prefix: string)
    requires prefix in PrivatePrefixes && StartsWith(h, prefix)
    ensures BlockedHost(Some(h))
  {
  }

  lemma RenderedOctets()
    ensures NatToString(10) == "10"
    ensures NatToString(172) == "172"
    ensures NatToString(192) == "192"
    ensures NatToString(168) == "168"
  {
    assert NatToString(1) == "1";
    assert NatToString(17) == "17";
    assert NatToString(19) == "19";
    assert NatToString(16) == "16";
  }

  lemma TenBlocked(b: nat, c: nat, d: nat)
    ensures BlockedHost(Some(DottedQuad(10, b, c, d)))
  {
    RenderedOctets();
    var rest := NatToString(b) + "." + NatToString(c) + "." + NatToString(d);
    assert DottedQuad(10, b, c, d) == NatToString(10) + "." + rest;
    PrefixOfDotted(NatToString(10), rest, "10.");
    PrefixBlocked(DottedQuad(10, b, c, d), "10.");
  }

  lemma OneSeventyTwoBlocked(b: nat, c: nat, d: nat)
    ensures BlockedHost(Some(DottedQuad(172, b, c, d)))
  {
    RenderedOctets();
    var rest := NatToString(b) + "." + NatToString(c) + "." + NatToString(d);
    assert DottedQuad(172, b, c, d) == NatToString(172) + "." + rest;
    PrefixOfDotted(NatToString(172), rest, "172.");
    PrefixBlocked(DottedQuad(172, b, c, d), "172.");
  }

  lemma OneNinetyTwoBlocked(c: nat, d: nat)
    ensures BlockedHost(Some(DottedQuad(192, 168, c, d)))
  {
    RenderedOctets();
    var rest := NatToString(c) + "." + NatToString(d);
    assert DottedQuad(192, 168, c, d) == (NatToString(192) + "." + NatToString(168)) + "." + rest;
    PrefixOfDotted(NatToString(192) + "." + NatToString(168), rest, "192.168.");
    PrefixBlocked(DottedQuad(192, 168, c, d), "192.168.");
  }

  /** Every RFC 1918 address written as a dotted quad is refused. */
  lemma PrivateDottedQuadBlocked(a: nat, b: nat, c: nat, d: nat)
    requires PrivateAddress(a, b)
    ensures BlockedHost(Some(DottedQuad(a, b, c, d)))
  {
    if a == 10 {
      TenBlocked(b, c, d);
    } else if a == 172 {
      OneSeventyTwoBlocked(b, c, d);
    } else {
      OneNinetyTwoBlocked(c, d);
    }
  }

  /** The `172.` prefix refuses public addresses too: 172.32.0.1 lies
      outside 172.16.0.0/12 and is still blocked. */
  lemma PublicAddressUnder172Blocked()
    ensures !PrivateAddress(172, 32)
    ensures BlockedHost(Some(DottedQuad(172, 32, 0, 1)))
  {
    OneSeventyTwoBlocked(32, 0, 1);
  }

  /** Only the literal 127.0.0.1 of the loopback block 127.0.0.0/8 is
      refused: 127.0.0.2 passes the host test. */
  lemma OtherLoopbackAddressPasses()
    ensures !BlockedHost(Some("127.0.0.2"))
  {
    var h := "127.0.0.2";
    assert h != LocalHosts[0] && h != LocalHosts[1] && h != LocalHosts[2];
    assert h[..8][1] != PrivatePrefixes[0][1];
    assert h[..3][1] != PrivatePrefixes[1][1];
    assert h[..4][2] != PrivatePrefixes[2][2];
  }

  /** `validate_url` refuses every URL whose host is an RFC 1918 address in
      dotted-quad form, whatever else the URL holds. */
  lemma PrivateHostUrlRejected(url: string, lib: UrlLibrary, a: nat, b: nat, c: nat, d: nat)
    requires PrivateAddress(a, b)
    requires lib.parse(Strip(url)).hostname == Some(DottedQuad(a, b, c, d))
    ensures ValidateUrl(url, lib).Err?
    ensures ValidateUrl(url, lib).error.kind == SecurityError
  {
    PrivateDottedQuadBlocked(a, b, c, d);
  }
}
