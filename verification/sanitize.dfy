/**
 The two removals `validate_text_input` applies (app.py:149-150), both
 ignoring case: script elements, an opening `<script` up to the nearest
 `>` and on to the nearest `</script>` after it (any characters, line
 breaks included, in between), and every occurrence of `javascript:`.

 Each is modelled as the scan `re.sub` performs: from the left, at each
 position either the pattern matches (the match is dropped and the scan
 resumes after it) or the character is copied and the scan moves on by one.
 Neither pattern can match the empty string.
 */
module Sanitize {
  import opened Outcomes
  import opened Strings

  /** Whether text character `c` matches pattern character `p` (an ASCII
      lower-case letter or punctuation) under `re.IGNORECASE`: besides `p`
      and its upper case, the regex engine lets U+017F match `s` and U+0130,
      U+0131 match `i`, the only other characters that fold onto the letters
      of these two patterns. */
  predicate CharMatchesIgnoreCase(c: char, p: char) {
    || c == p
    || c == UpperAscii(p)
    || (p == 's' && c == '\U{017F}')
    || (p == 'i' && (c == '\U{0130}' || c == '\U{0131}'))
  }

  /** The literal `lit` matches case-insensitively at position `i` of `s`. */
  predicate LiteralAt(s: string, i: nat, lit: string) {
    i + |lit| <= |s| && forall k :: 0 <= k < |lit| ==> CharMatchesIgnoreCase(s[i + k], lit[k])
  }

  /** First position at or after `from` where `lit` matches, if any. */
  function FindLiteral(s: string, from: nat, lit: string): (r: Option<nat>)
    ensures r.Some? ==> from <= r.value && LiteralAt(s, r.value, lit)
    ensures r.Some? ==> forall j :: from <= j < r.value ==> !LiteralAt(s, j, lit)
    ensures r.None? ==> forall j :: from <= j ==> !LiteralAt(s, j, lit)
    decreases |s| - from
  {
    if from + |lit| > |s| then None
    else if LiteralAt(s, from, lit) then Some(from)
    else FindLiteral(s, from + 1, lit)
  }

  const ScriptOpen := "<script"
  const ScriptClose := "</script>"
  const JavascriptLiteral := "javascript:"

  datatype Pattern = ScriptElement | JavascriptScheme

  /** Where the match of pattern `p` that starts exactly at `i` ends, if one
      does. For the script pattern both `.*?` are lazy and `.` takes newlines:
      the first `>` at or after the opening `<script` is taken, then the first
      `</script>` after that `>`. When no `</script>` follows that first `>`,
      none follows a later one either, so backtracking finds no match. */
  function MatchEnd(p: Pattern, s: string, i: nat): (e: Option<nat>)
    ensures e.Some? ==> i < e.value <= |s|
    ensures p == JavascriptScheme ==>
              (e.Some? <==> LiteralAt(s, i, JavascriptLiteral)) &&
              (e.Some? ==> e.value == i + |JavascriptLiteral|)
  {
    match p
    case JavascriptScheme =>
      if LiteralAt(s, i, JavascriptLiteral) then Some(i + |JavascriptLiteral|) else None
    case ScriptElement =>
      if !LiteralAt(s, i, ScriptOpen) then None
      else match FindLiteral(s, i + |ScriptOpen|, ">")
        case None => None
        case Some(j) =>
          match FindLiteral(s, j + 1, ScriptClose)
          case None => None
          case Some(k) => Some(k + |ScriptClose|)
  }

  /** No match of `p` starts anywhere in `s`. */
  predicate NoMatch(p: Pattern, s: string) {
    forall i :: 0 <= i < |s| ==> MatchEnd(p, s, i).None?
  }

  /** `re.sub(p, '', s)` restricted to the scan from position `i` on. */
  function RemoveFrom(p: Pattern, s: string, i: nat): (r: string)
    requires i <= |s|
    ensures |r| <= |s| - i
    decreases |s| - i
  {
    if i == |s| then []
    else match MatchEnd(p, s, i)
      case Some(e) => RemoveFrom(p, s, e)
      case None => [s[i]] + RemoveFrom(p, s, i + 1)
  }

  /** `re.sub(p, '', s)`. */
  function Remove(p: Pattern, s: string): (r: string)
    ensures |r| <= |s|
  {
    RemoveFrom(p, s, 0)
  }

  /** A scan that loses no character met no match on its way. */
  lemma {:induction false} RemoveFromKeepsAllOnlyWithoutMatch(p: Pattern, s: string, i: nat)
    requires i <= |s|
    requires |RemoveFrom(p, s, i)| == |s| - i
    ensures RemoveFrom(p, s, i) == s[i..]
    ensures forall j :: i <= j < |s| ==> MatchEnd(p, s, j).None?
    decreases |s| - i
  {
    if i < |s| {
      match MatchEnd(p, s, i)
      case Some(e) =>
        assert false;
      case None =>
        RemoveFromKeepsAllOnlyWithoutMatch(p, s, i + 1);
        assert s[i..] == [s[i]] + s[i + 1..];
    }
  }

  /** Without matches the scan copies every character. */
  lemma {:induction false} RemoveFromWithoutMatch(p: Pattern, s: string, i: nat)
    requires i <= |s|
    requires forall j :: i <= j < |s| ==> MatchEnd(p, s, j).None?
    ensures RemoveFrom(p, s, i) == s[i..]
    decreases |s| - i
  {
    if i < |s| {
      RemoveFromWithoutMatch(p, s, i + 1);
      assert s[i..] == [s[i]] + s[i + 1..];
    }
  }

  /** The removal leaves `s` unchanged exactly when the pattern occurs
      nowhere in it; otherwise it shortens `s`. */
  lemma RemoveUnchangedIff(p: Pattern, s: string)
    ensures Remove(p, s) == s <==> NoMatch(p, s)
    ensures !NoMatch(p, s) ==> |Remove(p, s)| < |s|
  {
    if NoMatch(p, s) {
      RemoveFromWithoutMatch(p, s, 0);
    } else if |Remove(p, s)| == |s| {
      RemoveFromKeepsAllOnlyWithoutMatch(p, s, 0);
    }
  }

  /** The script pattern is lazy twice over: once `<script` matches at `i`
      and `j` is the first `>` after it, the match exists exactly when a
      `</script>` starts after `j`, and then it ends with the first one. */
  lemma ScriptMatchIsLazy(s: string, i: nat, j: nat)
    requires LiteralAt(s, i, ScriptOpen)
    requires i + |ScriptOpen| <= j && LiteralAt(s, j, ">")
    requires forall m :: i + |ScriptOpen| <= m < j ==> !LiteralAt(s, m, ">")
    ensures MatchEnd(ScriptElement, s, i).Some? <==> exists k :: j < k && LiteralAt(s, k, ScriptClose)
    ensures MatchEnd(ScriptElement, s, i).Some? ==>
              var k := MatchEnd(ScriptElement, s, i).value - |ScriptClose|;
              j < k && forall m :: j < m < k ==> !LiteralAt(s, m, ScriptClose)
  {
    assert FindLiteral(s, i + |ScriptOpen|, ">") == Some(j);
  }

  /** A script match opens with `<script` at `i`, closes with `</script>`,
      and has at least a `>` in between. */
  lemma ScriptMatchShape(s: string, i: nat)
    ensures MatchEnd(ScriptElement, s, i).Some? ==>
              && LiteralAt(s, i, ScriptOpen)
              && i + |ScriptOpen| + 1 <= MatchEnd(ScriptElement, s, i).value - |ScriptClose|
              && LiteralAt(s, MatchEnd(ScriptElement, s, i).value - |ScriptClose|, ScriptClose)
    ensures MatchEnd(ScriptElement, s, i).Some? ==>
              exists j :: i + |ScriptOpen| <= j < MatchEnd(ScriptElement, s, i).value - |ScriptClose| && LiteralAt(s, j, ">")
    ensures !LiteralAt(s, i, ScriptOpen) ==> MatchEnd(ScriptElement, s, i).None?
  {
    if MatchEnd(ScriptElement, s, i).Some? {
      var j := FindLiteral(s, i + |ScriptOpen|, ">").value;
      assert LiteralAt(s, j, ">");
    }
  }

  /** Without a `>` after the opening `<script`, nothing matches there. */
  lemma ScriptMatchNeedsClosingBracket(s: string, i: nat)
    requires forall m :: i + |ScriptOpen| <= m ==> !LiteralAt(s, m, ">")
    ensures MatchEnd(ScriptElement, s, i).None?
  {
  }

  /** A match of a literal needs its first character to match. */
  lemma NoLiteralWithoutFirstChar(s: string, j: nat, lit: string)
    requires |lit| > 0
    requires j < |s| ==> !CharMatchesIgnoreCase(s[j], lit[0])
    ensures !LiteralAt(s, j, lit)
  {
  }

  const NestedScript := "<scr<script></script>ipt>x</script>"
  const JoinedScript := "<script>x</script>"

  lemma NestedScriptInnerOpen()
    ensures LiteralAt(NestedScript, 4, ScriptOpen)
    ensures LiteralAt(NestedScript, 11, ">")
  {
  }

  lemma NestedScriptInnerClose()
    ensures LiteralAt(NestedScript, 12, ScriptClose)
  {
  }

  lemma NestedScriptInnerMatch()
    ensures MatchEnd(ScriptElement, NestedScript, 4) == Some(21)
  {
    NestedScriptInnerOpen();
    NestedScriptInnerClose();
    assert FindLiteral(NestedScript, 11, ">") == Some(11);
    assert FindLiteral(NestedScript, 12, ScriptClose) == Some(12);
  }

  lemma NestedScriptTailClean(j: nat)
    requires 21 <= j < |NestedScript|
    ensures MatchEnd(ScriptElement, NestedScript, j).None?
  {
    var s := NestedScript;
    if j == 26 {
      assert !CharMatchesIgnoreCase(s[j + 1], ScriptOpen[1]);
    } else {
      assert s[j] != '<';
      NoLiteralWithoutFirstChar(s, j, ScriptOpen);
    }
  }

  lemma NestedScriptHeadClean(j: nat)
    requires j < 4
    ensures MatchEnd(ScriptElement, NestedScript, j).None?
  {
    var s := NestedScript;
    if j == 0 {
      assert !CharMatchesIgnoreCase(s[j + 4], ScriptOpen[4]);
    } else {
      assert s[j] != '<';
      NoLiteralWithoutFirstChar(s, j, ScriptOpen);
    }
  }

  /** One step of the scan at a position where nothing matches. */
  lemma ScanCopies(p: Pattern, s: string, i: nat)
    requires i < |s| && MatchEnd(p, s, i).None?
    ensures RemoveFrom(p, s, i) == [s[i]] + RemoveFrom(p, s, i + 1)
  {
  }

  lemma NestedScriptTail()
    ensures RemoveFrom(ScriptElement, NestedScript, 21) == NestedScript[21..]
  {
    forall j | 21 <= j < |NestedScript|
      ensures MatchEnd(ScriptElement, NestedScript, j).None?
    {
      NestedScriptTailClean(j);
    }
    RemoveFromWithoutMatch(ScriptElement, NestedScript, 21);
  }

  lemma {:induction false} NestedScriptScan()
    ensures RemoveFrom(ScriptElement, NestedScript, 0) == JoinedScript
  {
    var s := NestedScript;
    NestedScriptTail();
    NestedScriptInnerMatch();
    var tail := RemoveFrom(ScriptElement, s, 4);
    NestedScriptHeadClean(3);
    ScanCopies(ScriptElement, s, 3);
    NestedScriptHeadClean(2);
    ScanCopies(ScriptElement, s, 2);
    NestedScriptHeadClean(1);
    ScanCopies(ScriptElement, s, 1);
    NestedScriptHeadClean(0);
    ScanCopies(ScriptElement, s, 0);
    assert RemoveFrom(ScriptElement, s, 0) == [s[0]] + ([s[1]] + ([s[2]] + ([s[3]] + tail)));
    JoinedFromNested();
  }

  lemma JoinedFromNested()
    ensures var s := NestedScript; [s[0]] + ([s[1]] + ([s[2]] + ([s[3]] + s[21..]))) == JoinedScript
  {
  }

  lemma JoinedScriptLiterals()
    ensures LiteralAt(JoinedScript, 0, ScriptOpen)
    ensures LiteralAt(JoinedScript, 7, ">")
    ensures LiteralAt(JoinedScript, 9, ScriptClose)
  {
  }

  lemma JoinedScriptMatches()
    ensures MatchEnd(ScriptElement, JoinedScript, 0) == Some(|JoinedScript|)
  {
    var out := JoinedScript;
    JoinedScriptLiterals();
    assert FindLiteral(out, 7, ">") == Some(7);
    NoLiteralWithoutFirstChar(out, 8, ScriptClose);
    assert FindLiteral(out, 8, ScriptClose) == Some(9);
  }

  lemma JoinedScriptHasNoScheme()
    ensures NoMatch(JavascriptScheme, JoinedScript)
  {
    forall j | 0 <= j < |JoinedScript|
      ensures MatchEnd(JavascriptScheme, JoinedScript, j).None?
    {
      NoLiteralWithoutFirstChar(JoinedScript, j, JavascriptLiteral);
    }
  }

  /** The script removal is a single pass: dropping an inner element can
      join the text around it into a new one, which stays in the output. */
  lemma ScriptRemovalIsSinglePass()
    ensures !NoMatch(ScriptElement, NestedScript)
    ensures Remove(ScriptElement, NestedScript) == JoinedScript
    ensures !NoMatch(ScriptElement, Remove(ScriptElement, NestedScript))
  {
    NestedScriptInnerMatch();
    NestedScriptScan();
    JoinedScriptMatches();
  }
}
