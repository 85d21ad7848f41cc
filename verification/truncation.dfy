/**
 The Token-Budget Truncator, `truncate_text_smart` of app.py: with a budget
 of four characters per token, text that fits is returned as it is; longer
 text is cut after whole sentences, and when not even the first sentence
 fits, after a fixed number of characters.
 */
module Truncation {
  import opened Strings

  /** The characters-per-token estimate of app.py:211. */
  const CharsPerToken := 4

  predicate IsTerminator(c: char) {
    c == '.' || c == '!' || c == '?'
  }

  predicate NoTerminator(s: string) {
    forall i :: 0 <= i < |s| ==> !IsTerminator(s[i])
  }

  predicate AllTerminators(s: string) {
    forall i :: 0 <= i < |s| ==> IsTerminator(s[i])
  }

  /** First terminator at or after `i`, or `|s|` when there is none. */
  function NextTerminator(s: string, i: nat): (j: nat)
    requires i <= |s|
    ensures i <= j <= |s|
    ensures forall k :: i <= k < j ==> !IsTerminator(s[k])
    ensures j < |s| ==> IsTerminator(s[j])
    decreases |s| - i
  {
    if i == |s| || IsTerminator(s[i]) then i else NextTerminator(s, i + 1)
  }

  /** End of the run of terminators that starts at `i`. */
  function RunEnd(s: string, i: nat): (j: nat)
    requires i <= |s|
    ensures i <= j <= |s|
    ensures forall k :: i <= k < j ==> IsTerminator(s[k])
    ensures j < |s| ==> !IsTerminator(s[j])
    decreases |s| - i
  {
    if i == |s| || !IsTerminator(s[i]) then i else RunEnd(s, i + 1)
  }

  /** `re.split(r'[.!?]+', s)`: the pieces between maximal runs of
      terminators, including an empty first or last piece when `s` starts
      or ends with a terminator. */
  function SplitSentences(s: string): (pieces: seq<string>)
    ensures |pieces| >= 1
    ensures forall k :: 0 <= k < |pieces| ==> NoTerminator(pieces[k])
    decreases |s|
  {
    var i := NextTerminator(s, 0);
    if i == |s| then [s]
    else [s[..i]] + SplitSentences(s[RunEnd(s, i)..])
  }

  /** The terminator runs `re.split` drops, in order. */
  function Separators(s: string): (seps: seq<string>)
    ensures |seps| + 1 == |SplitSentences(s)|
    decreases |s|
  {
    var i := NextTerminator(s, 0);
    if i == |s| then []
    else [s[i..RunEnd(s, i)]] + Separators(s[RunEnd(s, i)..])
  }

  /** pieces[0] + seps[0] + pieces[1] + ... + pieces[n]. */
  function Interleave(pieces: seq<string>, seps: seq<string>): string
    requires |seps| + 1 == |pieces|
    decreases |seps|
  {
    if |seps| == 0 then pieces[0]
    else pieces[0] + seps[0] + Interleave(pieces[1..], seps[1..])
  }

  lemma InterleaveCons(p: string, sep: string, pieces: seq<string>, seps: seq<string>)
    requires |seps| + 1 == |pieces|
    ensures Interleave([p] + pieces, [sep] + seps) == p + sep + Interleave(pieces, seps)
  {
    assert ([p] + pieces)[1..] == pieces;
    assert ([sep] + seps)[1..] == seps;
  }

  /** The first piece and the first dropped run, then the split of the rest. */
  lemma SplitUnfold(s: string)
    requires NextTerminator(s, 0) < |s|
    ensures var i := NextTerminator(s, 0); var j := RunEnd(s, i);
            && SplitSentences(s) == [s[..i]] + SplitSentences(s[j..])
            && Separators(s) == [s[i..j]] + Separators(s[j..])
  {
  }

  /** The split loses nothing: putting the dropped terminator runs back
      between the pieces gives `s`. */
  lemma {:induction false} SplitSentencesPartition(s: string)
    ensures Interleave(SplitSentences(s), Separators(s)) == s
    decreases |s|
  {
    var i := NextTerminator(s, 0);
    if i < |s| {
      var j := RunEnd(s, i);
      var rest := s[j..];
      SplitUnfold(s);
      SplitSentencesPartition(rest);
      InterleaveCons(s[..i], s[i..j], SplitSentences(rest), Separators(rest));
      assert s == s[..i] + s[i..j] + rest;
    }
  }

  /** Every dropped run is a non-empty run of terminators. */
  lemma {:induction false} SeparatorsAreMaximalRuns(s: string)
    ensures forall k :: 0 <= k < |Separators(s)| ==> Separators(s)[k] != [] && AllTerminators(Separators(s)[k])
    decreases |s|
  {
    var i := NextTerminator(s, 0);
    if i < |s| {
      var j := RunEnd(s, i);
      SplitUnfold(s);
      SeparatorsAreMaximalRuns(s[j..]);
      forall k | 0 <= k < |Separators(s)|
        ensures Separators(s)[k] != [] && AllTerminators(Separators(s)[k])
      {
        if k > 0 {
          assert Separators(s)[k] == Separators(s[j..])[k - 1];
        }
      }
    }
  }

  /** Every piece but the first and the last is non-empty, so two dropped
      runs are never adjacent: each run `re.split` drops is maximal. */
  lemma {:induction false} InteriorPiecesNonEmpty(s: string)
    ensures forall k :: 0 < k < |SplitSentences(s)| - 1 ==> SplitSentences(s)[k] != []
    decreases |s|
  {
    var i := NextTerminator(s, 0);
    if i < |s| {
      var j := RunEnd(s, i);
      var rest := s[j..];
      InteriorPiecesNonEmpty(rest);
      SplitUnfold(s);
      if |SplitSentences(rest)| >= 2 {
        assert NextTerminator(rest, 0) < |rest|;
        assert !IsTerminator(rest[0]);
        assert SplitSentences(rest)[0] == rest[..NextTerminator(rest, 0)];
      }
    }
  }

  /** What the loop of app.py:220-223 has built after taking the first `k`
      pieces: each one followed by ". ". */
  function Taken(pieces: seq<string>, k: nat): string
    requires k <= |pieces|
  {
    if k == 0 then [] else Taken(pieces, k - 1) + pieces[k - 1] + ". "
  }

  /** The loop's test at piece `i` lets it through. */
  predicate Fits(pieces: seq<string>, budget: int, i: nat)
    requires i < |pieces|
  {
    |Taken(pieces, i) + pieces[i]| <= budget
  }

  /** `k` is where the loop stops: every earlier piece passed the test, and
      piece `k`, if there is one, failed it. No piece is skipped. */
  predicate Greedy(pieces: seq<string>, budget: int, k: nat) {
    && k <= |pieces|
    && (forall i :: 0 <= i < k ==> Fits(pieces, budget, i))
    && (k < |pieces| ==> !Fits(pieces, budget, k))
  }

  /** The stopping point is unique. */
  lemma GreedyUnique(pieces: seq<string>, budget: int, k1: nat, k2: nat)
    requires Greedy(pieces, budget, k1) && Greedy(pieces, budget, k2)
    ensures k1 == k2
  {
  }

  /** The loop of app.py:220-223 from piece `i` on, with `acc` the text
      built so far; returns how many pieces it takes. */
  function TakeWhileFits(pieces: seq<string>, budget: int, i: nat, acc: string): (k: nat)
    requires i <= |pieces| && acc == Taken(pieces, i)
    requires forall j :: 0 <= j < i ==> Fits(pieces, budget, j)
    ensures i <= k
    ensures Greedy(pieces, budget, k)
    decreases |pieces| - i
  {
    if i == |pieces| || |acc + pieces[i]| > budget then i
    else TakeWhileFits(pieces, budget, i + 1, acc + pieces[i] + ". ")
  }

  /** Built text that holds at least one piece ends in ". ", so it is never
      blank, and it is no longer than the last test allowed plus two. */
  lemma TakenShape(pieces: seq<string>, budget: int, k: nat)
    requires 0 < k <= |pieces| && Fits(pieces, budget, k - 1)
    ensures EndsWith(Taken(pieces, k), ". ")
    ensures |Taken(pieces, k)| <= budget + 2
    ensures Strip(Taken(pieces, k)) != []
    ensures |Strip(Taken(pieces, k))| <= budget + 1
  {
    var t := Taken(pieces, k);
    assert t[|t| - 2] == '.';
    assert !AllSpace(t);
    StripDropsTrailingSpace(t);
  }

  /** Built text only holds characters of the pieces, '.' and ' '. */
  lemma {:induction false} TakenHasNoBangOrQuestion(pieces: seq<string>, k: nat)
    requires k <= |pieces|
    requires forall j :: 0 <= j < |pieces| ==> NoTerminator(pieces[j])
    ensures forall i :: 0 <= i < |Taken(pieces, k)| ==> Taken(pieces, k)[i] != '!' && Taken(pieces, k)[i] != '?'
  {
    if k > 0 {
      TakenHasNoBangOrQuestion(pieces, k - 1);
      var prev := Taken(pieces, k - 1);
      var p := pieces[k - 1];
      assert Taken(pieces, k) == prev + p + ". ";
      forall i | 0 <= i < |Taken(pieces, k)|
        ensures Taken(pieces, k)[i] != '!' && Taken(pieces, k)[i] != '?'
      {
        if i < |prev| {
          assert Taken(pieces, k)[i] == prev[i];
        } else if i < |prev| + |p| {
          assert Taken(pieces, k)[i] == p[i - |prev|];
        }
      }
    }
  }

  /** Where the loop stopped decides the fallback: the built text is blank
      exactly when no piece was taken. With at least one piece, the stripped
      text overshoots the budget by at most one character and holds no '!'
      or '?'. */
  lemma SentencePathFacts(pieces: seq<string>, budget: int, k: nat)
    requires Greedy(pieces, budget, k)
    requires forall j :: 0 <= j < |pieces| ==> NoTerminator(pieces[j])
    ensures Strip(Taken(pieces, k)) == [] <==> k == 0
    ensures k > 0 ==> |Strip(Taken(pieces, k))| <= budget + 1
    ensures k > 0 ==> forall i :: 0 <= i < |Strip(Taken(pieces, k))| ==>
                        Strip(Taken(pieces, k))[i] != '!' && Strip(Taken(pieces, k))[i] != '?'
  {
    var truncated := Taken(pieces, k);
    if k > 0 {
      TakenShape(pieces, budget, k);
      TakenHasNoBangOrQuestion(pieces, k);
      forall i | 0 <= i < |Strip(truncated)|
        ensures Strip(truncated)[i] != '!' && Strip(truncated)[i] != '?'
      {
        StripChars(truncated, Strip(truncated)[i]);
      }
    }
  }

  /** `truncate_text_smart(text, max_tokens)`. `maxTokens` may be negative,
      as the caller at app.py:623-624 can pass; the slice `text[:B]` then
      follows Python's rule and counts from the end. */
  function TruncateTextSmart(text: string, maxTokens: int): (r: string)
    ensures |text| <= CharsPerToken * maxTokens ==> r == text
    ensures |text| > CharsPerToken * maxTokens && |SplitSentences(text)[0]| > CharsPerToken * maxTokens ==>
              r == Strip(PyPrefix(text, CharsPerToken * maxTokens))
    ensures |text| > CharsPerToken * maxTokens && |SplitSentences(text)[0]| <= CharsPerToken * maxTokens ==>
              forall i :: 0 <= i < |r| ==> r[i] != '!' && r[i] != '?'
    ensures maxTokens >= 0 ==> |r| <= CharsPerToken * maxTokens + 1
  {
    var budget := CharsPerToken * maxTokens;
    if |text| <= budget then text
    else
      var pieces := SplitSentences(text);
      var k := TakeWhileFits(pieces, budget, 0, []);
      var truncated := Taken(pieces, k);
      assert k > 0 <==> |pieces[0]| <= budget by {
        assert Taken(pieces, 0) == [];
      }
      SentencePathFacts(pieces, budget, k);
      // The fallback of app.py:226-227 fires exactly when no piece was taken.
      if Strip(truncated) == [] then
        Strip(PyPrefix(text, budget))
      else
        Strip(truncated)
  }

  /** Past the budget, once the greedy loop has taken at least one piece,
      the result is the stripped text of the pieces it took. */
  lemma TruncateTextSmartIsGreedy(text: string, maxTokens: int, k: nat)
    requires |text| > CharsPerToken * maxTokens
    requires 0 < k && Greedy(SplitSentences(text), CharsPerToken * maxTokens, k)
    ensures TruncateTextSmart(text, maxTokens) == Strip(Taken(SplitSentences(text), k))
  {
    var budget := CharsPerToken * maxTokens;
    var pieces := SplitSentences(text);
    GreedyUnique(pieces, budget, TakeWhileFits(pieces, budget, 0, []), k);
    SentencePathFacts(pieces, budget, k);
  }

  /** A negative token count, which the caller produces for slider values
      above 3500, always takes the character fallback, and the slice then
      drops characters from the end of the text. */
  lemma NegativeBudgetCutsFromEnd(text: string, maxTokens: int)
    requires maxTokens < 0
    ensures TruncateTextSmart(text, maxTokens) == Strip(PyPrefix(text, CharsPerToken * maxTokens))
    ensures |PyPrefix(text, CharsPerToken * maxTokens)| == if |text| + CharsPerToken * maxTokens > 0 then |text| + CharsPerToken * maxTokens else 0
  {
  }

  lemma SplitExample()
    ensures SplitSentences("abcd.efgh") == ["abcd", "efgh"]
  {
    var text := "abcd.efgh";
    assert NextTerminator(text, 0) == 4;
    assert RunEnd(text, 4) == 5;
    assert text[5..] == "efgh";
    assert NextTerminator("efgh", 0) == 4;
    assert SplitSentences("efgh") == ["efgh"];
    assert text[..4] == "abcd";
  }

  lemma StripExample()
    ensures Strip("abcd. ") == "abcd."
  {
    var t := "abcd. ";
    assert LeadingSpace(t) == 0;
    assert !AllSpace(t);
    assert |Strip(t)| == 5;
  }

  /** The one-character overshoot of the sentence path is reached: with a
      budget of one token (four characters) "abcd.efgh" becomes "abcd.". */
  lemma SentencePathOvershootsByOne()
    ensures TruncateTextSmart("abcd.efgh", 1) == "abcd."
  {
    var pieces := ["abcd", "efgh"];
    SplitExample();
    assert Taken(pieces, 1) == "abcd. ";
    assert Greedy(pieces, 4, 1);
    StripExample();
  }
}
