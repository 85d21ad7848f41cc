/**
 The token-prefix truncator `truncate_text` of app_v2.py: the text is cut
 into the maximal runs `re.findall(r'\w+|\W+', text)` finds, and the first
 `max_tokens` runs are joined back together. Which characters `\w` matches
 (Unicode letters, digits and the underscore) is the `isWord` parameter.
 */
module TokenTruncation {
  import opened Strings

  /** The length of the longest prefix of `s` whose characters are all of
      class `word`. */
  function ClassPrefix(s: string, isWord: char -> bool, word: bool): (k: nat)
    ensures k <= |s|
    ensures forall j :: 0 <= j < k ==> isWord(s[j]) == word
    ensures k < |s| ==> isWord(s[k]) != word
    decreases |s|
  {
    if s == [] || isWord(s[0]) != word then 0
    else
      var k := ClassPrefix(s[1..], isWord, word);
      assert forall j :: 1 <= j < |s| ==> s[1..][j - 1] == s[j];
      1 + k
  }

  /** The length of the run that starts `s`: what one match of
      `\w+|\W+` at the front consumes. */
  function RunLength(s: string, isWord: char -> bool): (k: nat)
    requires s != []
    ensures 1 <= k <= |s|
    ensures forall j :: 0 <= j < k ==> isWord(s[j]) == isWord(s[0])
    ensures k < |s| ==> isWord(s[k]) != isWord(s[0])
  {
    ClassPrefix(s, isWord, isWord(s[0]))
  }

  /** A run ends exactly where the class first changes. */
  lemma RunLengthUnique(s: string, isWord: char -> bool, k: nat)
    requires 1 <= k <= |s|
    requires forall j :: 0 <= j < k ==> isWord(s[j]) == isWord(s[0])
    requires k < |s| ==> isWord(s[k]) != isWord(s[0])
    ensures RunLength(s, isWord) == k
  {
  }

  predicate Uniform(t: string, isWord: char -> bool) {
    forall j :: 0 <= j < |t| ==> isWord(t[j]) == isWord(t[0])
  }

  /** Non-empty runs of one class each, the classes alternating. */
  ghost predicate WellFormed(ts: seq<string>, isWord: char -> bool) {
    && (forall i :: 0 <= i < |ts| ==> ts[i] != [] && Uniform(ts[i], isWord))
    && (forall i, j :: 0 <= i < j < |ts| && j == i + 1 ==> ts[i] != [] && ts[j] != [] && isWord(ts[i][0]) != isWord(ts[j][0]))
  }

  /** `re.findall(r'\w+|\W+', text)`. */
  function Tokens(s: string, isWord: char -> bool): (ts: seq<string>)
    ensures ts == [] <==> s == []
    ensures ts != [] ==> ts[0] != [] && ts[0][0] == s[0]
    ensures |ts| <= |s|
    decreases |s|
  {
    if s == [] then []
    else
      var k := RunLength(s, isWord);
      var rest := Tokens(s[k..], isWord);
      [s[..k]] + rest
  }

  /** The first run, then the runs of the rest. */
  lemma TokensUnfold(s: string, isWord: char -> bool)
    requires s != []
    ensures Tokens(s, isWord) == [s[..RunLength(s, isWord)]] + Tokens(s[RunLength(s, isWord)..], isWord)
  {
  }

  /** Each run is non-empty and of one class, and the classes alternate. */
  lemma {:induction false} TokensWellFormed(s: string, isWord: char -> bool)
    ensures WellFormed(Tokens(s, isWord), isWord)
    decreases |s|
  {
    if s != [] {
      var k := RunLength(s, isWord);
      var ts := Tokens(s, isWord);
      var rest := Tokens(s[k..], isWord);
      TokensUnfold(s, isWord);
      TokensWellFormed(s[k..], isWord);
      forall i | 0 <= i < |ts|
        ensures ts[i] != [] && Uniform(ts[i], isWord)
      {
        if i > 0 {
          assert ts[i] == rest[i - 1];
        }
      }
      forall i, j | 0 <= i < j < |ts| && j == i + 1
        ensures isWord(ts[i][0]) != isWord(ts[j][0])
      {
        if i > 0 {
          assert ts[i] == rest[i - 1] && ts[j] == rest[j - 1];
        }
      }
    }
  }

  lemma {:induction false} ConcatAppend(a: seq<string>, b: seq<string>)
    ensures Concat(a + b) == Concat(a) + Concat(b)
    decreases |a|
  {
    if |a| == 0 {
      assert a + b == b;
    } else {
      assert (a + b)[1..] == a[1..] + b;
      ConcatAppend(a[1..], b);
    }
  }

  /** The runs cover the text exactly: joining them gives it back. */
  lemma {:induction false} TokensPartition(s: string, isWord: char -> bool)
    ensures Concat(Tokens(s, isWord)) == s
    decreases |s|
  {
    if s != [] {
      var k := RunLength(s, isWord);
      var ts := Tokens(s, isWord);
      TokensUnfold(s, isWord);
      assert ts[0] == s[..k] && ts[1..] == Tokens(s[k..], isWord);
      TokensPartition(s[k..], isWord);
      assert Concat(ts) == s[..k] + s[k..];
    }
  }

  /** Dropping the first run keeps a run sequence well-formed. */
  lemma TailWellFormed(ts: seq<string>, isWord: char -> bool)
    requires WellFormed(ts, isWord) && ts != []
    ensures WellFormed(ts[1..], isWord)
  {
    var rest := ts[1..];
    forall i, j | 0 <= i < j < |rest| && j == i + 1
      ensures isWord(rest[i][0]) != isWord(rest[j][0])
    {
      assert rest[i] == ts[i + 1] && rest[j] == ts[j + 1];
    }
  }

  /** The tokenisation is the only one: any sequence of non-empty,
      one-class, alternating runs that joins to `s` is `Tokens(s)`. */
  lemma {:induction false} TokensUnique(ts: seq<string>, s: string, isWord: char -> bool)
    requires WellFormed(ts, isWord)
    requires Concat(ts) == s
    ensures ts == Tokens(s, isWord)
    decreases |ts|
  {
    if ts != [] {
      var t := ts[0];
      var rest := ts[1..];
      assert s == t + Concat(rest);
      if rest != [] {
        assert Concat(rest) == rest[0] + Concat(rest[1..]);
        assert s[|t|] == rest[0][0];
      }
      forall j | 0 <= j < |t|
        ensures isWord(s[j]) == isWord(s[0])
      {
        assert s[j] == t[j];
      }
      RunLengthUnique(s, isWord, |t|);
      TailWellFormed(ts, isWord);
      assert s[|t|..] == Concat(rest);
      TokensUnique(rest, s[|t|..], isWord);
      assert s[..|t|] == t;
    }
  }

  /** A prefix of a well-formed run sequence is well-formed. */
  lemma PrefixWellFormed(ts: seq<string>, isWord: char -> bool, k: nat)
    requires WellFormed(ts, isWord) && k <= |ts|
    ensures WellFormed(ts[..k], isWord)
  {
    assert forall i :: 0 <= i < k ==> ts[..k][i] == ts[i];
  }

  /** Joining the first `k` runs of a text gives a prefix of it whose own
      runs are exactly those `k`. */
  lemma JoinedRunsPrefix(text: string, isWord: char -> bool, k: nat)
    requires k <= |Tokens(text, isWord)|
    ensures StartsWith(text, Concat(Tokens(text, isWord)[..k]))
    ensures Tokens(Concat(Tokens(text, isWord)[..k]), isWord) == Tokens(text, isWord)[..k]
  {
    var ts := Tokens(text, isWord);
    TokensPartition(text, isWord);
    ConcatAppend(ts[..k], ts[k..]);
    assert ts == ts[..k] + ts[k..];
    TokensWellFormed(text, isWord);
    PrefixWellFormed(ts, isWord, k);
    TokensUnique(ts[..k], Concat(ts[..k]), isWord);
  }

  /** `truncate_text(text, max_tokens)`. A negative `maxTokens` is a
      Python negative slice: it drops that many runs from the end. */
  function TruncateText(text: string, maxTokens: int, isWord: char -> bool): (r: string)
    ensures StartsWith(text, r)
    ensures |Tokens(r, isWord)| <= |Tokens(text, isWord)|
    ensures Tokens(r, isWord) == Tokens(text, isWord)[..|Tokens(r, isWord)|]
    ensures maxTokens >= 0 ==> |Tokens(r, isWord)| == if maxTokens < |Tokens(text, isWord)| then maxTokens else |Tokens(text, isWord)|
    ensures maxTokens < 0 ==> |Tokens(r, isWord)| == if |Tokens(text, isWord)| + maxTokens > 0 then |Tokens(text, isWord)| + maxTokens else 0
  {
    var ts := Tokens(text, isWord);
    var kept := PyPrefix(ts, maxTokens);
    JoinedRunsPrefix(text, isWord, |kept|);
    Concat(kept)
  }

  /** With a budget at least the number of runs, nothing is cut. */
  lemma TruncateWithinBudget(text: string, maxTokens: int, isWord: char -> bool)
    requires maxTokens >= |Tokens(text, isWord)|
    ensures TruncateText(text, maxTokens, isWord) == text
  {
    var r := TruncateText(text, maxTokens, isWord);
    TokensPartition(r, isWord);
    TokensPartition(text, isWord);
    assert Tokens(r, isWord) == Tokens(text, isWord);
  }

  lemma TruncateEmpty(maxTokens: int, isWord: char -> bool)
    ensures TruncateText([], maxTokens, isWord) == []
  {
  }

  /** The joined first `k` runs of a text, for a longer `k`, extend those
      for a shorter one. */
  lemma ConcatPrefixes(ts: seq<string>, km: nat, kn: nat)
    requires km <= kn <= |ts|
    ensures StartsWith(Concat(ts[..kn]), Concat(ts[..km]))
  {
    assert ts[..kn] == ts[..km] + ts[km..kn];
    ConcatAppend(ts[..km], ts[km..kn]);
  }

  /** The truncated text is the join of the first runs of the text. */
  lemma TruncatedIsJoinedRuns(text: string, maxTokens: int, isWord: char -> bool)
    ensures TruncateText(text, maxTokens, isWord) ==
              Concat(Tokens(text, isWord)[..|Tokens(TruncateText(text, maxTokens, isWord), isWord)|])
  {
    TokensPartition(TruncateText(text, maxTokens, isWord), isWord);
  }

  /** A larger budget keeps everything a smaller one keeps. */
  lemma TruncateMonotone(text: string, m: int, n: int, isWord: char -> bool)
    requires 0 <= m <= n
    ensures StartsWith(TruncateText(text, n, isWord), TruncateText(text, m, isWord))
  {
    TruncatedIsJoinedRuns(text, m, isWord);
    TruncatedIsJoinedRuns(text, n, isWord);
    ConcatPrefixes(Tokens(text, isWord), |Tokens(TruncateText(text, m, isWord), isWord)|,
                   |Tokens(TruncateText(text, n, isWord), isWord)|);
  }

  /** Truncating again with the same non-negative budget changes nothing. */
  lemma TruncateIdempotent(text: string, maxTokens: int, isWord: char -> bool)
    requires maxTokens >= 0
    ensures TruncateText(TruncateText(text, maxTokens, isWord), maxTokens, isWord) == TruncateText(text, maxTokens, isWord)
  {
    TruncateWithinBudget(TruncateText(text, maxTokens, isWord), maxTokens, isWord);
  }
}
