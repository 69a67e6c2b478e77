/**
 * The text normaliser of `VectorDatabase` (rag_retriever.py): two regular
 * expression substitutions applied in turn.
 *   1. `re.sub(r'\[[0-9]+\]', '', text)` deletes numeric citation markers
 *      such as `[12]`, scanning left to right without overlap.
 *   2. `re.sub(r'[^a-zA-Z0-9\s\.,!?;:\(\)\[\]\{\}\'\"]', '', text)` deletes
 *      every character outside a fixed allow-list.
 */
module CitationNormalizer {
  import opened Chars
  import opened Seqs

  /** `m` is one match of `\[[0-9]+\]`: `[`, one or more ASCII digits, `]`. */
  predicate IsMarker(m: string) {
    |m| >= 3 && m[0] == '[' && m[|m| - 1] == ']' &&
    forall i :: 1 <= i < |m| - 1 ==> IsDigit(m[i])
  }

  /** Some substring of `s` is a citation marker. */
  ghost predicate ContainsMarker(s: string) {
    exists i, k :: 0 <= i <= k <= |s| && IsMarker(s[i..k])
  }

  /**
   * Length of the match of `\[[0-9]+\]` at the start of `s`, or 0 when the
   * pattern does not match there. The digit class is greedy and `]` is not a
   * digit, so backtracking can never produce a different match.
   */
  function MarkerLength(s: string): (n: nat)
    ensures n <= |s|
  {
    if |s| > 0 && s[0] == '[' then
      var d := Span(IsDigit, s[1..]);
      if 0 < d && 1 + d < |s| && s[1 + d] == ']' then d + 2 else 0
    else 0
  }

  /** Pass 1: delete every marker met scanning left to right. */
  function StripCitations(s: string): string
    decreases |s|
  {
    if s == [] then []
    else
      var n := MarkerLength(s);
      if n > 0 then StripCitations(s[n..]) else [s[0]] + StripCitations(s[1..])
  }

  /** The punctuation the allow-list of pass 2 keeps: `.,!?;:()[]{}'"`. */
  const Punctuation: set<char> := {'.', ',', '!', '?', ';', ':', '(', ')', '[', ']', '{', '}', '\'', '"'}

  /** The allow-list of pass 2: ASCII letters, digits, whitespace and the punctuation above. */
  predicate IsAllowed(c: char) {
    IsLetter(c) || IsDigit(c) || IsSpace(c) || c in Punctuation
  }

  /** Pass 2: delete every character outside the allow-list. */
  function KeepAllowed(s: string): string {
    Filter(IsAllowed, s)
  }

  /** `VectorDatabase.preprocess_text`. */
  function Normalize(text: string): string {
    KeepAllowed(StripCitations(text))
  }

  /** Characters a marker can never consist of survive pass 1 by definition. */
  predicate IsPlain(c: char) { c != '[' && c != ']' && !IsDigit(c) }

  /** Allowed characters that pass 1 cannot delete. */
  predicate IsPlainAllowed(c: char) { IsAllowed(c) && IsPlain(c) }

  /**
   * `MarkerLength` is the regular expression's match at position 0: a prefix
   * of `s` is a marker exactly when it is the prefix of that length.
   */
  lemma MarkerLengthIsMatch(s: string)
    ensures forall k :: 0 <= k <= |s| ==> (IsMarker(s[..k]) <==> 0 < MarkerLength(s) == k)
  {
  }

  lemma {:induction false} StripSubsequence(s: string)
    ensures IsSubsequence(StripCitations(s), s)
    decreases |s|
  {
    if s != [] {
      var n := MarkerLength(s);
      if n > 0 {
        StripSubsequence(s[n..]);
        SubsequenceOfSuffix(StripCitations(s[n..]), s, n);
      } else {
        StripSubsequence(s[1..]);
        var r := StripCitations(s);
        assert r[0] == s[0] && r[1..] == StripCitations(s[1..]);
      }
    }
  }

  /** Pass 1 deletes nothing but brackets and digits: every other character survives, in order. */
  lemma {:induction false} StripKeepsPlain(s: string)
    ensures Filter(IsPlain, StripCitations(s)) == Filter(IsPlain, s)
    decreases |s|
  {
    if s != [] {
      var n := MarkerLength(s);
      if n > 0 {
        MarkerLengthIsMatch(s);
        assert IsMarker(s[..n]);
        FilterNone(IsPlain, s[..n]);
        assert s == s[..n] + s[n..];
        FilterConcat(IsPlain, s[..n], s[n..]);
        StripKeepsPlain(s[n..]);
      } else {
        assert s == [s[0]] + s[1..];
        FilterConcat(IsPlain, [s[0]], s[1..]);
        FilterConcat(IsPlain, [s[0]], StripCitations(s[1..]));
        StripKeepsPlain(s[1..]);
      }
    }
  }

  /** No `[` occurs inside a marker after its first character. */
  lemma MarkerInterior(m: string, j: nat)
    requires IsMarker(m) && 0 < j < |m|
    ensures m[j] != '['
  {
    if j < |m| - 1 {
      assert IsDigit(m[j]);
    }
  }

  /**
   * Pass 1 deletes every marker occurrence whole: a marker anywhere in `s`
   * is cut out, and the text on each side of it is scanned as if alone.
   * Markers cannot overlap, so the left-to-right scan never runs into one.
   */
  lemma {:induction false} StripAroundMarker(s: string, i: nat, k: nat)
    requires i <= k <= |s| && IsMarker(s[i..k])
    ensures StripCitations(s) == StripCitations(s[..i]) + StripCitations(s[k..])
    decreases i
  {
    var n := MarkerLength(s);
    if i == 0 {
      MarkerLengthIsMatch(s);
      assert s[..k] == s[i..k];
      assert s[..i] == [];
    } else if n > 0 {
      MatchEndsBeforeMarker(s, i, k);
      PrefixScan(s, i);
      StripAroundShifted(s, i, k, n);
      var p := s[..i];
      assert p[n..] == s[n..i];
      assert StripCitations(s) == StripCitations(s[n..]);
      assert StripCitations(p) == StripCitations(p[n..]);
    } else {
      PrefixScan(s, i);
      StripAroundShifted(s, i, k, 1);
      var p := s[..i];
      assert p[1..] == s[1..i] && p[0] == s[0];
      assert StripCitations(s) == [s[0]] + StripCitations(s[1..]);
      assert StripCitations(p) == [s[0]] + StripCitations(s[1..i]);
    }
  }

  /** The induction step of `StripAroundMarker`, for the scan resumed at `d`. */
  lemma {:induction false} StripAroundShifted(s: string, i: nat, k: nat, d: nat)
    requires 0 < d <= i <= k <= |s| && IsMarker(s[i..k])
    ensures StripCitations(s[d..]) == StripCitations(s[d..i]) + StripCitations(s[k..])
    decreases i, 0
  {
    var t := s[d..];
    assert t[i - d..k - d] == s[i..k];
    StripAroundMarker(t, i - d, k - d);
    assert t[..i - d] == s[d..i] && t[k - d..] == s[k..];
  }

  /** A match at the start of `s` ends before any later marker begins. */
  lemma MatchEndsBeforeMarker(s: string, i: nat, k: nat)
    requires 0 < i <= k <= |s| && IsMarker(s[i..k]) && MarkerLength(s) > 0
    ensures MarkerLength(s) <= i
  {
    var n := MarkerLength(s);
    MarkerLengthIsMatch(s);
    assert IsMarker(s[..n]);
    assert s[i] == '[' by { assert s[i..k][0] == s[i]; }
    forall j | 0 < j < n ensures s[j] != '[' {
      MarkerInterior(s[..n], j);
    }
  }

  /** Cutting `s` after the first step of the scan does not change that step. */
  lemma PrefixScan(s: string, i: nat)
    requires 0 < i <= |s| && MarkerLength(s) <= i
    ensures MarkerLength(s[..i]) == MarkerLength(s)
  {
    var p := s[..i];
    MarkerLengthIsMatch(s);
    MarkerLengthIsMatch(p);
    forall m | 0 <= m <= |p| ensures p[..m] == s[..m] {
    }
  }

  /** A marker anywhere in `s` is deleted whole by pass 1. */
  lemma MarkerShrinks(s: string, i: nat, k: nat)
    requires i <= k <= |s| && IsMarker(s[i..k])
    ensures |StripCitations(s)| <= |s| - (k - i)
  {
    StripAroundMarker(s, i, k);
    StripSubsequence(s[..i]);
    StripSubsequence(s[k..]);
  }

  lemma {:induction false} NoMarkerIsKept(s: string)
    requires !ContainsMarker(s)
    ensures StripCitations(s) == s
    decreases |s|
  {
    if s != [] {
      var n := MarkerLength(s);
      MarkerLengthIsMatch(s);
      assert !IsMarker(s[..n]) by { assert s[..n] == s[0..n]; }
      assert !ContainsMarker(s[1..]) by {
        forall i, k | 0 <= i <= k <= |s| - 1 ensures !IsMarker(s[1..][i..k]) {
          assert s[1..][i..k] == s[i + 1..k + 1];
        }
      }
      NoMarkerIsKept(s[1..]);
      assert s == [s[0]] + s[1..];
    }
  }

  /** Pass 1 leaves `s` unchanged exactly when `s` holds no marker. */
  lemma StripFixpoint(s: string)
    ensures StripCitations(s) == s <==> !ContainsMarker(s)
  {
    if ContainsMarker(s) {
      var i, k :| 0 <= i <= k <= |s| && IsMarker(s[i..k]);
      MarkerShrinks(s, i, k);
      assert k - i >= 3;
    } else {
      NoMarkerIsKept(s);
    }
  }

  /**
   * `preprocess_text` only deletes: its result is a subsequence of the
   * input, so never longer, and holds only allowed characters.
   */
  lemma NormalizeDeletesOnly(text: string)
    ensures IsSubsequence(Normalize(text), text) && |Normalize(text)| <= |text|
    ensures forall i :: 0 <= i < |Normalize(text)| ==> IsAllowed(Normalize(text)[i])
  {
    var t := StripCitations(text);
    StripSubsequence(text);
    FilterSubsequence(IsAllowed, t);
    SubsequenceTransitive(KeepAllowed(t), t, text);
    assert forall i :: 0 <= i < |KeepAllowed(t)| ==> KeepAllowed(t)[i] in KeepAllowed(t);
  }

  /**
   * `preprocess_text` returns its input unchanged exactly when the input
   * holds only allowed characters and no citation marker.
   */
  lemma NormalizeFixpoint(s: string)
    ensures Normalize(s) == s <==> (forall i :: 0 <= i < |s| ==> IsAllowed(s[i])) && !ContainsMarker(s)
  {
    var t := StripCitations(s);
    StripSubsequence(s);
    StripFixpoint(s);
    if Normalize(s) == s {
      assert |s| <= |t|;
      SubsequenceSameLength(t, s);
    }
    if (forall i :: 0 <= i < |s| ==> IsAllowed(s[i])) && !ContainsMarker(s) {
      FilterAll(IsAllowed, s);
    }
  }

  /** Every allowed character other than brackets and digits survives, in order. */
  lemma NormalizeKeepsPlainAllowed(s: string)
    ensures Filter(IsPlainAllowed, Normalize(s)) == Filter(IsPlainAllowed, s)
  {
    var t := StripCitations(s);
    FilterAbsorb(IsAllowed, IsPlainAllowed, t);
    FilterAbsorb(IsPlain, IsPlainAllowed, t);
    FilterAbsorb(IsPlain, IsPlainAllowed, s);
    StripKeepsPlain(s);
  }

  lemma StripExample1()
    ensures StripCitations("a[12]b") == "ab"
  {
    assert MarkerLength("a[12]b") == 0;
    assert "a[12]b"[1..] == "[12]b";
    assert MarkerLength("[12]b") == 4;
    assert "[12]b"[4..] == "b";
  }

  lemma StripExample2()
    ensures StripCitations("[1][2]") == ""
  {
    assert MarkerLength("[1][2]") == 3;
    assert "[1][2]"[3..] == "[2]";
    assert MarkerLength("[2]") == 3;
    assert "[2]"[3..] == "";
  }

  lemma StripExample3()
    ensures StripCitations("[[12]]") == "[]"
  {
    assert MarkerLength("[[12]]") == 0;
    assert "[[12]]"[1..] == "[12]]";
    assert MarkerLength("[12]]") == 4;
    assert "[12]]"[4..] == "]";
    assert MarkerLength("]") == 0;
    assert "]"[1..] == "";
  }

  lemma StripExample4()
    ensures StripCitations("[1[2]]") == "[1]"
  {
    assert MarkerLength("[1[2]]") == 0;
    assert "[1[2]]"[1..] == "1[2]]";
    assert MarkerLength("1[2]]") == 0;
    assert "1[2]]"[1..] == "[2]]";
    assert MarkerLength("[2]]") == 3;
    assert "[2]]"[3..] == "]";
    assert MarkerLength("]") == 0;
    assert "]"[1..] == "";
  }

  lemma StripExample5()
    ensures StripCitations("[]") == "[]"
    ensures StripCitations("[a]") == "[a]"
  {
    assert MarkerLength("[]") == 0;
    assert "[]"[1..] == "]";
    assert MarkerLength("]") == 0;
    assert "]"[1..] == "";
    assert MarkerLength("[a]") == 0;
    assert "[a]"[1..] == "a]";
    assert MarkerLength("a]") == 0;
    assert "a]"[1..] == "]";
  }

  lemma StripExample6()
    ensures StripCitations("5[1]") == "5"
  {
    assert MarkerLength("5[1]") == 0;
    assert "5[1]"[1..] == "[1]";
    assert MarkerLength("[1]") == 3;
    assert "[1]"[3..] == "";
  }

  lemma StripEuroExample()
    ensures StripCitations("[1\U{20AC}]") == "[1\U{20AC}]"
  {
    var s := "[1\U{20AC}]";
    assert MarkerLength(s) == 0;
    assert s[1..] == "1\U{20AC}]";
    assert MarkerLength("1\U{20AC}]") == 0;
    assert s[1..][1..] == "\U{20AC}]";
    assert MarkerLength("\U{20AC}]") == 0;
    assert s[1..][1..][1..] == "]";
    assert MarkerLength("]") == 0;
    assert "]"[1..] == "";
  }

  lemma KeepAllowedEuroExample()
    ensures KeepAllowed("[1\U{20AC}]") == "[1]"
  {
    var s := "[1\U{20AC}]";
    assert s[1..] == "1\U{20AC}]";
    KeepAllowedEuroTail();
  }

  lemma KeepAllowedEuroTail()
    ensures Filter(IsAllowed, "1\U{20AC}]") == "1]"
  {
    assert "1\U{20AC}]"[1..] == "\U{20AC}]";
    KeepAllowedEuroBracket();
  }

  lemma KeepAllowedEuroBracket()
    ensures Filter(IsAllowed, "\U{20AC}]") == "]"
  {
    assert "\U{20AC}]"[1..] == "]";
    assert Filter(IsAllowed, "]") == "]";
  }

  /**
   * `preprocess_text` is not idempotent: the second regular expression can
   * close up a new marker that a second application then deletes.
   */
  lemma NormalizeNotIdempotent()
    ensures Normalize("[1\U{20AC}]") == "[1]"
    ensures Normalize(Normalize("[1\U{20AC}]")) == ""
  {
    StripEuroExample();
    KeepAllowedEuroExample();
    assert MarkerLength("[1]") == 3;
    assert "[1]"[3..] == "";
  }

  /** Text made only of allowed characters can still be reduced to nothing. */
  lemma NormalizeCanEmptyAllowedText()
    ensures forall i :: 0 <= i < |"[7]"| ==> IsAllowed("[7]"[i])
    ensures Normalize("[7]") == ""
  {
  }
}
