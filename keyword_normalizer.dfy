/**
 * The keyword normaliser of `DataIngestion` (data_ingestion.py): lower-case
 * the text, keep only letters and whitespace, split on whitespace, drop the
 * stop words, lemmatise what is left and join the lemmas with single spaces.
 * The stop-word list and the WordNet lemmatiser are parameters.
 */
module KeywordNormalizer {
  import opened Chars
  import opened Seqs

  /** The characters `[^a-zA-Z\s]` does not delete. */
  predicate KeptByPattern(c: char) { IsLetter(c) || IsSpace(c) }

  /** `re.sub(r'[^a-zA-Z\s]', '', text.lower())`. */
  function Clean(text: string): (r: string)
    ensures forall i :: 0 <= i < |r| ==> IsLower(r[i]) || IsSpace(r[i])
  {
    var lowered := Map(ToLower, text);
    assert forall i :: 0 <= i < |Filter(KeptByPattern, lowered)| ==>
      Filter(KeptByPattern, lowered)[i] in Filter(KeptByPattern, lowered);
    Filter(KeptByPattern, lowered)
  }

  /** A token of `str.split()`: non-empty and free of whitespace. */
  predicate IsWord(t: string) {
    |t| > 0 && forall i :: 0 <= i < |t| ==> !IsSpace(t[i])
  }

  /** `str.split()` with no separator: the maximal runs of non-whitespace. */
  function Tokens(s: string): (ts: seq<string>)
    ensures forall i :: 0 <= i < |ts| ==> IsWord(ts[i])
    decreases |s|
  {
    if s == [] then []
    else if IsSpace(s[0]) then Tokens(s[1..])
    else
      var n := Span(IsNotSpace, s);
      [s[..n]] + Tokens(s[n..])
  }

  /** `' '.join(ts)`. */
  function Join(ts: seq<string>): string {
    if |ts| == 0 then "" else if |ts| == 1 then ts[0] else ts[0] + " " + Join(ts[1..])
  }

  function Flatten(ts: seq<string>): string {
    if ts == [] then "" else ts[0] + Flatten(ts[1..])
  }

  /** The comprehension's filter: the tokens that are not stop words, in order. */
  function DropStopWords(ts: seq<string>, stop: set<string>): (r: seq<string>)
    ensures forall t :: t in r ==> t in ts && t !in stop
  {
    if ts == [] then [] else (if ts[0] in stop then [] else [ts[0]]) + DropStopWords(ts[1..], stop)
  }

  /** `DataIngestion.preprocess_text`. */
  function KeywordText(text: string, stop: set<string>, lemmatize: string -> string): string {
    Join(Map(lemmatize, DropStopWords(Tokens(Clean(text)), stop)))
  }

  /** Every whitespace character is a single space between two non-space characters. */
  predicate IsWellSpaced(s: string) {
    forall i :: 0 <= i < |s| && IsSpace(s[i]) ==>
      s[i] == ' ' && 0 < i < |s| - 1 && !IsSpace(s[i - 1]) && !IsSpace(s[i + 1])
  }

  /** The lemmatiser maps words to words. */
  ghost predicate LemmasAreWords(lemmatize: string -> string) {
    forall w :: IsWord(w) ==> IsWord(lemmatize(w))
  }

  /**
   * Cleaning keeps exactly the ASCII letters and whitespace of the input, in
   * order, with the letters lower-cased.
   */
  lemma CleanKeepsLettersAndSpaces(text: string)
    ensures Clean(text) == Map(ToLower, Filter(KeptByPattern, text))
  {
  }

  /** Splitting loses only whitespace: the tokens concatenate to the non-space characters. */
  lemma {:induction false} TokensCoverNonSpace(s: string)
    ensures Flatten(Tokens(s)) == Filter(IsNotSpace, s)
    decreases |s|
  {
    if s != [] {
      if IsSpace(s[0]) {
        assert s == [s[0]] + s[1..];
        FilterConcat(IsNotSpace, [s[0]], s[1..]);
        TokensCoverNonSpace(s[1..]);
      } else {
        var n := LeadingWord(s);
        TokensCoverNonSpace(s[n..]);
        var ts := Tokens(s);
        assert ts[0] == s[..n] && ts[1..] == Tokens(s[n..]);
      }
    }
  }

  /** The first token of text that starts with a non-space, and what the filter makes of it. */
  lemma LeadingWord(s: string) returns (n: nat)
    requires s != [] && !IsSpace(s[0])
    ensures n == Span(IsNotSpace, s) && 0 < n <= |s|
    ensures Filter(IsNotSpace, s) == s[..n] + Filter(IsNotSpace, s[n..])
  {
    n := Span(IsNotSpace, s);
    assert s == s[..n] + s[n..];
    FilterConcat(IsNotSpace, s[..n], s[n..]);
    FilterAll(IsNotSpace, s[..n]);
  }

  /** Text splits into no tokens exactly when it is all whitespace. */
  lemma {:induction false} TokensEmpty(s: string)
    ensures Tokens(s) == [] <==> forall i :: 0 <= i < |s| ==> IsSpace(s[i])
    decreases |s|
  {
    if s != [] && IsSpace(s[0]) {
      TokensEmpty(s[1..]);
      assert forall i :: 1 <= i < |s| ==> s[i] == s[1..][i - 1];
    }
  }

  /** Splitting a space-joined list of words gives the words back. */
  lemma {:induction false} TokensOfJoin(ts: seq<string>)
    requires forall i :: 0 <= i < |ts| ==> IsWord(ts[i])
    ensures Tokens(Join(ts)) == ts
  {
    if |ts| == 1 {
      var t := ts[0];
      SpanIs(IsNotSpace, t, |t|);
      assert t[..|t|] == t && t[|t|..] == [];
    } else if |ts| > 1 {
      var t := ts[0];
      var rest := Join(ts[1..]);
      var s := t + " " + rest;
      assert forall i :: 0 <= i < |t| ==> s[i] == t[i];
      assert s[|t|] == ' ';
      SpanIs(IsNotSpace, s, |t|);
      assert s[..|t|] == t;
      assert s[|t|..] == " " + rest;
      assert (" " + rest)[1..] == rest;
      TokensOfJoin(ts[1..]);
      assert ts == [t] + ts[1..];
    }
  }

  lemma JoinHead(ts: seq<string>)
    requires |ts| > 0 && |ts[0]| > 0
    ensures |Join(ts)| > 0 && Join(ts)[0] == ts[0][0]
  {
  }

  /** Words joined with single spaces have no leading, trailing or doubled whitespace. */
  lemma {:induction false} JoinWellSpaced(ts: seq<string>)
    requires forall i :: 0 <= i < |ts| ==> IsWord(ts[i])
    ensures IsWellSpaced(Join(ts))
  {
    if |ts| > 1 {
      var t := ts[0];
      var rest := Join(ts[1..]);
      JoinWellSpaced(ts[1..]);
      JoinHead(ts[1..]);
      var s := t + " " + rest;
      assert Join(ts) == s;
      forall i | 0 <= i < |s|
        ensures IsSpace(s[i]) ==> s[i] == ' ' && 0 < i < |s| - 1 && !IsSpace(s[i - 1]) && !IsSpace(s[i + 1])
      {
        if i < |t| {
          assert s[i] == t[i];
        } else if i == |t| {
          assert s[i - 1] == t[|t| - 1];
          assert s[i + 1] == rest[0];
        } else {
          var j := i - |t| - 1;
          assert s[i] == rest[j];
          if IsSpace(rest[j]) {
            assert s[i - 1] == rest[j - 1];
            assert s[i + 1] == rest[j + 1];
          }
        }
      }
    }
  }

  /** Dropping stop words keeps order and every non-stop token, and removes every stop word. */
  lemma DropStopWordsKeepsOthers(ts: seq<string>, stop: set<string>)
    ensures IsSubsequence(DropStopWords(ts, stop), ts)
    ensures forall t :: multiset(DropStopWords(ts, stop))[t] == if t in stop then 0 else multiset(ts)[t]
  {
    DropStopWordsInOrder(ts, stop);
    DropStopWordsCounts(ts, stop);
  }

  lemma {:induction false} DropStopWordsInOrder(ts: seq<string>, stop: set<string>)
    ensures IsSubsequence(DropStopWords(ts, stop), ts)
  {
    if ts != [] {
      DropStopWordsInOrder(ts[1..], stop);
      var r := DropStopWords(ts, stop);
      if ts[0] in stop {
        assert r == DropStopWords(ts[1..], stop);
      } else {
        assert r[0] == ts[0] && r[1..] == DropStopWords(ts[1..], stop);
      }
    }
  }

  lemma {:induction false} DropStopWordsCounts(ts: seq<string>, stop: set<string>)
    ensures forall t :: multiset(DropStopWords(ts, stop))[t] == if t in stop then 0 else multiset(ts)[t]
  {
    if ts != [] {
      DropStopWordsCounts(ts[1..], stop);
      assert ts == [ts[0]] + ts[1..];
    }
  }

  /**
   * When lemmas are words, the output splits into exactly one lemma per
   * non-stop token of the cleaned text, in the order of the tokens.
   */
  lemma KeywordTokens(text: string, stop: set<string>, lemmatize: string -> string)
    requires LemmasAreWords(lemmatize)
    ensures Tokens(KeywordText(text, stop, lemmatize)) == Map(lemmatize, DropStopWords(Tokens(Clean(text)), stop))
  {
    var kept := KeptAreWords(text, stop);
    var ls := Map(lemmatize, kept);
    assert forall i :: 0 <= i < |ls| ==> IsWord(ls[i]);
    TokensOfJoin(ls);
  }

  /** When lemmas are words, the output has no leading, trailing or doubled whitespace. */
  lemma KeywordWellSpaced(text: string, stop: set<string>, lemmatize: string -> string)
    requires LemmasAreWords(lemmatize)
    ensures IsWellSpaced(KeywordText(text, stop, lemmatize))
  {
    var kept := KeptAreWords(text, stop);
    var ls := Map(lemmatize, kept);
    assert forall i :: 0 <= i < |ls| ==> IsWord(ls[i]);
    JoinWellSpaced(ls);
  }

  lemma KeptAreWords(text: string, stop: set<string>) returns (kept: seq<string>)
    ensures kept == DropStopWords(Tokens(Clean(text)), stop)
    ensures forall i :: 0 <= i < |kept| ==> IsWord(kept[i])
  {
    var ts := Tokens(Clean(text));
    kept := DropStopWords(ts, stop);
    forall i | 0 <= i < |kept| ensures IsWord(kept[i]) {
      assert kept[i] in kept;
      var j :| 0 <= j < |ts| && ts[j] == kept[i];
    }
  }

  /** Text with no ASCII letter becomes the empty string. */
  lemma WithoutLettersIsEmpty(text: string, stop: set<string>, lemmatize: string -> string)
    requires forall i :: 0 <= i < |text| ==> !IsLetter(text[i])
    ensures KeywordText(text, stop, lemmatize) == ""
  {
    var c := Clean(text);
    CleanKeepsLettersAndSpaces(text);
    forall i | 0 <= i < |c| ensures IsSpace(c[i]) {
      var kept := Filter(KeptByPattern, text);
      assert c[i] == ToLower(kept[i]);
      assert kept[i] in kept;
    }
    TokensEmpty(c);
  }

  /** Text whose every token is a stop word becomes the empty string. */
  lemma AllStopWordsIsEmpty(text: string, stop: set<string>, lemmatize: string -> string)
    requires forall t :: t in Tokens(Clean(text)) ==> t in stop
    ensures KeywordText(text, stop, lemmatize) == ""
  {
    DropOnlyStopWords(Tokens(Clean(text)), stop);
  }

  lemma {:induction false} DropOnlyStopWords(ts: seq<string>, stop: set<string>)
    requires forall t :: t in ts ==> t in stop
    ensures DropStopWords(ts, stop) == []
  {
    if ts != [] {
      assert ts[0] in ts;
      assert forall t :: t in ts[1..] ==> t in ts;
      DropOnlyStopWords(ts[1..], stop);
    }
  }

  /**
   * A single word of letters is tested against the stop words after
   * lower-casing ("The" is dropped by the stop word "the")...
   */
  lemma StopWordIsDropped(text: string, stop: set<string>, lemmatize: string -> string)
    requires |text| > 0 && forall i :: 0 <= i < |text| ==> IsLetter(text[i])
    requires Map(ToLower, text) in stop
    ensures KeywordText(text, stop, lemmatize) == ""
  {
    var w := Map(ToLower, text);
    LettersClean(text);
    assert [w][1..] == [];
    assert DropStopWords([w], stop) == [];
  }

  /**
   * ...and before lemmatisation: a word that is not a stop word yields its
   * lemma even when the lemma itself is a stop word.
   */
  lemma NonStopWordIsLemmatized(text: string, stop: set<string>, lemmatize: string -> string)
    requires |text| > 0 && forall i :: 0 <= i < |text| ==> IsLetter(text[i])
    requires Map(ToLower, text) !in stop
    ensures KeywordText(text, stop, lemmatize) == lemmatize(Map(ToLower, text))
  {
    var w := Map(ToLower, text);
    LettersClean(text);
    assert [w][1..] == [];
    assert DropStopWords([w], stop) == [w];
    assert Map(lemmatize, [w]) == [lemmatize(w)];
  }

  lemma LettersClean(text: string)
    requires |text| > 0 && forall i :: 0 <= i < |text| ==> IsLetter(text[i])
    ensures Tokens(Clean(text)) == [Map(ToLower, text)]
  {
    CleanKeepsLettersAndSpaces(text);
    FilterAll(KeptByPattern, text);
    SingleWordTokens(Map(ToLower, text));
  }

  lemma SingleWordTokens(w: string)
    requires IsWord(w)
    ensures Tokens(w) == [w]
  {
    TokensOfJoin([w]);
  }

  /** Every whitespace character, not only `' '`, separates the tokens on its two sides. */
  lemma {:induction false} TokensAtSpace(a: string, c: char, b: string)
    requires IsSpace(c)
    ensures Tokens(a + [c] + b) == Tokens(a) + Tokens(b)
    decreases |a|
  {
    var s := a + [c] + b;
    if a == [] {
      assert s[1..] == b;
    } else if IsSpace(a[0]) {
      assert s[0] == a[0] && s[1..] == a[1..] + [c] + b;
      TokensAtSpace(a[1..], c, b);
    } else {
      var n := Span(IsNotSpace, a);
      assert forall i :: 0 <= i < n ==> s[i] == a[i];
      assert s[n] == if n < |a| then a[n] else c;
      SpanIs(IsNotSpace, s, n);
      assert s[..n] == a[..n];
      assert s[n..] == a[n..] + [c] + b;
      TokensAtSpace(a[n..], c, b);
    }
  }

  /** A line feed splits like a space: `"a\nb".split()` is `["a", "b"]`. */
  lemma NewlineSplits()
    ensures Tokens("a\nb") == ["a", "b"]
  {
    assert "a\nb" == "a" + ['\n'] + "b";
    TokensAtSpace("a", '\n', "b");
    SingleWordTokens("a");
    SingleWordTokens("b");
  }
}
