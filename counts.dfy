/** The two script measures of the content generator: `count_sentences`
    (`re.split(r"[.!?]+", text)` and the non-blank pieces) and `count_words`
    (`re.findall(r"\w+", text)`). */
module ScriptCounts {
  import opened Text

  /** The sentence terminators of `[.!?]`. */
  const Terminators: set<char> := {'.', '!', '?'}

  /** The length of the run of terminators that starts `u`. */
  function TerminatorRun(u: string): (n: nat)
    ensures n <= |u|
    ensures n < |u| ==> u[n] !in Terminators
    ensures forall k :: 0 <= k < n ==> u[k] in Terminators
  {
    if u != [] && u[0] in Terminators then 1 + TerminatorRun(u[1..]) else 0
  }

  /** A text without a sentence terminator. */
  predicate Unterminated(p: string)
  {
    forall k :: 0 <= k < |p| ==> p[k] !in Terminators
  }

  /** `re.split(r"[.!?]+", text)`: the text between maximal runs of
      terminators, a run at either end leaving an empty piece there. */
  function Pieces(s: string): (r: seq<string>)
    ensures |r| >= 1
    ensures forall i :: 0 <= i < |r| ==> Unterminated(r[i])
    decreases |s|
  {
    var i := FindAny(s, Terminators);
    if i == |s| then [s]
    else
      var n := TerminatorRun(s[i..]);
      assert Unterminated(s[..i]) by {
        assert forall k :: 0 <= k < i ==> s[..i][k] == s[k];
      }
      [s[..i]] + Pieces(s[i..][n..])
  }

  /** The reference split: on every single terminator, so that a run of `n`
      terminators leaves `n - 1` empty pieces. */
  function Fields(s: string): (r: seq<string>)
    ensures |r| >= 1
    ensures forall i :: 0 <= i < |r| ==> Unterminated(r[i])
    decreases |s|
  {
    var i := FindAny(s, Terminators);
    if i == |s| then [s]
    else
      assert Unterminated(s[..i]) by {
        assert forall k :: 0 <= k < i ==> s[..i][k] == s[k];
      }
      [s[..i]] + Fields(s[i + 1..])
  }

  /** The number of pieces that are not blank, `len([p for p in parts if p.strip()])`:
      a piece is kept when it strips to a non-empty string, which is when it
      is not blank (`Text.StripEmptyIffBlank`). */
  function CountNonBlank(ps: seq<string>): (n: nat)
    ensures n <= |ps|
  {
    if ps == [] then 0 else (if Blank(ps[0]) then 0 else 1) + CountNonBlank(ps[1..])
  }

  /** `count_sentences`. */
  function CountSentences(text: string): (n: nat)
    ensures n <= |Pieces(text)|
  {
    CountNonBlank(Pieces(text))
  }

  lemma {:induction false} CountNonBlankAppend(a: seq<string>, b: seq<string>)
    ensures CountNonBlank(a + b) == CountNonBlank(a) + CountNonBlank(b)
  {
    if a != [] {
      assert (a + b)[1..] == a[1..] + b;
      CountNonBlankAppend(a[1..], b);
    } else {
      assert a + b == b;
    }
  }

  /** `FindAny` is the first position of a character of the set. */
  lemma FindAnyIs(s: string, cs: set<char>, j: nat)
    requires j <= |s| && (j < |s| ==> s[j] in cs) && forall k :: 0 <= k < j ==> s[k] !in cs
    ensures FindAny(s, cs) == j
  {
  }

  /** A terminator at the start leaves an empty field. */
  lemma FieldsAtTerminator(u: string)
    requires u != [] && u[0] in Terminators
    ensures CountNonBlank(Fields(u)) == CountNonBlank(Fields(u[1..]))
  {
    FindAnyIs(u, Terminators, 0);
    FieldsSplit(u, 0);
    assert u[..0] == [];
    CountNonBlankAppend([[]], Fields(u[1..]));
  }

  /** A run of terminators only adds empty fields. */
  lemma {:induction false} FieldsSkipRun(u: string)
    ensures CountNonBlank(Fields(u)) == CountNonBlank(Fields(u[TerminatorRun(u)..]))
    decreases |u|
  {
    if u != [] && u[0] in Terminators {
      var m := TerminatorRun(u[1..]);
      assert TerminatorRun(u) == 1 + m;
      FieldsAtTerminator(u);
      FieldsSkipRun(u[1..]);
      DropDrop(u, 1, m);
    } else {
      assert TerminatorRun(u) == 0;
      assert u[0..] == u;
    }
  }

  /** The split at the first terminator, for both splits. */
  lemma SplitsAt(s: string, i: nat)
    requires i < |s| && i == FindAny(s, Terminators)
    ensures Pieces(s) == [s[..i]] + Pieces(s[i..][TerminatorRun(s[i..])..])
    ensures Fields(s) == [s[..i]] + Fields(s[i + 1..])
  {
  }

  /** Splitting on runs and splitting on single terminators count the same
      sentences: the empty pieces between terminators of one run are blank. */
  lemma {:induction false} CountSentencesFields(s: string)
    ensures CountSentences(s) == CountNonBlank(Fields(s))
    decreases |s|
  {
    var i := FindAny(s, Terminators);
    if i < |s| {
      var t := s[i..];
      var n := TerminatorRun(t);
      SplitsAt(s, i);
      FieldsSkipRun(t);
      FieldsAtTerminator(t);
      DropDrop(s, i, 1);
      CountSentencesFields(t[n..]);
    } else {
      assert Pieces(s) == [s] && Fields(s) == [s];
    }
  }

  /** A terminator separates the sentences before it from those after it:
      the fields of the whole are the fields of the two sides. */
  lemma {:induction false} FieldsAppend(a: string, c: char, b: string)
    requires c in Terminators
    ensures Fields(a + [c] + b) == Fields(a) + Fields(b)
    decreases |a|
  {
    var i := FindAny(a, Terminators);
    if i < |a| {
      FieldsAppend(a[i + 1..], c, b);
      FieldsAppendAt(a, c, b, i);
    } else {
      FieldsAppendLast(a, c, b);
    }
  }

  /** The step of `FieldsAppend` when `a` has a terminator at `i`. */
  lemma FieldsAppendAt(a: string, c: char, b: string, i: nat)
    requires c in Terminators && i < |a| && i == FindAny(a, Terminators)
    requires Fields(a[i + 1..] + [c] + b) == Fields(a[i + 1..]) + Fields(b)
    ensures Fields(a + [c] + b) == Fields(a) + Fields(b)
  {
    var s := a + [c] + b;
    FindAnyIs(s, Terminators, i);
    JoinSlices(a, c, b, i);
    FieldsSplit(s, i);
    FieldsSplit(a, i);
    JoinFields(Fields(s), Fields(a), a[..i], Fields(a[i + 1..]), Fields(b));
  }

  /** Slicing `a + [c] + b` before `|a|` slices `a`. */
  lemma JoinSlices(a: string, c: char, b: string, i: nat)
    requires i < |a|
    ensures (a + [c] + b)[..i] == a[..i]
    ensures (a + [c] + b)[i + 1..] == a[i + 1..] + [c] + b
  {
  }

  lemma JoinFields(fs: seq<string>, fa: seq<string>, head: string, ft: seq<string>, fb: seq<string>)
    requires fs == [head] + (ft + fb) && fa == [head] + ft
    ensures fs == fa + fb
  {
  }

  /** The base of `FieldsAppend`: `a` has no terminator, so `c` ends its only field. */
  lemma FieldsAppendLast(a: string, c: char, b: string)
    requires c in Terminators && FindAny(a, Terminators) == |a|
    ensures Fields(a + [c] + b) == Fields(a) + Fields(b)
  {
    var s := a + [c] + b;
    FindAnyIs(s, Terminators, |a|);
    assert s[..|a|] == a;
    assert s[|a| + 1..] == b;
    FieldsSplit(s, |a|);
    assert Fields(a) == [a];
  }

  /** The reference split at its first terminator. */
  lemma FieldsSplit(s: string, i: nat)
    requires i < |s| && i == FindAny(s, Terminators)
    ensures Fields(s) == [s[..i]] + Fields(s[i + 1..])
  {
  }

  /** Sentence counts add up across a terminator. */
  lemma CountSentencesAppend(a: string, c: char, b: string)
    requires c in Terminators
    ensures CountSentences(a + [c] + b) == CountSentences(a) + CountSentences(b)
  {
    CountSentencesFields(a + [c] + b);
    CountSentencesFields(a);
    CountSentencesFields(b);
    FieldsAppend(a, c, b);
    CountNonBlankAppend(Fields(a), Fields(b));
  }

  /** A blank text has no sentence: it has no terminator, so it is one blank
      piece. */
  lemma CountSentencesBlank(s: string)
    requires Blank(s)
    ensures CountSentences(s) == 0
  {
    assert forall k :: 0 <= k < |s| ==> IsSpace(s[k]) && s[k] !in Terminators;
    FindAnyIs(s, Terminators, |s|);
    assert Pieces(s) == [s];
  }

  /** A text that is not blank and has no terminator is one sentence. */
  lemma CountSentencesOne(s: string)
    requires !Blank(s) && forall k :: 0 <= k < |s| ==> s[k] !in Terminators
    ensures CountSentences(s) == 1
  {
    FindAnyIs(s, Terminators, |s|);
  }

  // ---------------------------------------------------------------------
  // count_words

  /** The length of the run of word characters that starts `u`. */
  function WordRun(u: string, word: char -> bool): (n: nat)
    ensures n <= |u|
    ensures n < |u| ==> !word(u[n])
    ensures forall k :: 0 <= k < n ==> word(u[k])
  {
    if u != [] && word(u[0]) then 1 + WordRun(u[1..], word) else 0
  }

  /** `re.findall(r"\w+", s)`: the maximal runs of word characters, left to
      right. `word` is the class `\w`, which Python takes from the Unicode
      character database. */
  function Words(s: string, word: char -> bool): (r: seq<string>)
    ensures forall i :: 0 <= i < |r| ==> r[i] != []
    ensures forall i, k :: 0 <= i < |r| && 0 <= k < |r[i]| ==> word(r[i][k])
    decreases |s|
  {
    if s == [] then []
    else if !word(s[0]) then Words(s[1..], word)
    else
      var n := WordRun(s, word);
      [s[..n]] + Words(s[n..], word)
  }

  /** `count_words`. */
  function CountWords(text: string, word: char -> bool): (n: nat)
    ensures n <= |text|
  {
    WordsBound(text, word);
    |Words(text, word)|
  }

  /** There are no more words than characters. */
  lemma {:induction false} WordsBound(s: string, word: char -> bool)
    ensures |Words(s, word)| <= |s|
    decreases |s|
  {
    if s != [] {
      if !word(s[0]) {
        WordsBound(s[1..], word);
      } else {
        WordsBound(s[WordRun(s, word)..], word);
      }
    }
  }

  /** A text has words exactly when it has a word character. */
  lemma {:induction false} CountWordsZero(s: string, word: char -> bool)
    ensures CountWords(s, word) == 0 <==> forall k :: 0 <= k < |s| ==> !word(s[k])
    decreases |s|
  {
    if s != [] && !word(s[0]) {
      CountWordsZero(s[1..], word);
      assert forall k :: 1 <= k < |s| ==> s[1..][k - 1] == s[k];
    }
  }

  /** The length of a word run does not see past a character ending it. */
  lemma {:induction false} WordRunAppend(a: string, y: string, word: char -> bool)
    requires WordRun(a, word) < |a| || (y != [] && !word(y[0]))
    ensures WordRun(a + y, word) == WordRun(a, word)
    decreases |a|
  {
    if a != [] && word(a[0]) {
      assert (a + y)[1..] == a[1..] + y;
      WordRunAppend(a[1..], y, word);
    } else if a == [] {
      assert a + y == y;
    }
  }

  /** A non-word character separates the words before it from those after it. */
  lemma {:induction false} WordsAppend(a: string, c: char, b: string, word: char -> bool)
    requires !word(c)
    ensures Words(a + [c] + b, word) == Words(a, word) + Words(b, word)
    decreases |a|
  {
    var s := a + [c] + b;
    if a == [] {
      assert s[1..] == b;
    } else if !word(a[0]) {
      assert s[1..] == a[1..] + [c] + b;
      WordsAppend(a[1..], c, b, word);
    } else {
      assert s == a + ([c] + b);
      WordRunAppend(a, [c] + b, word);
      var n := WordRun(a, word);
      assert s[..n] == a[..n];
      assert s[n..] == a[n..] + [c] + b;
      WordsAppend(a[n..], c, b, word);
    }
  }

  /** Word counts add up across a non-word character. */
  lemma CountWordsAppend(a: string, c: char, b: string, word: char -> bool)
    requires !word(c)
    ensures CountWords(a + [c] + b, word) == CountWords(a, word) + CountWords(b, word)
  {
    WordsAppend(a, c, b, word);
  }

  /** A non-empty run of word characters is one word. */
  lemma {:induction false} CountWordsOne(s: string, word: char -> bool)
    requires s != [] && forall k :: 0 <= k < |s| ==> word(s[k])
    ensures Words(s, word) == [s]
  {
    var n := WordRun(s, word);
    assert n == |s|;
    assert s[..n] == s && s[n..] == [];
    assert Words(s, word) == [s[..n]] + Words(s[n..], word);
  }
}
