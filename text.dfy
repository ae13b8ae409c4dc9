/** The string operations of Python that the pipeline relies on: `str.strip`,
    ASCII `str.lower`, substring tests, `str.endswith` and decimal rendering
    of a non-negative int, each with the facts the rest of the model uses. */
module Text {

  /** Python's `str.isspace`, which is also what the `\s` regex class matches. */
  predicate IsSpace(c: char)
  {
    var n := c as int;
    (9 <= n <= 13) || (28 <= n <= 32) || n == 0x85 || n == 0xA0 || n == 0x1680
    || (0x2000 <= n <= 0x200A) || n == 0x2028 || n == 0x2029 || n == 0x202F
    || n == 0x205F || n == 0x3000
  }

  predicate AllSpace(s: string)
  {
    forall i :: 0 <= i < |s| ==> IsSpace(s[i])
  }

  /** Neither begins nor ends with whitespace. */
  predicate Trimmed(s: string)
  {
    s == [] || (!IsSpace(s[0]) && !IsSpace(s[|s| - 1]))
  }

  /** True when the text is empty or whitespace only, i.e. `not s.strip()`. */
  predicate Blank(s: string)
  {
    AllSpace(s)
  }

  function StripLeft(s: string): (r: string)
    ensures |r| <= |s| && r == s[|s| - |r|..]
    ensures AllSpace(s[..|s| - |r|])
    ensures r == [] || !IsSpace(r[0])
  {
    if |s| > 0 && IsSpace(s[0]) then
      var r := StripLeft(s[1..]);
      assert s[1..][|s| - 1 - |r|..] == s[|s| - |r|..];
      assert forall k :: 1 <= k < |s| - |r| ==> s[1..][..|s| - 1 - |r|][k - 1] == s[k];
      r
    else s
  }

  function StripRight(s: string): (r: string)
    ensures |r| <= |s| && r == s[..|r|]
    ensures AllSpace(s[|r|..])
    ensures r == [] || !IsSpace(r[|r| - 1])
  {
    if |s| > 0 && IsSpace(s[|s| - 1]) then
      var r := StripRight(s[..|s| - 1]);
      assert s[..|s| - 1][..|r|] == s[..|r|];
      assert forall k :: |r| <= k < |s| - 1 ==> s[..|s| - 1][|r|..][k - |r|] == s[k];
      r
    else s
  }

  /** Python's `s.strip()`: drops the leading and the trailing whitespace. */
  function Strip(s: string): (r: string)
    ensures Trimmed(r)
    ensures |r| <= |s|
  {
    var l := StripLeft(s);
    var r := StripRight(l);
    assert r != [] ==> r[0] == l[0];
    r
  }

  /** `s` is the whitespace `s[..i]`, then `t == Strip(s)`, then more whitespace. */
  lemma StripDecompose(s: string) returns (i: nat, t: string)
    ensures t == Strip(s)
    ensures i + |t| <= |s| && s[i..i + |t|] == t
    ensures AllSpace(s[..i]) && AllSpace(s[i + |t|..])
  {
    var l := StripLeft(s);
    t := StripRight(l);
    i := |s| - |l|;
    Decompose(s, i, l, t);
  }

  /** A suffix `l` after whitespace, whose prefix `r` is followed by
      whitespace, places `r` between two runs of whitespace. */
  lemma Decompose(s: string, i: nat, l: string, r: string)
    requires i <= |s| && l == s[i..] && AllSpace(s[..i])
    requires |r| <= |l| && r == l[..|r|] && AllSpace(l[|r|..])
    ensures i + |r| <= |s| && s[i..i + |r|] == r
    ensures AllSpace(s[..i]) && AllSpace(s[i + |r|..])
  {
    SuffixSlices(s, i, |r|);
  }

  /** Slicing a suffix is slicing the text. */
  lemma SuffixSlices(s: string, i: nat, n: nat)
    requires i + n <= |s|
    ensures s[i..][..n] == s[i..i + n] && s[i..][n..] == s[i + n..]
  {
  }

  /** Dropping twice is dropping once. */
  lemma DropDrop(u: string, i: nat, j: nat)
    requires i + j <= |u|
    ensures u[i..][j..] == u[i + j..]
  {
  }

  lemma {:induction false} StripLeftSplit(p: string, t: string)
    requires AllSpace(p)
    requires t == [] || !IsSpace(t[0])
    ensures StripLeft(p + t) == t
  {
    if p != [] {
      assert (p + t)[1..] == p[1..] + t;
      StripLeftSplit(p[1..], t);
    } else {
      assert p + t == t;
    }
  }

  lemma {:induction false} StripRightSplit(t: string, q: string)
    requires AllSpace(q)
    requires t == [] || !IsSpace(t[|t| - 1])
    ensures StripRight(t + q) == t
  {
    if q != [] {
      assert (t + q)[..|t + q| - 1] == t + q[..|q| - 1];
      StripRightSplit(t, q[..|q| - 1]);
    } else {
      assert t + q == t;
    }
  }

  /** `strip` returns exactly the core of a word padded by whitespace on both sides:
      the decomposition it promises is the only one. */
  lemma StripUnique(p: string, t: string, q: string)
    requires AllSpace(p) && AllSpace(q) && Trimmed(t)
    ensures Strip(p + t + q) == t
  {
    if t == [] {
      assert p + t + q == p + q;
      assert AllSpace(p + q);
      StripLeftSplit(p + q, []);
      assert p + q + [] == p + q;
      StripRightSplit([], []);
    } else {
      assert p + t + q == p + (t + q);
      StripLeftSplit(p, t + q);
      StripRightSplit(t, q);
    }
  }

  /** Stripping is idempotent. */
  lemma StripIdempotent(s: string)
    ensures Strip(Strip(s)) == Strip(s)
  {
    var r := Strip(s);
    assert [] + r + [] == r;
    StripUnique([], r, []);
  }

  /** Only a blank text strips to the empty string. */
  lemma StripEmptyIsBlank(s: string)
    requires Strip(s) == []
    ensures Blank(s)
  {
    var i, t := StripDecompose(s);
    forall k | 0 <= k < |s|
      ensures IsSpace(s[k])
    {
      if k < i {
        assert s[..i][k] == s[k];
      } else {
        assert s[i..][k - i] == s[k];
      }
    }
  }

  /** A blank text strips to the empty string and a non-blank one does not. */
  lemma StripEmptyIffBlank(s: string)
    ensures Strip(s) == [] <==> Blank(s)
  {
    if Blank(s) {
      assert s + [] + [] == s;
      StripUnique(s, [], []);
    }
    if Strip(s) == [] {
      StripEmptyIsBlank(s);
    }
  }

  /** ASCII `str.lower`. */
  function LowerChar(c: char): (r: char)
    ensures 'A' <= c <= 'Z' ==> r as int == c as int + 32
    ensures !('A' <= c <= 'Z') ==> r == c
  {
    if 'A' <= c <= 'Z' then (c as int + 32) as char else c
  }

  function Lower(s: string): (r: string)
  {
    seq(|s|, i requires 0 <= i < |s| => LowerChar(s[i]))
  }

  /** `k in s` for strings: `k` occurs in `s` at some position. */
  ghost predicate OccursAt(k: string, s: string, i: int)
  {
    0 <= i <= |s| - |k| && s[i..i + |k|] == k
  }

  /** Executable substring test, equivalent to an occurrence at some position. */
  function Contains(s: string, k: string): (b: bool)
    ensures b <==> exists i :: OccursAt(k, s, i)
  {
    if |k| > |s| then false
    else if s[..|k|] == k then (assert OccursAt(k, s, 0); true)
    else
      var rest := Contains(s[1..], k);
      assert rest ==> exists i :: OccursAt(k, s, i) by {
        if rest {
          var i :| OccursAt(k, s[1..], i);
          assert s[1..][i..i + |k|] == s[i + 1..i + 1 + |k|];
          assert OccursAt(k, s, i + 1);
        }
      }
      assert (exists i :: OccursAt(k, s, i)) ==> rest by {
        if exists i :: OccursAt(k, s, i) {
          var i :| OccursAt(k, s, i);
          assert i != 0;
          assert s[1..][i - 1..i - 1 + |k|] == s[i..i + |k|];
          assert OccursAt(k, s[1..], i - 1);
        }
      }
      rest
  }

  /** Any occurrence of a word inside a part of a text is an occurrence in the text. */
  lemma ContainsInfix(a: string, b: string, c: string, k: string)
    requires Contains(b, k)
    ensures Contains(a + b + c, k)
  {
    var i :| OccursAt(k, b, i);
    var s := a + b + c;
    assert s[|a| + i..|a| + i + |k|] == b[i..i + |k|];
    assert OccursAt(k, s, |a| + i);
  }

  /** If `k` contains `j`, every text containing `k` contains `j`. */
  lemma ContainsTransitive(s: string, k: string, j: string)
    requires Contains(s, k) && Contains(k, j)
    ensures Contains(s, j)
  {
    var i :| OccursAt(k, s, i);
    var m :| OccursAt(j, k, m);
    var w := s[i..i + |k|];
    assert w == k;
    var u, v := w[m..m + |j|], s[i + m..i + m + |j|];
    forall t | 0 <= t < |j|
      ensures u[t] == v[t]
    {
      assert w[m + t] == s[i + m + t];
    }
    assert u == v;
    assert OccursAt(j, s, i + m);
  }

  /** Python's `s.endswith(x)`. */
  predicate EndsWith(s: string, x: string)
  {
    |x| <= |s| && s[|s| - |x|..] == x
  }

  predicate IsDigit(c: char)
  {
    '0' <= c <= '9'
  }

  function DigitChar(d: nat): (c: char)
    requires d < 10
    ensures IsDigit(c) && c as int - '0' as int == d
  {
    ('0' as int + d) as char
  }

  /** Decimal rendering of a non-negative int, as `f"{i}"` produces it. */
  function NatToString(n: nat): (r: string)
    ensures r != []
    ensures forall i :: 0 <= i < |r| ==> IsDigit(r[i])
    ensures n > 0 ==> r[0] != '0'
  {
    if n < 10 then [DigitChar(n)] else NatToString(n / 10) + [DigitChar(n % 10)]
  }

  function DigitValue(c: char): (d: nat)
    requires IsDigit(c)
    ensures d < 10
  {
    c as int - '0' as int
  }

  /** Reads a string of decimal digits back as an int. */
  function ParseDigits(s: string): (n: nat)
    requires forall i :: 0 <= i < |s| ==> IsDigit(s[i])
  {
    if s == [] then 0 else ParseDigits(s[..|s| - 1]) * 10 + DigitValue(s[|s| - 1])
  }

  /** Rendering then reading back gives the number: the rendering is injective. */
  lemma {:induction false} ParseNatToString(n: nat)
    ensures ParseDigits(NatToString(n)) == n
  {
    if n >= 10 {
      var s := NatToString(n);
      assert s[..|s| - 1] == NatToString(n / 10);
      ParseNatToString(n / 10);
    }
  }

  lemma NatToStringInjective(m: nat, n: nat)
    requires NatToString(m) == NatToString(n)
    ensures m == n
  {
    ParseNatToString(m);
    ParseNatToString(n);
  }

  /** The first position of a character of `cs`, or `|s|` when there is none. */
  function FindAny(s: string, cs: set<char>): (i: nat)
    ensures i <= |s|
    ensures i < |s| ==> s[i] in cs
    ensures forall k :: 0 <= k < i ==> s[k] !in cs
  {
    if s == [] || s[0] in cs then 0 else 1 + FindAny(s[1..], cs)
  }

  /** `s.rfind(c)`: the last position of `c`, or -1. */
  function RFind(s: string, c: char): (i: int)
    ensures -1 <= i < |s|
    ensures i >= 0 ==> s[i] == c
    ensures forall k :: i < k < |s| ==> s[k] != c
  {
    if s == [] then -1
    else if s[|s| - 1] == c then |s| - 1
    else RFind(s[..|s| - 1], c)
  }
}
