/** Python string operations used by the modelled code: str.strip, str.startswith,
    str.split / str.join on one separator, str.lower on the characters that matter,
    and the decimal rendering of integers done by f-strings. */
module Strings {

  /** Python's str.isspace for one character. */
  predicate IsSpace(c: char) {
    c == ' ' || ('\t' <= c <= '\r') || ('\U{1c}' <= c <= '\U{1f}')
    || c == '\U{85}' || c == '\U{a0}' || c == '\U{1680}'
    || ('\U{2000}' <= c <= '\U{200a}') || c == '\U{2028}' || c == '\U{2029}'
    || c == '\U{202f}' || c == '\U{205f}' || c == '\U{3000}'
  }

  /** str.lstrip() */
  function StripLeft(s: string): (r: string)
    ensures |r| <= |s| && r == s[|s| - |r|..]
    ensures forall k :: 0 <= k < |s| - |r| ==> IsSpace(s[k])
    ensures r != [] ==> !IsSpace(r[0])
  {
    if |s| > 0 && IsSpace(s[0]) then StripLeft(s[1..]) else s
  }

  /** str.rstrip() */
  function StripRight(s: string): (r: string)
    ensures |r| <= |s| && r == s[..|r|]
    ensures forall k :: |r| <= k < |s| ==> IsSpace(s[k])
    ensures r != [] ==> !IsSpace(r[|r| - 1])
  {
    if |s| > 0 && IsSpace(s[|s| - 1]) then StripRight(s[..|s| - 1]) else s
  }

  /** Text made of whitespace only. */
  predicate AllSpace(t: string) {
    forall k :: 0 <= k < |t| ==> IsSpace(t[k])
  }

  /** r is s[i..i + |r|] and everything of s outside that slice is whitespace. */
  predicate CutAt(s: string, r: string, i: int) {
    0 <= i <= |s| - |r| && r == s[i..i + |r|] && AllSpace(s[..i]) && AllSpace(s[i + |r|..])
  }

  /** str.strip(): the result neither starts nor ends with whitespace, and a
      string that already does not is left as it is; StripCut shows it is a
      slice of s with only whitespace cut away. */
  function Strip(s: string): (r: string)
    ensures |r| <= |s|
    ensures r != [] ==> !IsSpace(r[0]) && !IsSpace(r[|r| - 1])
    ensures s == [] || (!IsSpace(s[0]) && !IsSpace(s[|s| - 1])) ==> r == s
  {
    StripRight(StripLeft(s))
  }

  /** str.strip() removes whitespace only, from the two ends only. */
  lemma StripCut(s: string)
    ensures exists i :: CutAt(s, Strip(s), i)
  {
    CutCompose(s, StripLeft(s), StripRight(StripLeft(s)));
    assert CutAt(s, Strip(s), |s| - |StripLeft(s)|);
  }

  /** A left cut followed by a right cut is one two-sided cut. */
  lemma CutCompose(s: string, left: string, r: string)
    requires |left| <= |s| && left == s[|s| - |left|..]
    requires forall k :: 0 <= k < |s| - |left| ==> IsSpace(s[k])
    requires |r| <= |left| && r == left[..|r|]
    requires forall k :: |r| <= k < |left| ==> IsSpace(left[k])
    ensures CutAt(s, r, |s| - |left|)
  {
    var i := |s| - |left|;
    var tail := s[i + |r|..];
    forall k | 0 <= k < |tail|
      ensures IsSpace(tail[k])
    {
      assert tail[k] == left[|r| + k];
    }
  }

  lemma {:induction false} StripLeftIdle(s: string)
    requires s == [] || !IsSpace(s[0])
    ensures StripLeft(s) == s
  {
  }

  lemma {:induction false} StripRightIdle(s: string)
    requires s == [] || !IsSpace(s[|s| - 1])
    ensures StripRight(s) == s
  {
  }

  /** Stripping twice is stripping once. */
  lemma {:induction false} StripIdempotent(s: string)
    ensures Strip(Strip(s)) == Strip(s)
  {
    var r := Strip(s);
    StripLeftIdle(r);
    StripRightIdle(r);
  }

  predicate StartsWith(s: string, prefix: string) {
    |prefix| <= |s| && s[..|prefix|] == prefix
  }

  /** Index of the first occurrence of c in s. */
  function IndexOf(s: string, c: char): (r: nat)
    requires c in s
    ensures r < |s| && s[r] == c
    ensures forall j :: 0 <= j < r ==> s[j] != c
  {
    if s[0] == c then 0 else 1 + IndexOf(s[1..], c)
  }

  /** Index of the last occurrence of c in s. */
  function LastIndexOf(s: string, c: char): (r: nat)
    requires c in s
    ensures r < |s| && s[r] == c
    ensures forall j :: r < j < |s| ==> s[j] != c
  {
    if s[|s| - 1] == c then |s| - 1 else LastIndexOf(s[..|s| - 1], c)
  }

  /** Number of occurrences of c in s. */
  function Count(s: string, c: char): nat {
    if s == [] then 0 else (if s[0] == c then 1 else 0) + Count(s[1..], c)
  }

  /** s.split(sep) for a one-character separator: every occurrence cuts, empty
      pieces are kept. */
  function Split(s: string, sep: char): (r: seq<string>)
    ensures |r| >= 1
    decreases |s|
  {
    if sep in s then
      var k := IndexOf(s, sep);
      [s[..k]] + Split(s[k + 1..], sep)
    else
      [s]
  }

  /** [sep].join(parts) */
  function Join(parts: seq<string>, sep: char): string {
    if parts == [] then ""
    else if |parts| == 1 then parts[0]
    else parts[0] + [sep] + Join(parts[1..], sep)
  }

  /** Splitting yields one piece more than there are separators. */
  lemma {:induction false} SplitCount(s: string, sep: char)
    ensures |Split(s, sep)| == Count(s, sep) + 1
    decreases |s|
  {
    if sep in s {
      var k := IndexOf(s, sep);
      var rest := s[k + 1..];
      SplitCount(rest, sep);
      CountAround(s, k, sep);
      SplitFirst(s, sep);
      assert |Split(s, sep)| == 1 + |Split(rest, sep)|;
    } else {
      CountAbsent(s, sep);
    }
  }

  lemma {:induction false} CountAbsent(s: string, c: char)
    requires c !in s
    ensures Count(s, c) == 0
  {
    if s != [] {
      assert c !in s[1..];
      CountAbsent(s[1..], c);
    }
  }

  /** Counting in a concatenation. */
  lemma {:induction false} CountConcat(x: string, y: string, c: char)
    ensures Count(x + y, c) == Count(x, c) + Count(y, c)
    decreases |x|
  {
    if x != [] {
      assert (x + y)[1..] == x[1..] + y;
      CountConcat(x[1..], y, c);
    } else {
      assert x + y == y;
    }
  }

  /** Text with two separators set in it holds at least two. */
  lemma {:induction false} CountFramed(s: string, a: string, m: string, z: string, sep: char)
    requires s == a + [sep] + m + [sep] + z
    ensures Count(s, sep) >= 2
  {
    assert Count([sep], sep) == 1 by {
      assert [sep][1..] == [];
    }
    CountConcat(a + [sep] + m + [sep], z, sep);
    CountConcat(a + [sep] + m, [sep], sep);
    CountConcat(a + [sep], m, sep);
    CountConcat(a, [sep], sep);
  }

  /** Counting across the first occurrence at k. */
  lemma {:induction false} CountAround(s: string, k: nat, c: char)
    requires k < |s| && s[k] == c
    requires forall j :: 0 <= j < k ==> s[j] != c
    ensures Count(s, c) == 1 + Count(s[k + 1..], c)
  {
    if k > 0 {
      CountAround(s[1..], k - 1, c);
      assert s[1..][k..] == s[k + 1..];
    } else {
      assert s[1..] == s[k + 1..];
    }
  }

  /** Joining the pieces of a split gives back the text. */
  lemma {:induction false} JoinSplit(s: string, sep: char)
    ensures Join(Split(s, sep), sep) == s
    decreases |s|
  {
    if sep in s {
      var k := IndexOf(s, sep);
      var rest := s[k + 1..];
      var q := Split(rest, sep);
      SplitFirst(s, sep);
      assert Split(s, sep) == [s[..k]] + q;
      JoinSplit(rest, sep);
      JoinCons(s[..k], q, sep);
      assert s == s[..k] + [sep] + rest;
    }
  }

  lemma {:induction false} JoinCons(a: string, q: seq<string>, sep: char)
    requires |q| >= 1
    ensures Join([a] + q, sep) == a + [sep] + Join(q, sep)
  {
    assert ([a] + q)[1..] == q;
  }

  /** Split's first cut. */
  lemma {:induction false} SplitFirst(s: string, sep: char)
    requires sep in s
    ensures Split(s, sep) == [s[..IndexOf(s, sep)]] + Split(s[IndexOf(s, sep) + 1..], sep)
  {
  }

  /** The position characterised by LastIndexOf's contract is LastIndexOf. */
  lemma {:induction false} LastIndexUnique(s: string, c: char, i: nat)
    requires i < |s| && s[i] == c
    requires forall j :: i < j < |s| ==> s[j] != c
    ensures c in s && LastIndexOf(s, c) == i
  {
  }

  /** The position characterised by IndexOf's contract is IndexOf. */
  lemma {:induction false} IndexUnique(s: string, c: char, i: nat)
    requires i < |s| && s[i] == c
    requires forall j :: 0 <= j < i ==> s[j] != c
    ensures c in s && IndexOf(s, c) == i
  {
  }

  /** Splitting pieces that hold no separator, once joined, gives them back. */
  lemma {:induction false} SplitJoin(parts: seq<string>, sep: char)
    requires |parts| >= 1
    requires forall k :: 0 <= k < |parts| ==> sep !in parts[k]
    ensures Split(Join(parts, sep), sep) == parts
    decreases |parts|
  {
    if |parts| > 1 {
      var a, q := parts[0], parts[1..];
      assert parts == [a] + q;
      JoinCons(a, q, sep);
      var s := a + [sep] + Join(q, sep);
      forall j | 0 <= j < |a| ensures s[j] != sep {
        assert s[j] == a[j];
      }
      IndexUnique(s, sep, |a|);
      assert s[..|a|] == a && s[|a| + 1..] == Join(q, sep);
      SplitJoin(q, sep);
    }
  }

  /** No piece of a split holds the separator. */
  lemma {:induction false} SplitFree(s: string, sep: char)
    ensures forall j :: 0 <= j < |Split(s, sep)| ==> sep !in Split(s, sep)[j]
    decreases |s|
  {
    if sep in s {
      var k := IndexOf(s, sep);
      SplitFree(s[k + 1..], sep);
      SplitFirst(s, sep);
      assert sep !in s[..k] by {
        forall j | 0 <= j < k ensures s[..k][j] != sep { assert s[..k][j] == s[j]; }
      }
    }
  }

  /** Joining a list of two or more: everything but the last piece, then it. */
  lemma {:induction false} JoinSnoc(q: seq<string>, sep: char)
    requires |q| >= 2
    ensures Join(q, sep) == Join(q[..|q| - 1], sep) + [sep] + q[|q| - 1]
    decreases |q|
  {
    if |q| > 2 {
      JoinSnoc(q[1..], sep);
      assert q[1..][..|q| - 2] == q[..|q| - 1][1..];
      JoinCons(q[0], q[1..|q| - 1], sep);
      assert [q[0]] + q[1..|q| - 1] == q[..|q| - 1];
    }
  }

  /** Joining three or more: the first piece, the inner pieces, the last piece. */
  lemma {:induction false} JoinEnds(p: seq<string>, sep: char)
    requires |p| >= 3
    ensures Join(p, sep) == p[0] + [sep] + Join(p[1..|p| - 1], sep) + [sep] + p[|p| - 1]
  {
    JoinSnoc(p[1..], sep);
    assert p[1..][..|p| - 2] == p[1..|p| - 1];
  }

  /** Where the first and the last separator are in a + sep + m + sep + z when
      a and z hold none. */
  lemma {:induction false} Framed(s: string, a: string, m: string, z: string, sep: char)
    requires sep !in a && sep !in z && s == a + [sep] + m + [sep] + z
    ensures sep in s && IndexOf(s, sep) == |a| && LastIndexOf(s, sep) == |a| + 1 + |m|
    ensures s[|a| + 1..|a| + 1 + |m|] == m
  {
    forall j | 0 <= j < |a| ensures s[j] != sep { assert s[j] == a[j]; }
    IndexUnique(s, sep, |a|);
    forall j | |a| + 1 + |m| < j < |s| ensures s[j] != sep { assert s[j] == z[j - |a| - 2 - |m|]; }
    LastIndexUnique(s, sep, |a| + 1 + |m|);
  }

  /** With at least two separators, dropping the first and the last piece leaves
      exactly the text strictly between the first and the last separator. */
  lemma {:induction false} InnerPieces(s: string, sep: char)
    requires Count(s, sep) >= 2
    ensures sep in s && IndexOf(s, sep) < LastIndexOf(s, sep)
    ensures var p := Split(s, sep);
            |p| > 2 && Join(p[1..|p| - 1], sep) == s[IndexOf(s, sep) + 1..LastIndexOf(s, sep)]
  {
    var p := Split(s, sep);
    SplitCount(s, sep);
    SplitFree(s, sep);
    JoinSplit(s, sep);
    InnerOf(s, p, sep);
  }

  /** InnerPieces for any list of separator-free pieces that joins to s. */
  lemma {:induction false} InnerOf(s: string, p: seq<string>, sep: char)
    requires |p| > 2 && Join(p, sep) == s
    requires forall j :: 0 <= j < |p| ==> sep !in p[j]
    ensures sep in s && IndexOf(s, sep) < LastIndexOf(s, sep)
    ensures Join(p[1..|p| - 1], sep) == s[IndexOf(s, sep) + 1..LastIndexOf(s, sep)]
  {
    JoinEnds(p, sep);
    var a, m, z := p[0], Join(p[1..|p| - 1], sep), p[|p| - 1];
    Framed(s, a, m, z, sep);
  }

  /** str.lower() restricted to the characters whose lower-case form is plain
      ASCII: A-Z and KELVIN SIGN (U+212A, lower-cased to 'k'). Every other
      character is kept as it is. */
  function LowerChar(c: char): char {
    if 'A' <= c <= 'Z' then (c as int + 32) as char
    else if c == '\U{212a}' then 'k'
    else c
  }

  function Lower(s: string): (r: string)
    ensures |r| == |s| && forall k :: 0 <= k < |s| ==> r[k] == LowerChar(s[k])
  {
    if s == [] then [] else [LowerChar(s[0])] + Lower(s[1..])
  }

  // ---- decimal rendering of integers (f"{n}") ----

  predicate IsDigit(c: char) { '0' <= c <= '9' }

  function DigitChar(d: nat): (c: char)
    requires d < 10
    ensures IsDigit(c) && c as int - '0' as int == d
  {
    ('0' as int + d) as char
  }

  /** The decimal digits of n, most significant first, without leading zeros. */
  function NatToDecimal(n: nat): (r: string)
    ensures |r| >= 1 && forall k :: 0 <= k < |r| ==> IsDigit(r[k])
  {
    if n < 10 then [DigitChar(n)] else NatToDecimal(n / 10) + [DigitChar(n % 10)]
  }

  /** The value of a string of decimal digits. */
  function DecimalValue(s: string): nat
    requires forall k :: 0 <= k < |s| ==> IsDigit(s[k])
  {
    if s == [] then 0
    else DecimalValue(s[..|s| - 1]) * 10 + DigitValue(s[|s| - 1])
  }

  function DigitValue(c: char): (d: nat)
    requires IsDigit(c)
    ensures d < 10
  {
    c as int - '0' as int
  }

  /** Reading back the rendered digits gives the number. */
  lemma {:induction false} DecimalRoundTrip(n: nat)
    ensures DecimalValue(NatToDecimal(n)) == n
  {
    if n >= 10 {
      DecimalRoundTrip(n / 10);
      var r := NatToDecimal(n);
      assert r[..|r| - 1] == NatToDecimal(n / 10);
    }
  }

  lemma {:induction false} NatToDecimalInjective(m: nat, n: nat)
    ensures NatToDecimal(m) == NatToDecimal(n) <==> m == n
  {
    DecimalRoundTrip(m);
    DecimalRoundTrip(n);
  }

  /** f"{i}" for a Python int: a minus sign for negatives, then the digits. */
  function IntToDecimal(i: int): (r: string)
    ensures forall k :: 0 <= k < |r| ==> IsDigit(r[k]) || r[k] == '-'
  {
    if i < 0 then "-" + NatToDecimal(-i) else NatToDecimal(i)
  }

  lemma {:induction false} IntToDecimalInjective(i: int, j: int)
    ensures IntToDecimal(i) == IntToDecimal(j) <==> i == j
  {
    if IntToDecimal(i) == IntToDecimal(j) {
      var a, b := IntToDecimal(i), IntToDecimal(j);
      assert a[0] == '-' <==> i < 0;
      assert b[0] == '-' <==> j < 0;
      if i < 0 {
        assert a[1..] == NatToDecimal(-i) && b[1..] == NatToDecimal(-j);
        NatToDecimalInjective(-i, -j);
      } else {
        NatToDecimalInjective(i, j);
      }
    }
  }

  /** Separator-free pieces glued around one separator can be pulled apart again. */
  lemma {:induction false} SplitAtSeparator(x: string, y: string, x': string, y': string, sep: char)
    requires sep !in x && sep !in x'
    requires x + [sep] + y == x' + [sep] + y'
    ensures x == x' && y == y'
  {
    var s := x + [sep] + y;
    assert |x| == |x'| by {
      assert s[|x|] == sep && s[|x'|] == sep;
    }
    assert x == s[..|x|] == x';
    assert y == s[|x| + 1..] == y';
  }
}
