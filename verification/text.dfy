/**
 * The few string primitives of JavaScript and Python that the application relies on:
 * `Number.prototype.toString` and `parseInt` on the client, `str.strip`, `str.lstrip`,
 * `str.split`, `str.join` and `str.lower` on the server.
 */
module Text {
  import opened Common

  predicate IsDigit(c: char) { '0' <= c <= '9' }

  predicate AllDigits(s: string) { forall i :: 0 <= i < |s| ==> IsDigit(s[i]) }

  function DigitValue(c: char): nat
    requires IsDigit(c)
  {
    c as int - '0' as int
  }

  function DigitChar(d: nat): (c: char)
    requires d < 10
    ensures IsDigit(c) && DigitValue(c) == d
  {
    ('0' as int + d) as char
  }

  /** The value of a run of decimal digits, most significant first. */
  function DigitsValue(s: string): nat
    requires AllDigits(s)
  {
    if s == [] then 0 else DigitsValue(s[..|s| - 1]) * 10 + DigitValue(s[|s| - 1])
  }

  /** The decimal digits of `n` as `toString` writes them: no sign, no leading zero. */
  function NatDigits(n: nat): (s: string)
    ensures 1 <= |s| && AllDigits(s)
    ensures n > 0 ==> s[0] != '0'
    ensures n < 10 <==> |s| == 1
    ensures n < 100 ==> |s| <= 2
  {
    if n < 10 then [DigitChar(n)] else NatDigits(n / 10) + [DigitChar(n % 10)]
  }

  /** `Number.prototype.toString` on an integer value. */
  function IntToString(n: int): (s: string)
    ensures 1 <= |s|
    ensures n >= 0 ==> AllDigits(s) && s == NatDigits(n)
    ensures n < 0 ==> s[0] == '-' && s[1..] == NatDigits(-n)
  {
    if n < 0 then "-" + NatDigits(-n) else NatDigits(n)
  }

  lemma {:induction false} DigitsRoundTrip(n: nat)
    ensures DigitsValue(NatDigits(n)) == n
  {
    if n >= 10 {
      var s := NatDigits(n / 10) + [DigitChar(n % 10)];
      assert s[..|s| - 1] == NatDigits(n / 10);
      DigitsRoundTrip(n / 10);
    }
  }

  predicate AllZeros(z: string) { forall i :: 0 <= i < |z| ==> z[i] == '0' }

  /** Leading zeros do not change the value of a digit run. */
  lemma {:induction false} LeadingZerosValue(z: string, s: string)
    requires AllZeros(z) && AllDigits(s)
    ensures AllDigits(z + s) && DigitsValue(z + s) == DigitsValue(s)
  {
    if s == [] {
      assert z + s == z;
      ZerosValue(z);
    } else {
      var t := z + s;
      assert t[..|t| - 1] == z + s[..|s| - 1];
      LeadingZerosValue(z, s[..|s| - 1]);
    }
  }

  lemma {:induction false} ZerosValue(z: string)
    requires AllZeros(z)
    ensures AllDigits(z) && DigitsValue(z) == 0
  {
    if z != [] {
      ZerosValue(z[..|z| - 1]);
    }
  }

  /** The length of the longest prefix of `s` made of decimal digits. */
  function DigitRun(s: string): (k: nat)
    ensures k <= |s| && AllDigits(s[..k])
    ensures k < |s| ==> !IsDigit(s[k])
  {
    if s == [] || !IsDigit(s[0]) then 0
    else
      var k := 1 + DigitRun(s[1..]);
      assert s[..k] == [s[0]] + s[1..][..k - 1];
      k
  }

  /** The white space that JavaScript's `parseInt` skips (ECMAScript StrWhiteSpaceChar). */
  predicate IsJsSpace(c: char) {
    var n := c as int;
    (9 <= n <= 13) || n == 32 || n == 0xA0 || n == 0x1680 || (0x2000 <= n <= 0x200A)
    || n == 0x2028 || n == 0x2029 || n == 0x202F || n == 0x205F || n == 0x3000 || n == 0xFEFF
  }

  function TrimJsStart(s: string): (r: string)
    ensures |r| <= |s|
    ensures r != [] ==> !IsJsSpace(r[0])
    ensures s != [] && !IsJsSpace(s[0]) ==> r == s
  {
    if s != [] && IsJsSpace(s[0]) then TrimJsStart(s[1..]) else s
  }

  /**
   * JavaScript's `parseInt(s)`: skip leading white space, take an optional sign and the
   * longest run of decimal digits after it; `None` stands for `NaN` (no digit found).
   */
  function ParseInt(s: string): (r: Option<int>)
    ensures r.None? <==> var t := TrimJsStart(s);
      var u := if t != [] && (t[0] == '-' || t[0] == '+') then t[1..] else t;
      u == [] || !IsDigit(u[0])
  {
    ParseTrimmed(TrimJsStart(s))
  }

  /** `parseInt` once the leading white space is gone. */
  function ParseTrimmed(t: string): (r: Option<int>)
    ensures r.None? <==>
      var u := if t != [] && (t[0] == '-' || t[0] == '+') then t[1..] else t;
      u == [] || !IsDigit(u[0])
  {
    if t != [] && t[0] == '-' then Signed(true, Magnitude(t[1..]))
    else if t != [] && t[0] == '+' then Signed(false, Magnitude(t[1..]))
    else Signed(false, Magnitude(t))
  }

  /** The value of the leading digit run, `None` when there is none. */
  function Magnitude(u: string): (r: Option<nat>)
    ensures r.None? <==> u == [] || !IsDigit(u[0])
  {
    var k := DigitRun(u);
    if k == 0 then None
    else
      assert u[..k][0] == u[0];
      Some(DigitsValue(u[..k]))
  }

  function Signed(negative: bool, m: Option<nat>): (r: Option<int>)
    ensures r.None? <==> m.None?
  {
    match m
    case None => None
    case Some(v) => if negative then Some(-(v as int)) else Some(v)
  }

  /** `parseInt` reads back what `toString` writes. */
  lemma ParseIntToString(n: int)
    ensures ParseInt(IntToString(n)) == Some(n)
  {
    var m := if n < 0 then -n else n;
    var d := NatDigits(m);
    DigitsRoundTrip(m);
    MagnitudeOfDigits(d);
    if n < 0 {
      ParseSigned(d);
    } else {
      ParseUnsigned(d);
    }
  }

  /** A digit string is read whole. */
  lemma MagnitudeOfDigits(d: string)
    requires d != [] && AllDigits(d)
    ensures Magnitude(d) == Some(DigitsValue(d))
  {
    DigitRunAll(d);
    assert d[..|d|] == d;
  }

  /** Without a sign or white space in front, `parseInt` is the leading digit run's value. */
  lemma ParseUnsigned(d: string)
    requires d != [] && IsDigit(d[0])
    ensures ParseInt(d) == Signed(false, Magnitude(d))
  {
    assert !IsJsSpace(d[0]);
    assert TrimJsStart(d) == d;
  }

  /** A minus sign negates the value of the digit run after it. */
  lemma ParseSigned(d: string)
    ensures ParseInt("-" + d) == Signed(true, Magnitude(d))
  {
    var s := "-" + d;
    assert s[0] == '-' && s[1..] == d;
    assert TrimJsStart(s) == s by {
      assert !IsJsSpace(s[0]);
    }
  }

  lemma {:induction false} DigitRunAll(s: string)
    requires AllDigits(s)
    ensures DigitRun(s) == |s|
  {
    if s != [] {
      DigitRunAll(s[1..]);
    }
  }

  // ---------------------------------------------------------------------------------
  // Python strings

  /** The characters Python's `str.strip()` and `str.isspace()` treat as white space. */
  predicate IsPySpace(c: char) {
    var n := c as int;
    (9 <= n <= 13) || (0x1C <= n <= 0x20) || n == 0x85 || n == 0xA0 || n == 0x1680
    || (0x2000 <= n <= 0x200A) || n == 0x2028 || n == 0x2029 || n == 0x202F || n == 0x205F
    || n == 0x3000
  }

  /** `str.lstrip(chars)`: drop leading characters that belong to `chars`. */
  function LStripChars(s: string, chars: set<char>): (r: string)
    ensures |r| <= |s|
    ensures r != [] ==> r[0] !in chars
  {
    if s != [] && s[0] in chars then LStripChars(s[1..], chars) else s
  }

  predicate Blank(s: string) { forall i :: 0 <= i < |s| ==> IsPySpace(s[i]) }

  /** No white space at either end. */
  predicate Stripped(s: string) { s == [] || (!IsPySpace(s[0]) && !IsPySpace(s[|s| - 1])) }

  /** `str.lstrip()`: only white space was dropped, from the front. */
  function StripStart(s: string): (r: string)
    ensures |r| <= |s|
    ensures r != [] ==> !IsPySpace(r[0]) && r[|r| - 1] == s[|s| - 1]
    ensures r == [] <==> Blank(s)
  {
    if s != [] && IsPySpace(s[0]) then StripStart(s[1..]) else s
  }

  /** `str.rstrip()`: only white space was dropped, from the back. */
  function StripEnd(s: string): (r: string)
    ensures |r| <= |s|
    ensures r != [] ==> !IsPySpace(r[|r| - 1]) && r[0] == s[0]
    ensures r == [] <==> Blank(s)
  {
    if s != [] && IsPySpace(s[|s| - 1]) then StripEnd(s[..|s| - 1]) else s
  }

  /** `str.strip()`: white space dropped at both ends; nothing is left only of a blank text. */
  function Strip(s: string): (r: string)
    ensures |r| <= |s|
    ensures Stripped(r)
    ensures r == [] <==> Blank(s)
  {
    StripEnd(StripStart(s))
  }

  /** `lstrip(chars)` drops a prefix made of `chars` and keeps the rest as it was. */
  lemma {:induction false} LStripCharsDrops(s: string, chars: set<char>)
    ensures exists i :: 0 <= i <= |s| && LStripChars(s, chars) == s[i..] && (forall k :: 0 <= k < i ==> s[k] in chars)
  {
    if s != [] && s[0] in chars {
      LStripCharsDrops(s[1..], chars);
      var i :| 0 <= i <= |s| - 1 && LStripChars(s[1..], chars) == s[1..][i..]
        && forall k :: 0 <= k < i ==> s[1..][k] in chars;
      assert s[1..][i..] == s[i + 1..];
      assert forall k :: 0 <= k < i + 1 ==> s[k] in chars by {
        forall k | 0 <= k < i + 1 ensures s[k] in chars {
          if k > 0 {
            assert s[k] == s[1..][k - 1];
          }
        }
      }
    } else {
      assert s[0..] == s;
    }
  }

  /** How many white space characters `s` starts with. */
  function LeadingBlanks(s: string): (n: nat)
    ensures n <= |s|
  {
    if s != [] && IsPySpace(s[0]) then 1 + LeadingBlanks(s[1..]) else 0
  }

  /** How many white space characters `s` ends with. */
  function TrailingBlanks(s: string): (n: nat)
    ensures n <= |s|
  {
    if s != [] && IsPySpace(s[|s| - 1]) then 1 + TrailingBlanks(s[..|s| - 1]) else 0
  }

  /** `lstrip()` drops the blank prefix and keeps the rest as it was. */
  lemma {:induction false} StripStartDrops(s: string)
    ensures StripStart(s) == s[LeadingBlanks(s)..] && Blank(s[..LeadingBlanks(s)])
  {
    if s != [] && IsPySpace(s[0]) {
      StripStartDrops(s[1..]);
      var i := LeadingBlanks(s[1..]);
      assert s[1..][i..] == s[i + 1..];
      var front, tail := s[..i + 1], s[1..][..i];
      forall k | 0 <= k < |front|
        ensures IsPySpace(front[k])
      {
        if k > 0 {
          assert front[k] == tail[k - 1];
        }
      }
    } else {
      assert s[0..] == s && s[..0] == [];
    }
  }

  /** `rstrip()` drops the blank suffix and keeps the rest as it was. */
  lemma {:induction false} StripEndDrops(s: string)
    ensures StripEnd(s) == s[..|s| - TrailingBlanks(s)] && Blank(s[|s| - TrailingBlanks(s)..])
  {
    if s != [] && IsPySpace(s[|s| - 1]) {
      var t := s[..|s| - 1];
      StripEndDrops(t);
      var j := |t| - TrailingBlanks(t);
      assert t[..j] == s[..j];
      assert s[j..] == t[j..] + [s[|s| - 1]];
    } else {
      assert s[..|s|] == s && s[|s|..] == [];
    }
  }

  /** `strip()` keeps a middle part of the text and drops only white space around it. */
  lemma StripKeepsMiddle(s: string)
    ensures exists i, j :: 0 <= i <= j <= |s| && Strip(s) == s[i..j] && Blank(s[..i]) && Blank(s[j..])
  {
    StripStartDrops(s);
    var i := LeadingBlanks(s);
    var t := s[i..];
    StripEndDrops(t);
    var j := |t| - TrailingBlanks(t);
    assert Strip(s) == t[..j];
    assert t[..j] == s[i..i + j];
    assert t[j..] == s[i + j..];
    assert Strip(s) == s[i..i + j] && Blank(s[..i]) && Blank(s[i + j..]);
  }

  /** A text with no white space at its ends is left as it is. */
  lemma StripStripped(s: string)
    requires Stripped(s)
    ensures Strip(s) == s
  {
    assert StripStart(s) == s;
  }

  /** `s.split(d)` for a one-character separator: the pieces between occurrences of `d`. */
  function Split(s: string, d: char): (r: seq<string>)
    ensures |r| >= 1
    ensures forall k :: 0 <= k < |r| ==> d !in r[k]
  {
    if s == [] then [""]
    else
      var rest := Split(s[1..], d);
      if s[0] == d then [""] + rest
      else [[s[0]] + rest[0]] + rest[1..]
  }

  /** `sep.join(xs)`. */
  function Join(sep: string, xs: seq<string>): string {
    if xs == [] then ""
    else if |xs| == 1 then xs[0]
    else xs[0] + sep + Join(sep, xs[1..])
  }

  /** Splitting and joining with the same separator give back the text. */
  lemma {:induction false} JoinSplit(s: string, d: char)
    ensures Join([d], Split(s, d)) == s
  {
    if s != [] {
      var rest := Split(s[1..], d);
      JoinSplit(s[1..], d);
      if s[0] == d {
        assert s == [d] + s[1..];
      } else if |rest| == 1 {
        assert s == [s[0]] + s[1..];
      } else {
        assert Join([d], rest) == rest[0] + [d] + Join([d], rest[1..]);
        assert s == [s[0]] + s[1..];
      }
    }
  }

  /** Without the separator in it, a text is one piece. */
  lemma {:induction false} SplitWithoutSeparator(s: string, d: char)
    requires d !in s
    ensures Split(s, d) == [s]
  {
    if s != [] {
      SplitWithoutSeparator(s[1..], d);
      assert s == [s[0]] + s[1..];
    }
  }

  /** A separator after a piece free of it ends that piece. */
  lemma {:induction false} SplitAfterPiece(a: string, b: string, d: char)
    requires d !in a
    ensures Split(a + [d] + b, d) == [a] + Split(b, d)
  {
    var s := a + [d] + b;
    if a == [] {
      assert s == [d] + b && s[1..] == b;
    } else {
      assert s[1..] == a[1..] + [d] + b;
      SplitAfterPiece(a[1..], b, d);
      assert [a[0]] + a[1..] == a;
    }
  }

  /** Splitting a join gives back the pieces when none of them holds the separator. */
  lemma {:induction false} SplitJoin(xs: seq<string>, d: char)
    requires |xs| >= 1 && forall k :: 0 <= k < |xs| ==> d !in xs[k]
    ensures Split(Join([d], xs), d) == xs
  {
    if |xs| == 1 {
      SplitWithoutSeparator(xs[0], d);
    } else {
      SplitJoin(xs[1..], d);
      SplitAfterPiece(xs[0], Join([d], xs[1..]), d);
      assert [xs[0]] + xs[1..] == xs;
    }
  }

  /** A join of non-empty pieces starts with the first piece's first character and ends with the last piece's last. */
  lemma {:induction false} JoinEnds(sep: string, xs: seq<string>)
    requires |xs| >= 1 && forall k :: 0 <= k < |xs| ==> xs[k] != ""
    ensures var j := Join(sep, xs);
      j != "" && j[0] == xs[0][0] && j[|j| - 1] == xs[|xs| - 1][|xs[|xs| - 1]| - 1]
  {
    if |xs| > 1 {
      JoinEnds(sep, xs[1..]);
    }
  }

  /** A join is empty exactly when nothing but one empty string (or nothing) was joined. */
  lemma {:induction false} JoinEmpty(sep: string, xs: seq<string>)
    requires sep != ""
    ensures Join(sep, xs) == "" <==> |xs| == 0 || (|xs| == 1 && xs[0] == "")
  {
    if |xs| > 1 {
      assert |Join(sep, xs)| >= |sep|;
    }
  }

  function LowerChar(c: char): char {
    if 'A' <= c <= 'Z' then (c as int + 32) as char else c
  }

  /** `str.lower()` restricted to ASCII letters. */
  function Lower(s: string): (r: string)
    ensures |r| == |s| && forall i :: 0 <= i < |s| ==> r[i] == LowerChar(s[i])
  {
    seq(|s|, i requires 0 <= i < |s| => LowerChar(s[i]))
  }

  /** Equal up to the case of ASCII letters, character by character. */
  predicate EqualsIgnoringAsciiCase(a: string, b: string) {
    |a| == |b| && forall i :: 0 <= i < |a| ==>
      || a[i] == b[i]
      || ('A' <= a[i] <= 'Z' && b[i] as int == a[i] as int + 32)
      || ('A' <= b[i] <= 'Z' && a[i] as int == b[i] as int + 32)
  }

  /** Lower-casing matches a text without capitals exactly when the two agree up to case. */
  lemma LowerMatches(a: string, b: string)
    requires forall i :: 0 <= i < |b| ==> !('A' <= b[i] <= 'Z')
    ensures Lower(a) == b <==> EqualsIgnoringAsciiCase(a, b)
  {
    if EqualsIgnoringAsciiCase(a, b) {
      assert forall i :: 0 <= i < |a| ==> Lower(a)[i] == b[i];
    }
    if Lower(a) == b {
      assert forall i :: 0 <= i < |a| ==> LowerChar(a[i]) == b[i];
    }
  }

  /** `t` occurs in `s` starting at index `i`. */
  predicate OccursAt(s: string, t: string, i: int) {
    0 <= i <= |s| - |t| && s[i..i + |t|] == t
  }

  /** Python's `t in s` for strings. */
  predicate Contains(s: string, t: string) {
    exists i | 0 <= i <= |s| - |t| :: OccursAt(s, t, i)
  }

  /** A text contains its own prefix. */
  lemma ContainsFront(b: string, c: string)
    ensures Contains(b + c, b)
  {
    assert OccursAt(b + c, b, 0);
  }

  /** Putting text in front keeps an occurrence. */
  lemma ContainsAfter(a: string, t: string, b: string)
    requires Contains(t, b)
    ensures Contains(a + t, b)
  {
    var i :| 0 <= i <= |t| - |b| && OccursAt(t, b, i);
    assert (a + t)[|a| + i..|a| + i + |b|] == t[i..i + |b|];
    assert OccursAt(a + t, b, |a| + i);
  }

  /** `s` ends with `t`. */
  predicate EndsWith(s: string, t: string) {
    |s| >= |t| && s[|s| - |t|..] == t
  }

  /** Putting text in front keeps a suffix. */
  lemma EndsWithAfter(a: string, t: string, b: string)
    requires EndsWith(t, b)
    ensures EndsWith(a + t, b)
  {
    assert (a + t)[|a + t| - |b|..] == t[|t| - |b|..];
  }

  /** Lower-casing does not create or destroy an occurrence of a text free of letters. */
  lemma LowerContains(s: string, t: string)
    requires forall j :: 0 <= j < |t| ==> !('A' <= t[j] <= 'Z') && !('a' <= t[j] <= 'z')
    ensures Contains(Lower(s), t) <==> Contains(s, t)
  {
    var l := Lower(s);
    if Contains(l, t) {
      var i :| 0 <= i <= |l| - |t| && OccursAt(l, t, i);
      LowerOccursAt(s, t, i);
    }
    if Contains(s, t) {
      var i :| 0 <= i <= |s| - |t| && OccursAt(s, t, i);
      LowerOccursAt(s, t, i);
    }
  }

  lemma LowerOccursAt(s: string, t: string, i: int)
    requires forall j :: 0 <= j < |t| ==> !('A' <= t[j] <= 'Z') && !('a' <= t[j] <= 'z')
    requires 0 <= i <= |s| - |t|
    ensures OccursAt(Lower(s), t, i) <==> OccursAt(s, t, i)
  {
    var l := Lower(s);
    if OccursAt(l, t, i) {
      forall j | 0 <= j < |t| ensures s[i + j] == t[j] {
        assert l[i..i + |t|][j] == t[j];
      }
      assert s[i..i + |t|] == t;
    }
    if OccursAt(s, t, i) {
      forall j | 0 <= j < |t| ensures l[i + j] == t[j] {
        assert s[i..i + |t|][j] == t[j];
      }
      assert l[i..i + |t|] == t;
    }
  }
}
