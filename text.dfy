/** The string handling the application relies on: Python's str.strip() and
    str.lower(), decimal formatting with f-strings, int() of a digit string,
    str.split(sep), and the code-point order Python uses to compare and sort
    strings. */
module Text {
  import opened Wrappers

  // ---------------------------------------------------------------------------
  // Whitespace and str.strip()
  // ---------------------------------------------------------------------------

  /** Python's str.isspace() on one character. */
  predicate IsSpace(c: char)
  {
    || c == ' '
    || '\t' <= c <= '\r'
    || '\U{1C}' <= c <= '\U{1F}'
    || c == '\U{85}' || c == '\U{A0}' || c == '\U{1680}'
    || '\U{2000}' <= c <= '\U{200A}'
    || c == '\U{2028}' || c == '\U{2029}' || c == '\U{202F}' || c == '\U{205F}' || c == '\U{3000}'
  }

  predicate AllSpace(s: string)
  {
    forall i :: 0 <= i < |s| ==> IsSpace(s[i])
  }

  /** The number of whitespace characters at the start of s. */
  function LeadingSpaces(s: string): (n: nat)
    ensures n <= |s| && AllSpace(s[..n])
    ensures n < |s| ==> !IsSpace(s[n])
  {
    if s == [] || !IsSpace(s[0]) then 0 else 1 + LeadingSpaces(s[1..])
  }

  /** The number of whitespace characters at the end of s. */
  function TrailingSpaces(s: string): (n: nat)
    ensures n <= |s| && AllSpace(s[|s| - n..])
    ensures n < |s| ==> !IsSpace(s[|s| - 1 - n])
  {
    if s == [] || !IsSpace(s[|s| - 1]) then 0 else 1 + TrailingSpaces(s[..|s| - 1])
  }

  /** Python's str.strip() with no argument: what lies between the leading and
      the trailing whitespace. */
  function Strip(s: string): string
  {
    var n, m := LeadingSpaces(s), TrailingSpaces(s);
    if n == |s| then []
    else
      SpacesDoNotMeet(s);
      s[n..|s| - m]
  }

  /** Unless s is all whitespace, its leading and trailing whitespace do not
      overlap. */
  lemma SpacesDoNotMeet(s: string)
    ensures LeadingSpaces(s) == |s| || LeadingSpaces(s) < |s| - TrailingSpaces(s)
  {
  }

  /** strip() gives "" exactly for all-whitespace text. */
  lemma StripBlank(s: string)
    ensures Strip(s) == [] <==> AllSpace(s)
  {
    var n := LeadingSpaces(s);
    if n == |s| {
      assert s[..n] == s;
    } else {
      SpacesDoNotMeet(s);
    }
  }

  /** What strip() returns neither starts nor ends with whitespace. */
  lemma StripEnds(s: string)
    ensures Strip(s) != [] ==> !IsSpace(Strip(s)[0]) && !IsSpace(Strip(s)[|Strip(s)| - 1])
  {
    var n, m := LeadingSpaces(s), TrailingSpaces(s);
    if n < |s| {
      SpacesDoNotMeet(s);
      var r := s[n..|s| - m];
      assert r[0] == s[n];
      assert r[|r| - 1] == s[|s| - 1 - m];
    }
  }

  /** s is its leading whitespace, then strip(s), then trailing whitespace. */
  lemma StripSplits(s: string)
    ensures LeadingSpaces(s) + |Strip(s)| <= |s|
    ensures s == s[..LeadingSpaces(s)] + Strip(s) + s[LeadingSpaces(s) + |Strip(s)|..]
    ensures AllSpace(s[LeadingSpaces(s) + |Strip(s)|..])
  {
    var n, m := LeadingSpaces(s), TrailingSpaces(s);
    var k := StripEnd(s);
    SliceParts(s, n, k);
  }

  /** Where strip(s) ends in s: everything after it is whitespace. */
  lemma StripEnd(s: string) returns (k: nat)
    ensures k == LeadingSpaces(s) + |Strip(s)| && k <= |s|
    ensures Strip(s) == s[LeadingSpaces(s)..k]
    ensures AllSpace(s[k..])
  {
    var n, m := LeadingSpaces(s), TrailingSpaces(s);
    if n == |s| {
      k := n;
    } else {
      SpacesDoNotMeet(s);
      k := |s| - m;
    }
  }

  lemma SliceParts(s: string, i: nat, j: nat)
    requires i <= j <= |s|
    ensures s == s[..i] + s[i..j] + s[j..]
  {
  }

  /** Stripping twice is stripping once. */
  lemma StripIdempotent(s: string)
    ensures Strip(Strip(s)) == Strip(s)
  {
    StripEnds(s);
    var r := Strip(s);
    if r != [] {
      assert LeadingSpaces(r) == 0;
      assert TrailingSpaces(r) == 0;
    }
  }

  // ---------------------------------------------------------------------------
  // str.lower()
  // ---------------------------------------------------------------------------

  /** Python's str.lower() on one character, for the ASCII and Latin-1 letters. */
  function LowerChar(c: char): char
  {
    if 'A' <= c <= 'Z' || ('\U{C0}' <= c <= '\U{DE}' && c != '\U{D7}') then
      (c as int + 32) as char
    else
      c
  }

  function Lower(s: string): string
  {
    seq(|s|, i requires 0 <= i < |s| => LowerChar(s[i]))
  }

  // ---------------------------------------------------------------------------
  // Decimal formatting: f"{n}" and f"{n:0wd}"
  // ---------------------------------------------------------------------------

  predicate IsDigit(c: char)
  {
    '0' <= c <= '9'
  }

  predicate AllDigits(s: string)
  {
    forall i :: 0 <= i < |s| ==> IsDigit(s[i])
  }

  function DigitChar(d: nat): char
    requires d < 10
  {
    ('0' as int + d) as char
  }

  function DigitValue(c: char): nat
    requires IsDigit(c)
  {
    c as int - '0' as int
  }

  /** str(n) for n >= 0: decimal digits, most significant first, with no
      leading zero except for n == 0 itself. */
  function Digits(n: nat): (r: string)
    ensures r != [] && AllDigits(r)
    ensures r[0] == '0' ==> n == 0
    decreases n
  {
    if n < 10 then [DigitChar(n)] else Digits(n / 10) + [DigitChar(n % 10)]
  }

  /** f"{n}" for any int. */
  function Show(n: int): string
  {
    if n < 0 then "-" + Digits(-n) else Digits(n)
  }

  function Zeros(k: nat): (r: string)
    ensures |r| == k && forall i :: 0 <= i < k ==> r[i] == '0'
  {
    seq(k, _ => '0')
  }

  /** f"{n:0wd}": the sign, then zeros, then the digits, padded to at least w
      characters in all (the sign counts towards the width). */
  function PadZero(n: int, w: nat): string
  {
    var sign := if n < 0 then "-" else "";
    var body := Digits(if n < 0 then -n else n);
    var fill := w - |sign| - |body|;
    sign + Zeros(if fill < 0 then 0 else fill) + body
  }

  // ---------------------------------------------------------------------------
  // int() of a signed decimal, and its round trip with the formatting above
  // ---------------------------------------------------------------------------

  /** The value of a string of decimal digits; leading zeros are allowed. */
  function DigitsValue(s: string): nat
    requires AllDigits(s)
  {
    if s == [] then 0 else 10 * DigitsValue(s[..|s| - 1]) + DigitValue(s[|s| - 1])
  }

  /** The digits part of int(s): a non-empty run of ASCII digits, None
      otherwise. */
  function ParseNat(s: string): Option<nat>
  {
    if s != [] && AllDigits(s) then Some(DigitsValue(s)) else None
  }

  /** Python's int(s) on an optional '+' or '-' followed by ASCII digits.
      None stands for the ValueError it raises on such strings when the
      digits are missing or another character appears. */
  function ParseInt(s: string): Option<int>
  {
    if s != [] && (s[0] == '-' || s[0] == '+') then
      match ParseNat(s[1..])
      case Some(v) =>
        var i: int := if s[0] == '-' then -(v as int) else v;
        Some(i)
      case None => None
    else
      match ParseNat(s)
      case Some(v) => Some(v)
      case None => None
  }

  lemma {:induction false} DigitsValueOfDigits(n: nat)
    ensures DigitsValue(Digits(n)) == n
    decreases n
  {
    if n >= 10 {
      var s := Digits(n);
      assert s[..|s| - 1] == Digits(n / 10);
      DigitsValueOfDigits(n / 10);
    }
  }

  lemma {:induction false} LeadingZerosValue(k: nat, s: string)
    requires AllDigits(s)
    ensures AllDigits(Zeros(k) + s)
    ensures DigitsValue(Zeros(k) + s) == DigitsValue(s)
    decreases |s|
  {
    var z := Zeros(k);
    if s == [] {
      assert z + s == z;
      ZerosValue(k);
    } else {
      var s' := s[..|s| - 1];
      assert (z + s)[..|z + s| - 1] == z + s';
      LeadingZerosValue(k, s');
    }
  }

  lemma {:induction false} ZerosValue(k: nat)
    ensures DigitsValue(Zeros(k)) == 0
  {
    if k > 0 {
      assert Zeros(k)[..k - 1] == Zeros(k - 1);
      ZerosValue(k - 1);
    }
  }

  /** int() of a plain digit string, and of one with a '-' in front. */
  lemma ParseDigits(s: string)
    requires s != [] && AllDigits(s)
    ensures ParseInt(s) == Some(DigitsValue(s))
    ensures ParseInt("-" + s) == Some(-(DigitsValue(s) as int))
  {
    assert IsDigit(s[0]);
    assert ("-" + s)[1..] == s;
  }

  /** int(f"{n:0wd}") gives back n, for every n and width. */
  lemma ParsePadZero(n: int, w: nat)
    ensures ParseInt(PadZero(n, w)) == Some(n)
  {
    var k := PadZeroShape(n, w);
    PaddedDigits(k, if n < 0 then -n else n);
  }

  /** f"{n:0wd}" is an optional '-', k zeros and the digits of |n|. */
  lemma PadZeroShape(n: int, w: nat) returns (k: nat)
    ensures n < 0 ==> PadZero(n, w) == "-" + (Zeros(k) + Digits(-n))
    ensures n >= 0 ==> PadZero(n, w) == Zeros(k) + Digits(n)
  {
    var body := Digits(if n < 0 then -n else n);
    var fill := w - (if n < 0 then 1 else 0) - |body|;
    k := if fill < 0 then 0 else fill;
    if n < 0 {
      assert PadZero(n, w) == "-" + Zeros(k) + body;
    }
  }

  lemma PaddedDigits(k: nat, m: nat)
    ensures ParseInt(Zeros(k) + Digits(m)) == Some(m)
    ensures ParseInt("-" + (Zeros(k) + Digits(m))) == Some(-(m as int))
  {
    LeadingZerosValue(k, Digits(m));
    DigitsValueOfDigits(m);
    ParseDigits(Zeros(k) + Digits(m));
  }

  /** int(str(n)) == n, for every n. */
  lemma ParseShow(n: int)
    ensures ParseInt(Show(n)) == Some(n)
  {
    var m := if n < 0 then -n else n;
    DigitsValueOfDigits(m);
    ParseDigits(Digits(m));
  }

  // ---------------------------------------------------------------------------
  // str.split(sep)
  // ---------------------------------------------------------------------------

  function FirstIndex(s: string, c: char): (i: nat)
    requires c in s
    ensures i < |s| && s[i] == c && c !in s[..i]
  {
    if s[0] == c then 0 else 1 + FirstIndex(s[1..], c)
  }

  /** Python's s.split(sep) for a one-character separator. */
  function Split(s: string, sep: char): (parts: seq<string>)
    ensures |parts| >= 1
    ensures forall i :: 0 <= i < |parts| ==> sep !in parts[i]
    decreases |s|
  {
    if sep in s then
      var i := FirstIndex(s, sep);
      [s[..i]] + Split(s[i + 1..], sep)
    else
      [s]
  }

  lemma {:induction false} FirstIndexAfter(a: string, sep: char, b: string)
    requires sep !in a
    ensures FirstIndex(a + [sep] + b, sep) == |a|
  {
    if a != [] {
      assert (a + [sep] + b)[1..] == a[1..] + [sep] + b;
      FirstIndexAfter(a[1..], sep, b);
    }
  }

  /** The first separator ends the first part. */
  lemma SplitAt(a: string, sep: char, b: string)
    requires sep !in a
    ensures Split(a + [sep] + b, sep) == [a] + Split(b, sep)
  {
    var s := a + [sep] + b;
    FirstIndexAfter(a, sep, b);
    assert s[..|a|] == a;
    assert s[|a| + 1..] == b;
  }

  // ---------------------------------------------------------------------------
  // String order: Python's a < b on str (and SQLite's BINARY collation)
  // ---------------------------------------------------------------------------

  /** a < b in code-point order, a proper prefix coming first. */
  predicate Below(a: string, b: string)
  {
    if a == [] then b != []
    else b != [] && (a[0] < b[0] || (a[0] == b[0] && Below(a[1..], b[1..])))
  }

  lemma {:induction false} BelowIrreflexive(a: string)
    ensures !Below(a, a)
  {
    if a != [] {
      BelowIrreflexive(a[1..]);
    }
  }

  lemma {:induction false} BelowTransitive(a: string, b: string, c: string)
    requires Below(a, b) && Below(b, c)
    ensures Below(a, c)
  {
    if a != [] && b != [] && c != [] && a[0] == b[0] == c[0] {
      BelowTransitive(a[1..], b[1..], c[1..]);
    }
  }

  lemma {:induction false} BelowTotal(a: string, b: string)
    ensures a == b || Below(a, b) || Below(b, a)
  {
    if a != [] && b != [] && a[0] == b[0] {
      BelowTotal(a[1..], b[1..]);
      assert a == [a[0]] + a[1..];
      assert b == [b[0]] + b[1..];
    }
  }

  /** Comparing two strings that share the length of their first parts
      compares the first parts, and on a tie the rest. */
  lemma {:induction false} BelowAppend(p: string, q: string, s: string, t: string)
    requires |p| == |q|
    ensures Below(p + s, q + t) <==> Below(p, q) || (p == q && Below(s, t))
  {
    if p == [] {
      assert p + s == s && q + t == t;
    } else {
      assert (p + s)[1..] == p[1..] + s;
      assert (q + t)[1..] == q[1..] + t;
      BelowAppend(p[1..], q[1..], s, t);
      assert p == [p[0]] + p[1..];
      assert q == [q[0]] + q[1..];
    }
  }

  // ---------------------------------------------------------------------------
  // Fixed-width decimals: equal-length digit strings sort numerically
  // ---------------------------------------------------------------------------

  function Pow10(w: nat): (r: nat)
    ensures r >= 1
  {
    if w == 0 then 1 else 10 * Pow10(w - 1)
  }

  /** The last w decimal digits of n, most significant first. */
  function FixedDigits(n: nat, w: nat): (r: string)
    ensures |r| == w
  {
    if w == 0 then [] else FixedDigits(n / 10, w - 1) + [DigitChar(n % 10)]
  }

  /** Below on w-digit strings is < on the numbers they write. */
  lemma {:induction false} FixedDigitsOrder(a: nat, b: nat, w: nat)
    requires a < Pow10(w) && b < Pow10(w)
    ensures Below(FixedDigits(a, w), FixedDigits(b, w)) <==> a < b
    ensures FixedDigits(a, w) == FixedDigits(b, w) <==> a == b
  {
    if w > 0 {
      var p, q := FixedDigits(a / 10, w - 1), FixedDigits(b / 10, w - 1);
      var c, d := DigitChar(a % 10), DigitChar(b % 10);
      FixedDigitsOrder(a / 10, b / 10, w - 1);
      BelowAppend(p, q, [c], [d]);
      assert Below([c], [d]) <==> c < d;
      assert p + [c] == q + [d] <==> p == q && c == d by {
        if p + [c] == q + [d] {
          assert (p + [c])[..w - 1] == p;
          assert (q + [d])[..w - 1] == q;
          assert (p + [c])[w - 1] == c;
        }
      }
    }
  }

  /** str(n) is the w-digit form of n when n has exactly w digits. */
  lemma {:induction false} DigitsAsFixed(n: nat, w: nat)
    requires w >= 1 && (w == 1 || Pow10(w - 1) <= n) && n < Pow10(w)
    ensures Digits(n) == FixedDigits(n, w)
  {
    Pow10Grows(w - 1);
    if n >= 10 {
      DigitsAsFixed(n / 10, w - 1);
    }
  }

  lemma Pow10Grows(k: nat)
    ensures k >= 1 ==> Pow10(k) >= 10
  {
  }

  // ---------------------------------------------------------------------------
  // sorted(keys, reverse=True)
  // ---------------------------------------------------------------------------

  predicate StrictlyDescending(ks: seq<string>)
  {
    forall i, j :: 0 <= i < j < |ks| ==> Below(ks[j], ks[i])
  }

  /** A finite, non-empty set of strings has a greatest element. */
  lemma {:induction false} GreatestOf(s: set<string>) returns (m: string)
    requires s != {}
    ensures m in s && forall x :: x in s && x != m ==> Below(x, m)
    decreases |s|
  {
    var x :| x in s;
    var rest := s - {x};
    if rest == {} {
      m := x;
      assert forall y :: y in s && y != x ==> y in rest;
    } else {
      var r := GreatestOf(rest);
      BelowTotal(x, r);
      if Below(x, r) {
        m := r;
      } else {
        m := x;
        forall y | y in s && y != x
          ensures Below(y, x)
        {
          if y != r {
            BelowTransitive(y, r, x);
          }
        }
      }
    }
  }

  lemma HasGreatest(s: set<string>)
    requires s != {}
    ensures exists m :: m in s && forall x :: x in s && x != m ==> Below(x, m)
  {
    var m := GreatestOf(s);
  }

  /** Python's sorted(...) with reverse=True over a set of distinct strings:
      every key exactly once, greatest first. */
  method SortDescending(keys: set<string>) returns (ks: seq<string>)
    ensures |ks| == |keys|
    ensures forall k :: k in ks <==> k in keys
    ensures StrictlyDescending(ks)
  {
    var rest := keys;
    ks := [];
    while rest != {}
      invariant rest <= keys
      invariant forall k :: k in ks <==> k in keys && k !in rest
      invariant |ks| + |rest| == |keys|
      invariant StrictlyDescending(ks)
      invariant forall i, x :: 0 <= i < |ks| && x in rest ==> Below(x, ks[i])
      decreases |rest|
    {
      HasGreatest(rest);
      var top :| top in rest && forall x :: x in rest && x != top ==> Below(x, top);
      ks := ks + [top];
      rest := rest - {top};
    }
  }
}
