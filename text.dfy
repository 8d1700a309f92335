/** The string operations of Python's `str` that the core relies on: digits and `int`
    of a digit string, decimal formatting, `upper`/`lower` on ASCII letters, `strip`
    with the whitespace up to U+00A0, `startswith`, `join` and `split` on one
    separator character. */
module Text {

  // ---------------------------------------------------------------------------
  // Digits and decimal numbers
  // ---------------------------------------------------------------------------

  predicate IsDigit(c: char) {
    '0' <= c <= '9'
  }

  predicate AllDigits(s: string) {
    forall i :: 0 <= i < |s| ==> IsDigit(s[i])
  }

  function DigitValue(c: char): nat
    requires IsDigit(c)
  {
    c as int - '0' as int
  }

  function DigitChar(d: nat): (c: char)
    requires d < 10
    ensures IsDigit(c) && DigitValue(c) == d
  {
    ('0' as int + d) as char
  }

  /** The value of a decimal digit string, most significant digit first; "" is 0. */
  function DigitsValue(s: string): nat
    requires AllDigits(s)
  {
    if s == [] then 0 else DigitsValue(s[..|s| - 1]) * 10 + DigitValue(s[|s| - 1])
  }

  function Pow10(k: nat): (r: nat)
    ensures r >= 1
  {
    if k == 0 then 1 else 10 * Pow10(k - 1)
  }

  lemma {:induction false} DigitsValueAppend(a: string, b: string)
    requires AllDigits(a) && AllDigits(b)
    ensures AllDigits(a + b)
    ensures DigitsValue(a + b) == DigitsValue(a) * Pow10(|b|) + DigitsValue(b)
  {
    AllDigitsAppend(a, b);
    if b == [] {
      assert a + b == a;
    } else {
      var b' := b[..|b| - 1];
      DigitsValueAppend(a, b');
      DigitsValueSnoc(a, b);
      ShiftDigit(DigitsValue(a), Pow10(|b'|), DigitsValue(b'), DigitValue(b[|b| - 1]));
    }
  }

  /** Appending the last digit of b to a + b[..|b| - 1]. */
  lemma {:induction false} DigitsValueSnoc(a: string, b: string)
    requires AllDigits(a) && AllDigits(b) && b != []
    ensures AllDigits(a + b) && AllDigits(a + b[..|b| - 1])
    ensures DigitsValue(a + b) == DigitsValue(a + b[..|b| - 1]) * 10 + DigitValue(b[|b| - 1])
    ensures DigitsValue(b) == DigitsValue(b[..|b| - 1]) * 10 + DigitValue(b[|b| - 1])
    ensures Pow10(|b|) == Pow10(|b| - 1) * 10
  {
    AllDigitsAppend(a, b);
    assert (a + b)[..|a + b| - 1] == a + b[..|b| - 1];
  }

  lemma ShiftDigit(va: int, p: int, vb: int, d: int)
    ensures (va * p + vb) * 10 + d == va * (p * 10) + (vb * 10 + d)
  {
  }

  lemma {:induction false} AllDigitsAppend(a: string, b: string)
    requires AllDigits(a) && AllDigits(b)
    ensures AllDigits(a + b)
  {
  }

  function Zeros(k: nat): (s: string)
    ensures |s| == k && AllDigits(s)
  {
    if k == 0 then "" else "0" + Zeros(k - 1)
  }

  lemma {:induction false} ZerosValue(k: nat)
    ensures DigitsValue(Zeros(k)) == 0
  {
    if k > 0 {
      ZerosValue(k - 1);
      DigitsValueAppend("0", Zeros(k - 1));
    }
  }

  /** Python's `str(n)` for a natural number. */
  function NatToString(n: nat): (s: string)
    ensures 1 <= |s| && AllDigits(s)
    ensures DigitsValue(s) == n
    ensures |s| > 1 ==> s[0] != '0'
  {
    if n < 10 then [DigitChar(n)]
    else
      var s := NatToString(n / 10) + [DigitChar(n % 10)];
      assert s[..|s| - 1] == NatToString(n / 10);
      s
  }

  /** Python's `str(i)` (and f-string formatting) for an integer. */
  function IntToString(i: int): (s: string)
    ensures 1 <= |s|
    ensures i >= 0 ==> s == NatToString(i)
    ensures i < 0 ==> s == "-" + NatToString(-i)
  {
    if i < 0 then "-" + NatToString(-i) else NatToString(i)
  }

  /** `'%0*d' % (width, n)`: the decimal digits of n, left-padded with zeros to width. */
  function ZeroPad(n: nat, width: nat): (s: string)
    ensures AllDigits(s) && DigitsValue(s) == n
    ensures |s| == if |NatToString(n)| >= width then |NatToString(n)| else width
  {
    var digits := NatToString(n);
    var pad := if |digits| >= width then 0 else width - |digits|;
    ZerosValue(pad);
    DigitsValueAppend(Zeros(pad), digits);
    Zeros(pad) + digits
  }

  lemma {:induction false} DigitsValueBound(s: string)
    requires AllDigits(s)
    ensures DigitsValue(s) < Pow10(|s|)
  {
    if s != [] {
      DigitsValueBound(s[..|s| - 1]);
    }
  }

  /** A digit string of length w is the zero padding of its own value to width w. */
  lemma {:induction false} ZeroPadOfDigits(s: string)
    requires AllDigits(s) && |s| >= 1
    ensures ZeroPad(DigitsValue(s), |s|) == s
  {
    var n := DigitsValue(s);
    DigitsValueBound(s);
    var p := ZeroPad(n, |s|);
    NatDigitsFit(n, |s|);
    assert |p| == |s|;
    DigitStringsEqual(p, s);
  }

  lemma {:induction false} NatDigitsFit(n: nat, w: nat)
    requires w >= 1 && n < Pow10(w)
    ensures |NatToString(n)| <= w
  {
    if n >= 10 {
      assert w >= 2;
      NatDigitsFit(n / 10, w - 1);
    }
  }

  /** Two digit strings of the same length with the same value are equal. */
  lemma {:induction false} DigitStringsEqual(a: string, b: string)
    requires AllDigits(a) && AllDigits(b) && |a| == |b|
    requires DigitsValue(a) == DigitsValue(b)
    ensures a == b
  {
    if a != [] {
      var a', b' := a[..|a| - 1], b[..|b| - 1];
      assert DigitValue(a[|a| - 1]) == DigitValue(b[|b| - 1]);
      assert DigitsValue(a') == DigitsValue(b');
      DigitStringsEqual(a', b');
      assert a == a' + [a[|a| - 1]];
      assert b == b' + [b[|b| - 1]];
    }
  }

  // ---------------------------------------------------------------------------
  // Case mapping (ASCII letters only)
  // ---------------------------------------------------------------------------

  function UpperChar(c: char): char {
    if 'a' <= c <= 'z' then (c as int - 32) as char else c
  }

  function LowerChar(c: char): char {
    if 'A' <= c <= 'Z' then (c as int + 32) as char else c
  }

  /** `str.upper()` */
  function Upper(s: string): (r: string)
    ensures |r| == |s|
    ensures forall i :: 0 <= i < |s| ==> r[i] == UpperChar(s[i])
  {
    seq(|s|, i requires 0 <= i < |s| => UpperChar(s[i]))
  }

  /** `str.lower()` */
  function Lower(s: string): (r: string)
    ensures |r| == |s|
    ensures forall i :: 0 <= i < |s| ==> r[i] == LowerChar(s[i])
  {
    seq(|s|, i requires 0 <= i < |s| => LowerChar(s[i]))
  }

  // ---------------------------------------------------------------------------
  // Whitespace and strip()
  // ---------------------------------------------------------------------------

  /** `str.isspace()` on the ASCII and Latin-1 range. */
  predicate IsSpace(c: char) {
    c == ' ' || (0x09 <= c as int <= 0x0d) || (0x1c <= c as int <= 0x1f)
    || c as int == 0x85 || c as int == 0xa0
  }

  predicate AllSpace(s: string) {
    forall i :: 0 <= i < |s| ==> IsSpace(s[i])
  }

  function TrimStart(s: string): (r: string)
    ensures |r| <= |s| && r == s[|s| - |r|..]
    ensures r == [] || !IsSpace(r[0])
    ensures AllSpace(s[..|s| - |r|])
  {
    if s != [] && IsSpace(s[0]) then TrimStart(s[1..]) else s
  }

  function TrimEnd(s: string): (r: string)
    ensures |r| <= |s| && r == s[..|r|]
    ensures r == [] || !IsSpace(r[|r| - 1])
    ensures AllSpace(s[|r|..])
    ensures r == [] ==> AllSpace(s)
  {
    if s != [] && IsSpace(s[|s| - 1]) then
      var r := TrimEnd(s[..|s| - 1]);
      assert r == [] ==> AllSpace(s) by {
        if r == [] {
          forall k | 0 <= k < |s| ensures IsSpace(s[k]) {
            if k < |s| - 1 { assert s[k] == s[..|s| - 1][k]; }
          }
        }
      }
      r
    else s
  }

  /** `str.strip()`: the slice left after removing leading and trailing whitespace. */
  function Strip(s: string): (r: string)
    ensures |r| <= |s|
    ensures r == [] || (!IsSpace(r[0]) && !IsSpace(r[|r| - 1]))
    ensures r == [] <==> AllSpace(s)
  {
    var t := TrimStart(s);
    var r := TrimEnd(t);
    StripSlice(s, t, r);
    r
  }

  /** The stripped text is the slice of s after its leading whitespace. */
  lemma StripOccurs(s: string)
    ensures OccursAt(s, Strip(s), |s| - |TrimStart(s)|)
  {
    StripSlice(s, TrimStart(s), TrimEnd(TrimStart(s)));
  }

  lemma {:induction false} StripSlice(s: string, t: string, r: string)
    requires t == TrimStart(s) && r == TrimEnd(t)
    ensures r == [] <==> AllSpace(s)
    ensures OccursAt(s, r, |s| - |t|)
  {
    StripEmpty(s, t, r);
    PrefixOfSuffix(s, t, r);
  }

  /** A prefix of a suffix of s occurs in s where the suffix starts. */
  lemma {:induction false} PrefixOfSuffix(s: string, t: string, r: string)
    requires |t| <= |s| && t == s[|s| - |t|..] && |r| <= |t| && r == t[..|r|]
    ensures OccursAt(s, r, |s| - |t|)
  {
    var i := |s| - |t|;
    assert s[i..][..|r|] == s[i..i + |r|];
  }

  lemma {:induction false} StripEmpty(s: string, t: string, r: string)
    requires t == TrimStart(s) && r == TrimEnd(t)
    ensures r == [] <==> AllSpace(s)
  {
    if r == [] {
      assert |t| == 0;
      assert s[..|s| - |t|] == s;
    }
  }

  lemma {:induction false} StripIdempotent(s: string)
    ensures Strip(Strip(s)) == Strip(s)
  {
    var r := Strip(s);
    if r != [] {
      assert TrimStart(r) == r;
      assert TrimEnd(r) == r;
    }
  }

  // ---------------------------------------------------------------------------
  // Prefixes, joining and splitting
  // ---------------------------------------------------------------------------

  /** `str.startswith(prefix)` */
  predicate StartsWith(s: string, prefix: string) {
    |prefix| <= |s| && s[..|prefix|] == prefix
  }

  predicate OccursAt(s: string, part: string, i: nat) {
    i + |part| <= |s| && s[i..i + |part|] == part
  }

  /** `sep.join(parts)` */
  function Join(parts: seq<string>, sep: string): string {
    if parts == [] then ""
    else if |parts| == 1 then parts[0]
    else Join(parts[..|parts| - 1], sep) + sep + parts[|parts| - 1]
  }

  /** Every joined part occurs in the joined text. */
  lemma {:induction false} JoinContainsParts(parts: seq<string>, sep: string, k: nat)
    requires k < |parts|
    ensures exists i :: OccursAt(Join(parts, sep), parts[k], i)
  {
    var j := Join(parts, sep);
    if |parts| == 1 {
      assert OccursAt(j, parts[k], 0);
    } else if k == |parts| - 1 {
      var i := |Join(parts[..|parts| - 1], sep) + sep|;
      assert j[i..i + |parts[k]|] == parts[k];
      assert OccursAt(j, parts[k], i);
    } else {
      var front := parts[..|parts| - 1];
      assert front[k] == parts[k];
      JoinContainsParts(front, sep, k);
      var i: nat :| OccursAt(Join(front, sep), parts[k], i);
      assert j[i..i + |parts[k]|] == Join(front, sep)[i..i + |parts[k]|];
      assert OccursAt(j, parts[k], i);
    }
  }

  /** `s.split(c)` for a one-character separator: always at least one piece. */
  function Split(s: string, c: char): (pieces: seq<string>)
    ensures |pieces| >= 1
    ensures forall k :: 0 <= k < |pieces| ==> c !in pieces[k]
  {
    if s == [] then [""]
    else
      var pre := Split(s[..|s| - 1], c);
      var last := s[|s| - 1];
      if last == c then pre + [""]
      else pre[..|pre| - 1] + [pre[|pre| - 1] + [last]]
  }

  /** Joining the pieces of a split with the separator gives back the text. */
  lemma {:induction false} JoinSplit(s: string, c: char)
    ensures Join(Split(s, c), [c]) == s
  {
    if s != [] {
      var s' := s[..|s| - 1];
      var pre := Split(s', c);
      JoinSplit(s', c);
      var last := s[|s| - 1];
      assert s == s' + [last];
      if last == c {
        assert Split(s, c) == pre + [""];
        JoinSnoc(pre, "", [c]);
      } else {
        assert Split(s, c) == pre[..|pre| - 1] + [pre[|pre| - 1] + [last]];
        JoinExtendLast(pre, [last], [c]);
      }
    }
  }

  lemma {:induction false} JoinSnoc(parts: seq<string>, x: string, sep: string)
    requires |parts| >= 1
    ensures Join(parts + [x], sep) == Join(parts, sep) + sep + x
  {
    var all := parts + [x];
    assert all[..|all| - 1] == parts;
  }

  /** Extending the last part extends the joined text. */
  lemma {:induction false} JoinExtendLast(parts: seq<string>, x: string, sep: string)
    requires |parts| >= 1
    ensures Join(parts[..|parts| - 1] + [parts[|parts| - 1] + x], sep) == Join(parts, sep) + x
  {
    var front, l := parts[..|parts| - 1], parts[|parts| - 1];
    var all := front + [l + x];
    if |parts| == 1 {
      assert all == [l + x];
    } else {
      assert all[..|all| - 1] == front;
      assert Join(all, sep) == Join(front, sep) + sep + (l + x);
      assert Join(parts, sep) == Join(front, sep) + sep + l;
    }
  }

  /** Splitting a join of separator-free parts gives back the parts. */
  lemma {:induction false} SplitJoin(parts: seq<string>, c: char)
    requires |parts| >= 1
    requires forall k :: 0 <= k < |parts| ==> c !in parts[k]
    ensures Split(Join(parts, [c]), c) == parts
  {
    if |parts| == 1 {
      SplitNoSeparator(parts[0], c);
    } else {
      var front := parts[..|parts| - 1];
      var last := parts[|parts| - 1];
      SplitJoin(front, c);
      SplitAppendSeparator(Join(front, [c]), last, c);
    }
  }

  lemma {:induction false} SplitNoSeparator(s: string, c: char)
    requires c !in s
    ensures Split(s, c) == [s]
  {
    if s != [] {
      var s' := s[..|s| - 1];
      assert s == s' + [s[|s| - 1]];
      assert c !in s';
      SplitNoSeparator(s', c);
    }
  }

  /** split(a + c + b) == split(a) + [b] when b has no separator. */
  lemma {:induction false} SplitAppendSeparator(a: string, b: string, c: char)
    requires c !in b
    ensures Split(a + [c] + b, c) == Split(a, c) + [b]
  {
    var t := a + [c] + b;
    if b == [] {
      assert t[..|t| - 1] == a;
    } else {
      var b' := b[..|b| - 1];
      assert t[..|t| - 1] == a + [c] + b';
      SplitAppendSeparator(a, b', c);
      var pre := Split(a, c) + [b'];
      assert Split(t, c) == pre[..|pre| - 1] + [pre[|pre| - 1] + [b[|b| - 1]]];
      assert pre[..|pre| - 1] == Split(a, c);
      assert b' + [b[|b| - 1]] == b;
    }
  }
}
