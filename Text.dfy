/**
  The few operations of Python's `str` and `int` that the parsers depend on:
  `strip`, `upper`, `split`, `join`, `in`, `int(...)`, `str(n)`, zero padding and the
  ordering `<` / `<=` of strings.
*/
module Text {
  import opened Wrappers

  // ---------------------------------------------------------------- characters

  /** The characters for which Python's `str.isspace()` holds, which `strip()` removes. */
  predicate IsSpace(c: char)
  {
    || c == ' '
    || '\t' <= c <= '\r'
    || '\U{1c}' <= c <= '\U{1f}'
    || c == '\U{85}' || c == '\U{a0}' || c == '\U{1680}'
    || '\U{2000}' <= c <= '\U{200a}'
    || c == '\U{2028}' || c == '\U{2029}' || c == '\U{202f}' || c == '\U{205f}' || c == '\U{3000}'
  }

  /** The line boundaries at which Python's `str.splitlines()` cuts. */
  const LineBreaks: set<char> :=
    {'\n', '\r', '\U{0b}', '\U{0c}', '\U{1c}', '\U{1d}', '\U{1e}', '\U{85}', '\U{2028}', '\U{2029}'}

  predicate IsDigit(c: char) { '0' <= c <= '9' }

  function DigitValue(c: char): nat
    requires IsDigit(c)
  {
    c as int - '0' as int
  }

  function Digit(n: nat): (c: char)
    requires n < 10
    ensures IsDigit(c) && DigitValue(c) == n
  {
    ('0' as int + n) as char
  }

  /** Python's `upper()` on one character, for the ASCII letters. */
  function UpperChar(c: char): char
  {
    if 'a' <= c <= 'z' then (c as int - 32) as char else c
  }

  // ---------------------------------------------------------------- strip, upper

  function StripLeft(s: string): string
  {
    if s != [] && IsSpace(s[0]) then StripLeft(s[1..]) else s
  }

  function StripRight(s: string): string
  {
    if s != [] && IsSpace(s[|s| - 1]) then StripRight(s[..|s| - 1]) else s
  }

  /** Python's `s.strip()`. */
  function Strip(s: string): string
  {
    StripRight(StripLeft(s))
  }

  /** `StripLeft` removes a prefix made of white space, up to the first other character. */
  lemma {:induction false} StripLeftRemoves(s: string)
    ensures var r := StripLeft(s);
      && |r| <= |s| && r == s[|s| - |r|..]
      && (forall k :: 0 <= k < |s| - |r| ==> IsSpace(s[k]))
      && (r == [] || !IsSpace(r[0]))
  {
    if s != [] && IsSpace(s[0]) {
      StripLeftRemoves(s[1..]);
      var r := StripLeft(s[1..]);
      assert s[1..][|s| - 1 - |r|..] == s[|s| - |r|..];
      forall k | 1 <= k < |s| - |r|
        ensures IsSpace(s[k])
      {
        assert s[k] == s[1..][k - 1];
      }
    }
  }

  /** `StripRight` removes a suffix made of white space, back to the last other character. */
  lemma {:induction false} StripRightRemoves(s: string)
    ensures var r := StripRight(s);
      && |r| <= |s| && r == s[..|r|]
      && (forall k :: |r| <= k < |s| ==> IsSpace(s[k]))
      && (r == [] || !IsSpace(r[|r| - 1]))
  {
    if s != [] && IsSpace(s[|s| - 1]) {
      StripRightRemoves(s[..|s| - 1]);
    }
  }

  predicate NoSpace(s: string)
  {
    forall k :: 0 <= k < |s| ==> !IsSpace(s[k])
  }

  /** A string without white space is left alone by `strip()`. */
  lemma StripNoSpace(s: string)
    requires NoSpace(s)
    ensures Strip(s) == s
  {
  }

  /** Python's `s.upper()`, for the ASCII letters. */
  function Upper(s: string): (r: string)
    ensures |r| == |s|
  {
    seq(|s|, k requires 0 <= k < |s| => UpperChar(s[k]))
  }

  /** Python's `sub in s`. */
  predicate Contains(s: string, sub: string)
  {
    |sub| <= |s| && (s[..|sub|] == sub || Contains(s[1..], sub))
  }

  /** `sub` occurs in `s` from position `i` on. */
  predicate OccursAt(s: string, sub: string, i: int)
  {
    0 <= i <= |s| - |sub| && s[i..i + |sub|] == sub
  }

  /** `sub in s` holds exactly when `sub` occurs at some position of `s`. */
  lemma {:induction false} ContainsAt(s: string, sub: string)
    ensures Contains(s, sub) <==> exists i :: OccursAt(s, sub, i)
    decreases |s|
  {
    if |sub| <= |s| && s[..|sub|] != sub {
      ContainsAt(s[1..], sub);
      if Contains(s[1..], sub) {
        var i :| OccursAt(s[1..], sub, i);
        assert OccursAt(s, sub, i + 1);
      }
      if exists i :: OccursAt(s, sub, i) {
        var i :| OccursAt(s, sub, i);
        assert i != 0;
        assert OccursAt(s[1..], sub, i - 1);
      }
    } else if |sub| <= |s| {
      assert OccursAt(s, sub, 0);
    }
  }

  /** The position of the first `c` in `s` (Python's `s.index(c)`). */
  function IndexOf(s: string, c: char): (i: nat)
    requires c in s
    ensures i < |s| && s[i] == c && c !in s[..i]
  {
    if s[0] == c then 0 else 1 + IndexOf(s[1..], c)
  }

  /** The first `c` of `h + rest` is the first of `rest` when `h` holds none. */
  lemma {:induction false} IndexOfAfter(h: string, rest: string, c: char)
    requires c !in h && |rest| > 0 && rest[0] == c
    ensures c in h + rest && IndexOf(h + rest, c) == |h|
  {
    if h == [] {
      assert h + rest == rest;
    } else {
      assert (h + rest)[1..] == h[1..] + rest;
      IndexOfAfter(h[1..], rest, c);
    }
  }

  /** Python's `s.ljust(width, fill)`. */
  function LeftJustify(s: string, width: nat, fill: char): (r: string)
    ensures |r| == if |s| >= width then |s| else width
    ensures r[..|s|] == s
  {
    if |s| >= width then s else s + seq(width - |s|, _ => fill)
  }

  // ---------------------------------------------------------------- split, join

  /** `p` holds none of the characters of `seps`. */
  predicate Free(p: string, seps: set<char>)
  {
    forall k :: 0 <= k < |p| ==> p[k] !in seps
  }

  /**
    Python's `s.split(sep)` when `seps` is `{sep}`. With `seps` the line boundaries it cuts
    where `splitlines()` cuts; it also yields the empty pieces that `splitlines()` omits
    (between `\r` and `\n`, and after a final boundary), which every caller here skips.
  */
  function Split(s: string, seps: set<char>): (r: seq<string>)
    ensures |r| >= 1
    ensures forall k :: 0 <= k < |r| ==> Free(r[k], seps)
  {
    if s == [] then [[]]
    else
      var rest := Split(s[1..], seps);
      if s[0] in seps then [[]] + rest
      else [[s[0]] + rest[0]] + rest[1..]
  }

  /** Python's `sep.join(ps)`. */
  function Join(ps: seq<string>, sep: string): string
  {
    if |ps| == 0 then []
    else if |ps| == 1 then ps[0]
    else ps[0] + sep + Join(ps[1..], sep)
  }

  /** Joining the pieces of a split with the separator gives back the string. */
  lemma {:induction false} SplitThenJoin(s: string, c: char)
    ensures Join(Split(s, {c}), [c]) == s
  {
    if s != [] {
      var rest := Split(s[1..], {c});
      SplitThenJoin(s[1..], c);
      assert s == [s[0]] + s[1..];
      if s[0] == c {
        assert Split(s, {c}) == [[]] + rest;
        assert ([[]] + rest)[1..] == rest;
      } else if |rest| == 1 {
        assert Split(s, {c}) == [[s[0]] + rest[0]];
      } else {
        assert Join(rest, [c]) == rest[0] + [c] + Join(rest[1..], [c]);
        assert Split(s, {c})[1..] == rest[1..];
      }
    }
  }

  lemma {:induction false} SplitFreePrefix(p: string, t: string, seps: set<char>)
    requires Free(p, seps)
    ensures Split(p + t, seps) == [p + Split(t, seps)[0]] + Split(t, seps)[1..]
  {
    var x := Split(t, seps);
    if p == [] {
      assert p + t == t && p + x[0] == x[0] && x == [x[0]] + x[1..];
    } else {
      assert (p + t)[1..] == p[1..] + t;
      SplitFreePrefix(p[1..], t, seps);
      assert [p[0]] + (p[1..] + Split(t, seps)[0]) == p + Split(t, seps)[0];
    }
  }

  /** Splitting the join of separator-free pieces gives back the pieces. */
  lemma {:induction false} JoinThenSplit(ps: seq<string>, c: char)
    requires |ps| >= 1
    requires forall k :: 0 <= k < |ps| ==> Free(ps[k], {c})
    ensures Split(Join(ps, [c]), {c}) == ps
  {
    if |ps| == 1 {
      SplitFreePrefix(ps[0], [], {c});
      assert ps[0] + [] == ps[0];
      assert Split([], {c}) == [[]];
    } else {
      JoinThenSplit(ps[1..], c);
      var t := [c] + Join(ps[1..], [c]);
      assert Join(ps, [c]) == ps[0] + [c] + Join(ps[1..], [c]) == ps[0] + t;
      SplitFreePrefix(ps[0], t, {c});
      assert t[1..] == Join(ps[1..], [c]);
      assert Split(t, {c}) == [[]] + ps[1..];
      assert ([[]] + ps[1..])[1..] == ps[1..];
      assert ps[0] + [] == ps[0];
      assert ps == [ps[0]] + ps[1..];
    }
  }

  // ---------------------------------------------------------------- digits and numbers

  predicate AllDigits(s: string)
  {
    forall k :: 0 <= k < |s| ==> IsDigit(s[k])
  }

  function Pow10(n: nat): (p: nat)
    ensures p >= 1
  {
    if n == 0 then 1 else 10 * Pow10(n - 1)
  }

  /** The number a string of decimal digits denotes. */
  function DigitsValue(s: string): nat
    requires AllDigits(s)
  {
    if s == [] then 0 else 10 * DigitsValue(s[..|s| - 1]) + DigitValue(s[|s| - 1])
  }

  lemma MulTen(x: int, p: int)
    ensures x * (10 * p) == 10 * (x * p)
  {
  }

  /** The digits of `a` followed by those of `b` denote `a` shifted left by `|b|` places, plus `b`. */
  lemma {:induction false} DigitsValueConcat(a: string, b: string)
    requires AllDigits(a) && AllDigits(b)
    ensures AllDigits(a + b) && DigitsValue(a + b) == DigitsValue(a) * Pow10(|b|) + DigitsValue(b)
  {
    if b != [] {
      var b' := b[..|b| - 1];
      assert (a + b)[..|a + b| - 1] == a + b';
      assert (a + b)[|a + b| - 1] == b[|b| - 1];
      DigitsValueConcat(a, b');
      var d := DigitValue(b[|b| - 1]);
      assert DigitsValue(a + b) == 10 * DigitsValue(a + b') + d;
      assert DigitsValue(b) == 10 * DigitsValue(b') + d;
      var x, p := DigitsValue(a), Pow10(|b'|);
      assert Pow10(|b|) == 10 * p;
      MulTen(x, p);
    } else {
      assert a + b == a;
    }
  }

  /**
    Python's `int(s)` on a string: surrounding white space, an optional sign, then at least
    one ASCII digit; anything else raises `ValueError`, here `None`.
  */
  function ParseInt(s: string): Option<int>
  {
    var t := Strip(s);
    if |t| > 0 && (t[0] == '+' || t[0] == '-') then
      var d := t[1..];
      var v: int := if |d| > 0 && AllDigits(d) then DigitsValue(d) else 0;
      if |d| > 0 && AllDigits(d) then Some(if t[0] == '-' then -v else v)
      else None
    else if |t| > 0 && AllDigits(t) then Some(DigitsValue(t))
    else None
  }

  /** A string of digits parses as the number it denotes. */
  lemma ParseDigits(s: string)
    requires |s| > 0 && AllDigits(s)
    ensures ParseInt(s) == Some(DigitsValue(s))
  {
    assert NoSpace(s) by {
      forall k | 0 <= k < |s| ensures !IsSpace(s[k]) { assert IsDigit(s[k]); }
    }
    StripNoSpace(s);
  }

  /** The last `width` decimal digits of `n`, with leading zeros (`f"{n:0{width}d}"`). */
  function PadDigits(n: nat, width: nat): (r: string)
    ensures |r| == width && AllDigits(r)
  {
    if width == 0 then [] else PadDigits(n / 10, width - 1) + [Digit(n % 10)]
  }

  /** Python's `str(n)` for a natural number. */
  function NatToString(n: nat): (r: string)
    ensures |r| >= 1 && AllDigits(r)
  {
    if n < 10 then [Digit(n)] else NatToString(n / 10) + [Digit(n % 10)]
  }

  /** A number that fits in `width` digits is what its padded form denotes. */
  lemma {:induction false} PadDigitsValue(n: nat, width: nat)
    requires n < Pow10(width)
    ensures DigitsValue(PadDigits(n, width)) == n
  {
    if width > 0 {
      var r := PadDigits(n, width);
      var q := n / 10;
      DropDigit(n, Pow10(width - 1));
      assert r[..|r| - 1] == PadDigits(q, width - 1);
      PadDigitsValue(q, width - 1);
      assert DigitValue(r[|r| - 1]) == n % 10;
    }
  }

  /** Dropping the last decimal digit of a number below `10 * p` leaves one below `p`. */
  lemma DropDigit(n: nat, p: nat)
    requires n < 10 * p
    ensures n / 10 < p
  {
  }

  /** `str(n)` denotes `n`. */
  lemma {:induction false} NatToStringValue(n: nat)
    ensures DigitsValue(NatToString(n)) == n
  {
    if n >= 10 {
      var r := NatToString(n);
      assert r[..|r| - 1] == NatToString(n / 10);
      NatToStringValue(n / 10);
    }
  }

  /** `int(str(n)) == n`. */
  lemma NatToStringParses(n: nat)
    ensures ParseInt(NatToString(n)) == Some(n)
  {
    ParseDigits(NatToString(n));
    NatToStringValue(n);
  }

  /** A number of exactly `width` digits prints the same with or without padding. */
  lemma {:induction false} NatToStringIsPadded(n: nat, width: nat)
    requires width >= 1 && Pow10(width - 1) <= n < Pow10(width)
    ensures NatToString(n) == PadDigits(n, width)
  {
    if width > 1 {
      NatToStringIsPadded(n / 10, width - 1);
    }
  }

  /** Digit strings of one length are equal exactly when their values are. */
  lemma {:induction false} DigitsValueInjective(a: string, b: string)
    requires |a| == |b| && AllDigits(a) && AllDigits(b) && DigitsValue(a) == DigitsValue(b)
    ensures a == b
  {
    if a != [] {
      var n := |a|;
      var a0, b0 := a[..n - 1], b[..n - 1];
      assert AllDigits(a0) && AllDigits(b0);
      LastDigit(DigitsValue(a0), DigitValue(a[n - 1]), DigitsValue(b0), DigitValue(b[n - 1]));
      DigitsValueInjective(a0, b0);
      assert a[n - 1] == b[n - 1];
      assert a == a0 + [a[n - 1]];
      assert b == b0 + [b[n - 1]];
    }
  }

  /** A number written with one more decimal digit determines that digit and the rest. */
  lemma LastDigit(x: nat, d: nat, y: nat, e: nat)
    requires d < 10 && e < 10 && 10 * x + d == 10 * y + e
    ensures x == y && d == e
  {
    assert 10 * (x - y) == e - d;
  }

  // ---------------------------------------------------------------- string order

  /** Python's `a < b` on strings: code point by code point, a proper prefix first. */
  predicate LexLess(a: string, b: string)
  {
    b != [] && (a == [] || a[0] < b[0] || (a[0] == b[0] && LexLess(a[1..], b[1..])))
  }

  /** Python's `a <= b` on strings. */
  predicate LexAtMost(a: string, b: string)
  {
    a == b || LexLess(a, b)
  }

  lemma {:induction false} LexLessIrreflexive(a: string)
    ensures !LexLess(a, a)
  {
    if a != [] {
      LexLessIrreflexive(a[1..]);
    }
  }

  lemma {:induction false} LexLessTransitive(a: string, b: string, c: string)
    requires LexLess(a, b) && LexLess(b, c)
    ensures LexLess(a, c)
  {
    if a != [] && a[0] == b[0] && b[0] == c[0] {
      LexLessTransitive(a[1..], b[1..], c[1..]);
    }
  }

  lemma {:induction false} LexLessTotal(a: string, b: string)
    requires a != b
    ensures LexLess(a, b) || LexLess(b, a)
  {
    if a != [] && b != [] && a[0] == b[0] {
      assert a == [a[0]] + a[1..] && b == [b[0]] + b[1..];
      LexLessTotal(a[1..], b[1..]);
    }
  }

  lemma LexLessAsymmetric(a: string, b: string)
    requires LexLess(a, b)
    ensures !LexLess(b, a)
  {
    if LexLess(b, a) {
      LexLessTransitive(a, b, a);
      LexLessIrreflexive(a);
    }
  }

  /** `<=` on strings is a total order. */
  lemma LexAtMostTotalOrder(a: string, b: string, c: string)
    ensures LexAtMost(a, b) || LexAtMost(b, a)
    ensures LexAtMost(a, b) && LexAtMost(b, a) ==> a == b
    ensures LexAtMost(a, b) && LexAtMost(b, c) ==> LexAtMost(a, c)
  {
    if a != b { LexLessTotal(a, b); }
    if LexLess(a, b) { LexLessAsymmetric(a, b); }
    if LexLess(a, b) && LexLess(b, c) { LexLessTransitive(a, b, c); }
  }

  /** Strings made of equally long heads compare by head first, then by tail. */
  lemma {:induction false} LexConcat(x1: string, y1: string, x2: string, y2: string)
    requires |x1| == |x2|
    ensures LexLess(x1 + y1, x2 + y2) <==> LexLess(x1, x2) || (x1 == x2 && LexLess(y1, y2))
  {
    if x1 == [] {
      assert x1 + y1 == y1 && x2 + y2 == y2;
    } else {
      assert (x1 + y1)[1..] == x1[1..] + y1 && (x1 + y1)[0] == x1[0];
      assert (x2 + y2)[1..] == x2[1..] + y2 && (x2 + y2)[0] == x2[0];
      LexConcat(x1[1..], y1, x2[1..], y2);
      assert x1 == [x1[0]] + x1[1..] && x2 == [x2[0]] + x2[1..];
    }
  }

  lemma LexSingle(x: char, y: char)
    ensures LexLess([x], [y]) <==> x < y
  {
    assert [x][1..] == [] && [y][1..] == [];
  }

  lemma DivModOrder(a: nat, b: nat)
    ensures a < b <==> a / 10 < b / 10 || (a / 10 == b / 10 && a % 10 < b % 10)
  {
  }

  /** Zero-padded numbers of one width compare as strings as they compare as numbers. */
  lemma {:induction false} PadDigitsOrder(a: nat, b: nat, width: nat)
    requires a < Pow10(width) && b < Pow10(width)
    ensures LexLess(PadDigits(a, width), PadDigits(b, width)) <==> a < b
  {
    if width > 0 {
      var p := Pow10(width - 1);
      var qa, qb := a / 10, b / 10;
      var pa, pb := PadDigits(qa, width - 1), PadDigits(qb, width - 1);
      var da, db := Digit(a % 10), Digit(b % 10);
      DropDigit(a, p);
      DropDigit(b, p);
      PadDigitsOrder(qa, qb, width - 1);
      assert LexLess(PadDigits(a, width), PadDigits(b, width)) <==> LexLess(pa, pb) || (pa == pb && da < db) by {
        assert PadDigits(a, width) == pa + [da] && PadDigits(b, width) == pb + [db];
        LexConcat(pa, [da], pb, [db]);
        LexSingle(da, db);
      }
      assert pa == pb <==> qa == qb by {
        PadDigitsValue(qa, width - 1);
        PadDigitsValue(qb, width - 1);
      }
      assert da < db <==> a % 10 < b % 10;
      DivModOrder(a, b);
    }
  }

  /** Python's `max` over strings: the lexicographically greatest element of `s`. */
  function LexMax(s: seq<string>): (r: string)
    requires |s| > 0
    ensures r in s
    ensures forall x :: x in s ==> LexAtMost(x, r)
  {
    if |s| == 1 then s[0]
    else
      var init := s[..|s| - 1];
      var last := s[|s| - 1];
      var m := LexMax(init);
      assert s == init + [last];
      if LexLess(m, last) then
        assert forall x :: x in s ==> LexAtMost(x, last) by {
          forall x | x in s ensures LexAtMost(x, last) {
            if x in init && x != m { LexLessTransitive(x, m, last); }
          }
        }
        last
      else
        assert LexAtMost(last, m) by {
          if last != m { LexLessTotal(last, m); }
        }
        m
  }
}
