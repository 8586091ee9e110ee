/** The string building blocks of the formatting in mqtt-restful/src/index.ts:
    JavaScript's decimal printing of integers (`${n}`), `padStart`, `padEnd` and
    `slice(0, n)`, together with the inverses (reading a numeral back, splitting on a
    separator) that the round-trip lemmas about the formats are stated with. */
module Strings {

  predicate IsDigit(c: char) {
    '0' <= c <= '9'
  }

  predicate AllDigits(s: string) {
    forall i :: 0 <= i < |s| ==> IsDigit(s[i])
  }

  function DigitChar(d: nat): (c: char)
    requires d < 10
    ensures IsDigit(c)
  {
    (48 + d) as char
  }

  function DigitValue(c: char): (d: nat)
    requires IsDigit(c)
    ensures d < 10 && DigitChar(d) == c
  {
    c as int - 48
  }

  /** `n` copies of `c`. */
  function Repeat(c: char, n: nat): (r: string)
    ensures |r| == n
    ensures forall i :: 0 <= i < n ==> r[i] == c
  {
    if n == 0 then [] else [c] + Repeat(c, n - 1)
  }

  /** `${n}` for a non-negative integer: its decimal numeral, without leading zeros. */
  function NatToDecimal(n: nat): (s: string)
    ensures |s| >= 1 && AllDigits(s)
    ensures s[0] == '0' ==> n == 0 && |s| == 1
    decreases n
  {
    if n < 10 then [DigitChar(n)] else NatToDecimal(n / 10) + [DigitChar(n % 10)]
  }

  /** `${n}` for any integer: a minus sign before the numeral of a negative number. */
  function IntToDecimal(n: int): (s: string)
    ensures IsNumeral(s)
    ensures s[0] == '-' <==> n < 0
  {
    if n < 0 then
      var d := NatToDecimal(-n);
      assert ("-" + d)[1..] == d;
      "-" + d
    else NatToDecimal(n)
  }

  /** The value of a string of digits, read left to right; leading zeros are allowed. */
  function ParseDecimal(s: string): nat
    requires AllDigits(s)
    decreases |s|
  {
    if s == [] then 0 else 10 * ParseDecimal(s[..|s| - 1]) + DigitValue(s[|s| - 1])
  }

  /** What `IntToDecimal` can print: digits, optionally after one minus sign. */
  predicate IsNumeral(s: string) {
    (|s| >= 1 && AllDigits(s)) || (|s| >= 2 && s[0] == '-' && AllDigits(s[1..]))
  }

  function ParseInt(s: string): int
    requires IsNumeral(s)
  {
    if s[0] == '-' then -(ParseDecimal(s[1..]) as int) else ParseDecimal(s)
  }

  lemma {:induction false} ParseNatToDecimal(n: nat)
    ensures ParseDecimal(NatToDecimal(n)) == n
    decreases n
  {
    if n >= 10 {
      var s := NatToDecimal(n);
      assert s[..|s| - 1] == NatToDecimal(n / 10);
      ParseNatToDecimal(n / 10);
    }
  }

  /** Printing an integer and reading it back gives the integer. */
  lemma ParseIntToDecimal(n: int)
    ensures IsNumeral(IntToDecimal(n)) && ParseInt(IntToDecimal(n)) == n
  {
    if n < 0 {
      var s := IntToDecimal(n);
      assert s[1..] == NatToDecimal(-n);
      ParseNatToDecimal(-n);
    } else {
      ParseNatToDecimal(n);
    }
  }

  /** The numeral of `n` has one digit exactly when `n < 10`, two exactly when `10 <= n < 100`. */
  lemma {:induction false} DecimalLength(n: nat)
    ensures |NatToDecimal(n)| == 1 <==> n < 10
    ensures |NatToDecimal(n)| == 2 <==> 10 <= n < 100
    decreases n
  {
    if n >= 10 {
      DecimalLength(n / 10);
    }
  }

  lemma {:induction false} ParseZeros(z: nat)
    ensures AllDigits(Repeat('0', z)) && ParseDecimal(Repeat('0', z)) == 0
    decreases z
  {
    if z > 0 {
      var r := Repeat('0', z);
      assert r[..z - 1] == Repeat('0', z - 1);
      ParseZeros(z - 1);
    }
  }

  /** Zeros put in front of a numeral do not change its value. */
  lemma {:induction false} ParseLeadingZeros(z: nat, s: string)
    requires AllDigits(s)
    ensures AllDigits(Repeat('0', z) + s)
    ensures ParseDecimal(Repeat('0', z) + s) == ParseDecimal(s)
    decreases |s|
  {
    if s == [] {
      assert Repeat('0', z) + s == Repeat('0', z);
      ParseZeros(z);
    } else {
      var t := Repeat('0', z) + s;
      assert t[..|t| - 1] == Repeat('0', z) + s[..|s| - 1];
      ParseLeadingZeros(z, s[..|s| - 1]);
    }
  }

  /** A printed integer holds nothing but digits and, when negative, a leading minus sign. */
  lemma DecimalAvoids(n: int, c: char)
    requires !IsDigit(c) && (c == '-' ==> n >= 0)
    ensures c !in IntToDecimal(n)
  {
    var d := NatToDecimal(if n < 0 then -n else n);
    if n < 0 {
      assert IntToDecimal(n) == ['-'] + d;
    }
  }

  /** JavaScript's `s.padStart(len, fill)` with a one-character fill. */
  function PadStart(s: string, len: nat, fill: char): (r: string)
    ensures |r| == if |s| >= len then |s| else len
    ensures r[|r| - |s|..] == s
    ensures forall i :: 0 <= i < |r| - |s| ==> r[i] == fill
  {
    if |s| >= len then s else Repeat(fill, len - |s|) + s
  }

  /** JavaScript's `s.padEnd(len, fill)` with a one-character fill. */
  function PadEnd(s: string, len: nat, fill: char): (r: string)
    ensures |r| == if |s| >= len then |s| else len
    ensures r[..|s|] == s
    ensures forall i :: |s| <= i < |r| ==> r[i] == fill
  {
    if |s| >= len then s else s + Repeat(fill, len - |s|)
  }

  /** JavaScript's `s.slice(0, n)` for a non-negative `n`. */
  function SliceTo(s: string, n: nat): (r: string)
    ensures |r| == if n <= |s| then n else |s|
    ensures r == s[..|r|]
  {
    if n <= |s| then s[..n] else s
  }

  /** The pieces of `s` between occurrences of `sep`, as JavaScript's `s.split(sep)`. */
  function SplitOn(s: string, sep: char): (parts: seq<string>)
    ensures |parts| >= 1
    decreases |s|
  {
    if s == [] then [""]
    else
      var rest := SplitOn(s[1..], sep);
      if s[0] == sep then [""] + rest else [[s[0]] + rest[0]] + rest[1..]
  }

  /** The pieces put back together with `sep` between them, as `parts.join(sep)`. */
  function JoinWith(parts: seq<string>, sep: char): string
    requires |parts| >= 1
    decreases |parts|
  {
    if |parts| == 1 then parts[0] else parts[0] + [sep] + JoinWith(parts[1..], sep)
  }

  lemma {:induction false} SplitWithoutSeparator(p: string, sep: char)
    requires sep !in p
    ensures SplitOn(p, sep) == [p]
    decreases |p|
  {
    if p != [] {
      assert sep !in p[1..] by {
        forall i | 0 <= i < |p| - 1 ensures p[1..][i] != sep {
          assert p[1..][i] == p[i + 1];
        }
      }
      SplitWithoutSeparator(p[1..], sep);
      assert [p[0]] + p[1..] == p;
    }
  }

  /** Splitting a string that starts with a separator-free piece and a separator yields that
      piece first, then the split of the rest. */
  lemma {:induction false} SplitAtFirstSeparator(p: string, sep: char, t: string)
    requires sep !in p
    ensures SplitOn(p + [sep] + t, sep) == [p] + SplitOn(t, sep)
    decreases |p|
  {
    var s := p + [sep] + t;
    if p == [] {
      assert s[1..] == t;
    } else {
      assert s[1..] == p[1..] + [sep] + t;
      assert sep !in p[1..] by {
        forall i | 0 <= i < |p| - 1 ensures p[1..][i] != sep {
          assert p[1..][i] == p[i + 1];
        }
      }
      SplitAtFirstSeparator(p[1..], sep, t);
      assert [p[0]] + p[1..] == p;
    }
  }

  /** Three separator-free pieces with the separator between them split back into the pieces. */
  lemma SplitThree(a: string, b: string, c: string, sep: char)
    requires sep !in a && sep !in b && sep !in c
    ensures SplitOn(a + [sep] + b + [sep] + c, sep) == [a, b, c]
  {
    assert a + [sep] + b + [sep] + c == a + [sep] + (b + [sep] + c);
    SplitAtFirstSeparator(a, sep, b + [sep] + c);
    SplitAtFirstSeparator(b, sep, c);
    SplitWithoutSeparator(c, sep);
  }

  /** Three separator-free pieces, each followed by the separator, split off the front of a
      string ahead of the split of its remainder. */
  lemma SplitThreeThenRest(a: string, b: string, c: string, sep: char, t: string)
    requires sep !in a && sep !in b && sep !in c
    ensures SplitOn(a + [sep] + b + [sep] + c + [sep] + t, sep) == [a, b, c] + SplitOn(t, sep)
  {
    assert a + [sep] + b + [sep] + c + [sep] + t == a + [sep] + (b + [sep] + (c + [sep] + t));
    SplitAtFirstSeparator(a, sep, b + [sep] + (c + [sep] + t));
    SplitAtFirstSeparator(b, sep, c + [sep] + t);
    SplitAtFirstSeparator(c, sep, t);
  }

  /** Splitting and joining again on the same separator gives back the original string. */
  lemma {:induction false} JoinSplit(s: string, sep: char)
    ensures JoinWith(SplitOn(s, sep), sep) == s
    decreases |s|
  {
    if s != [] {
      var rest := SplitOn(s[1..], sep);
      JoinSplit(s[1..], sep);
      if s[0] == sep {
        assert ([""] + rest)[1..] == rest;
      } else {
        var parts := [[s[0]] + rest[0]] + rest[1..];
        if |rest| == 1 {
          assert JoinWith(parts, sep) == [s[0]] + rest[0];
        } else {
          assert parts[1..] == rest[1..];
          assert JoinWith(parts, sep) == [s[0]] + (rest[0] + [sep] + JoinWith(rest[1..], sep));
        }
        assert [s[0]] + s[1..] == s;
      }
    }
  }
}
