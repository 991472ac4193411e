/**
 * Text rendering that the C++ code obtains from output streams: the decimal
 * and upper-case hexadecimal forms of integers, fill-padding to a minimum
 * width (std::setw with std::setfill) and joining with a separator.
 */
module Text {

  /** The digit character for d in bases up to 16, upper case as with std::uppercase. */
  function DigitChar(d: nat): (c: char)
    requires d < 16
  {
    "0123456789ABCDEF"[d]
  }

  /** The value of a digit character, if it is one in base `base`. */
  function DigitValue(c: char, base: nat): (r: int)
    requires 2 <= base <= 16
    ensures -1 <= r < base as int
    ensures r >= 0 ==> DigitChar(r) == c
  {
    if '0' <= c <= '9' && (c as int - '0' as int) < base then c as int - '0' as int
    else if 'A' <= c <= 'F' && 10 + (c as int - 'A' as int) < base then 10 + (c as int - 'A' as int)
    else -1
  }

  predicate IsDigitIn(c: char, base: nat)
    requires 2 <= base <= 16
  {
    DigitValue(c, base) >= 0
  }

  predicate AllDigits(s: string, base: nat)
    requires 2 <= base <= 16
  {
    forall i :: 0 <= i < |s| ==> IsDigitIn(s[i], base)
  }

  /** Digits of n in base `base`, most significant first, without leading zeros. */
  function NatDigits(n: nat, base: nat): (s: string)
    requires 2 <= base <= 16
    decreases n
  {
    if n < base then [DigitChar(n)] else NatDigits(n / base, base) + [DigitChar(n % base)]
  }

  /** The number a string of digits denotes. */
  function DigitsValue(s: string, base: nat): (n: nat)
    requires 2 <= base <= 16
    requires AllDigits(s, base)
  {
    if s == [] then 0
    else DigitsValue(s[..|s| - 1], base) * base + DigitValue(s[|s| - 1], base)
  }

  lemma DigitCharValue(d: nat, base: nat)
    requires 2 <= base <= 16 && d < base
    ensures DigitValue(DigitChar(d), base) == d
  {
  }

  lemma DivModSplit(n: nat, base: nat)
    requires 2 <= base
    ensures n / base < n || n < base
    ensures n == (n / base) * base + n % base
    ensures 0 <= n % base < base
  {
  }

  lemma {:induction false} NatDigitsAreDigits(n: nat, base: nat)
    requires 2 <= base <= 16
    ensures |NatDigits(n, base)| >= 1
    ensures AllDigits(NatDigits(n, base), base)
    ensures |NatDigits(n, base)| > 1 ==> NatDigits(n, base)[0] != '0'
    decreases n
  {
    if n < base {
      DigitCharValue(n, base);
    } else {
      DivModSplit(n, base);
      NatDigitsAreDigits(n / base, base);
      DigitCharValue(n % base, base);
      var p := NatDigits(n / base, base);
      var s := NatDigits(n, base);
      assert s == p + [DigitChar(n % base)];
      forall i | 0 <= i < |s| ensures IsDigitIn(s[i], base) {
        if i < |p| { assert s[i] == p[i]; }
      }
      assert s[0] == p[0];
    }
  }

  /** Printing a number and reading it back gives the number. */
  lemma {:induction false} NatDigitsRoundTrip(n: nat, base: nat)
    requires 2 <= base <= 16
    ensures |NatDigits(n, base)| >= 1
    ensures AllDigits(NatDigits(n, base), base)
    ensures DigitsValue(NatDigits(n, base), base) == n
    ensures |NatDigits(n, base)| > 1 ==> NatDigits(n, base)[0] != '0'
    decreases n
  {
    NatDigitsAreDigits(n, base);
    var s := NatDigits(n, base);
    if n < base {
      DigitCharValue(n, base);
      assert s[..0] == [];
    } else {
      DivModSplit(n, base);
      NatDigitsRoundTrip(n / base, base);
      DigitCharValue(n % base, base);
      var p := NatDigits(n / base, base);
      assert s == p + [DigitChar(n % base)];
      assert s[..|s| - 1] == p;
      assert DigitsValue(s, base) == DigitsValue(p, base) * base + n % base;
    }
  }

  /** Decimal rendering of an int, as `os << i` writes it (a '-' then the digits). */
  function Decimal(i: int): (s: string)
  {
    if i < 0 then "-" + NatDigits(-i, 10) else NatDigits(i, 10)
  }

  /** A decimal numeral holds neither of the separators ',' and ':'. */
  lemma DecimalHasNoSeparator(i: int)
    ensures ',' !in Decimal(i) && ':' !in Decimal(i)
  {
    var m: nat := if i < 0 then -i else i;
    var d := NatDigits(m, 10);
    NatDigitsAreDigits(m, 10);
    forall k | 0 <= k < |d| ensures d[k] != ',' && d[k] != ':' {
      assert IsDigitIn(d[k], 10);
    }
    assert Decimal(i) == (if i < 0 then "-" else "") + d;
  }

  /** Upper-case hexadecimal rendering of a natural number (std::hex with std::uppercase). */
  function Hex(n: nat): (s: string)
  {
    NatDigits(n, 16)
  }

  /** `count` copies of c. */
  function Repeat(c: char, count: nat): (s: string)
    ensures |s| == count
    ensures forall i :: 0 <= i < |s| ==> s[i] == c
  {
    seq(count, _ => c)
  }

  /**
   * std::setw(width) with std::setfill(fill) before one formatted output:
   * the fill characters go on the left up to the width; a longer text is not cut.
   */
  function PadLeft(s: string, width: nat, fill: char): (r: string)
  {
    if |s| >= width then s else Repeat(fill, width - |s|) + s
  }

  lemma PadLeftShape(s: string, width: nat, fill: char)
    ensures |PadLeft(s, width, fill)| == if |s| >= width then |s| else width
    ensures PadLeft(s, width, fill) == Repeat(fill, |PadLeft(s, width, fill)| - |s|) + s
  {
    if |s| >= width {
      assert Repeat(fill, 0) + s == s;
    }
  }

  /** Drops the leading occurrences of fill. */
  function DropFill(s: string, fill: char): (r: string)
    ensures |r| <= |s| && r == s[|s| - |r|..]
    ensures r != [] ==> r[0] != fill
  {
    if s != [] && s[0] == fill then DropFill(s[1..], fill) else s
  }

  lemma {:induction false} DropFillPadded(pad: nat, s: string, fill: char)
    requires s != [] ==> s[0] != fill
    ensures DropFill(Repeat(fill, pad) + s, fill) == s
    decreases pad
  {
    if pad > 0 {
      assert (Repeat(fill, pad) + s)[1..] == Repeat(fill, pad - 1) + s;
      DropFillPadded(pad - 1, s, fill);
    } else {
      assert Repeat(fill, 0) + s == s;
    }
  }

  /** A padded number is read back by dropping the fill, provided the fill is no digit. */
  lemma PaddedNumberRoundTrip(n: nat, base: nat, width: nat, fill: char)
    requires 2 <= base <= 16
    requires !IsDigitIn(fill, base)
    ensures var field := DropFill(PadLeft(NatDigits(n, base), width, fill), fill);
      AllDigits(field, base) && DigitsValue(field, base) == n
  {
    var s := NatDigits(n, base);
    NatDigitsRoundTrip(n, base);
    PadLeftShape(s, width, fill);
    assert IsDigitIn(s[0], base);
    DropFillPadded(|PadLeft(s, width, fill)| - |s|, s, fill);
  }

  /** Concatenation of parts with sep between neighbours. */
  function Join(parts: seq<string>, sep: string): (r: string)
  {
    if parts == [] then ""
    else if |parts| == 1 then parts[0]
    else parts[0] + sep + Join(parts[1..], sep)
  }

  /** Concatenation of parts with nothing between them. */
  function Concat(parts: seq<string>): (r: string)
  {
    if parts == [] then "" else parts[0] + Concat(parts[1..])
  }

  lemma {:induction false} ConcatAppend(a: seq<string>, b: seq<string>)
    ensures Concat(a + b) == Concat(a) + Concat(b)
  {
    if a == [] {
      assert a + b == b;
    } else {
      assert (a + b)[1..] == a[1..] + b;
      ConcatAppend(a[1..], b);
    }
  }

  lemma {:induction false} JoinAppend(a: seq<string>, x: string, sep: string)
    requires a != []
    ensures Join(a + [x], sep) == Join(a, sep) + sep + x
    decreases |a|
  {
    if |a| == 1 {
      assert a + [x] == [a[0], x];
    } else {
      assert (a + [x])[1..] == a[1..] + [x];
      JoinAppend(a[1..], x, sep);
    }
  }

  /** The index of the first c in s, or |s| when there is none. */
  function IndexOf(s: string, c: char): (i: nat)
    ensures i <= |s|
    ensures forall k :: 0 <= k < i ==> s[k] != c
    ensures i < |s| ==> s[i] == c
  {
    if s == [] || s[0] == c then 0 else 1 + IndexOf(s[1..], c)
  }

  /** The pieces of s between the occurrences of c (one piece when c does not occur). */
  function Split(s: string, c: char): (r: seq<string>)
    ensures |r| >= 1
    decreases |s|
  {
    var i := IndexOf(s, c);
    if i == |s| then [s] else [s[..i]] + Split(s[i + 1..], c)
  }

  /** Splitting at c undoes joining with c, provided no part holds c. */
  lemma {:induction false} SplitJoin(parts: seq<string>, c: char)
    requires parts != []
    requires forall i :: 0 <= i < |parts| ==> c !in parts[i]
    ensures Split(Join(parts, [c]), c) == parts
    decreases |parts|
  {
    var p := parts[0];
    if |parts| == 1 {
      assert IndexOf(p, c) == |p| by {
        assert forall k :: 0 <= k < |p| ==> p[k] in p;
      }
    } else {
      var rest := Join(parts[1..], [c]);
      var s := p + [c] + rest;
      assert Join(parts, [c]) == s;
      assert IndexOf(s, c) == |p| by {
        assert s[|p|] == c;
        forall k | 0 <= k < |p| ensures s[k] != c {
          assert s[k] == p[k] && p[k] in p;
        }
      }
      assert s[..|p|] == p && s[|p| + 1..] == rest;
      SplitJoin(parts[1..], c);
    }
  }
}
