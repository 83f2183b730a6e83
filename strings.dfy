/**
 * The pieces of Kotlin's standard library the text creator relies on:
 * `Int.toString`, `padStart`, `joinToString`, `StringBuilder`, and the
 * decimal and search functions used to state what their results contain.
 */
module Strings {
  import opened Optional

  predicate IsDigit(c: char) {
    '0' <= c <= '9'
  }

  function DigitValue(c: char): (d: nat)
    ensures d < 10
  {
    if IsDigit(c) then c as int - '0' as int else 0
  }

  function DigitChar(d: int): (c: char)
    requires 0 <= d < 10
    ensures IsDigit(c) && DigitValue(c) == d
  {
    ('0' as int + d) as char
  }

  /** The decimal digits of `n` with no leading zero, as `Int.toString` writes a non-negative value. */
  function NatToString(n: nat): (s: string)
    ensures 1 <= |s|
    ensures forall i :: 0 <= i < |s| ==> IsDigit(s[i])
    ensures |s| == 1 <==> n < 10
    ensures s[0] == '0' ==> n == 0
  {
    if n < 10 then [DigitChar(n)] else NatToString(n / 10) + [DigitChar(n % 10)]
  }

  /** Kotlin's `Int.toString()`: a minus sign for negative values, then the digits. */
  function IntToString(n: int): (s: string)
    ensures 1 <= |s|
    ensures s[0] == '-' <==> n < 0
    ensures IsDigit(s[0]) <==> 0 <= n
    ensures forall i :: 0 < i < |s| ==> IsDigit(s[i])
    ensures |s| < 2 <==> 0 <= n < 10
    ensures 2 <= |s| ==> s[0] != '0'
  {
    if n < 0 then "-" + NatToString(-n) else NatToString(n)
  }

  /** The value of a string of decimal digits, read left to right. */
  function DigitsValue(s: string): nat {
    if s == [] then 0 else DigitsValue(s[..|s| - 1]) * 10 + DigitValue(s[|s| - 1])
  }

  /** Reads back what `IntToString` writes. */
  function ParseDecimal(s: string): int {
    if 0 < |s| && s[0] == '-' then 0 - DigitsValue(s[1..]) as int else DigitsValue(s)
  }

  lemma {:induction false} NatToStringRoundTrip(n: nat)
    ensures DigitsValue(NatToString(n)) == n
  {
    var s := NatToString(n);
    if n < 10 {
      assert s[..|s| - 1] == [];
    } else {
      assert s[..|s| - 1] == NatToString(n / 10);
      NatToStringRoundTrip(n / 10);
    }
  }

  lemma IntToStringRoundTrip(n: int)
    ensures ParseDecimal(IntToString(n)) == n
  {
    if n < 0 {
      assert IntToString(n)[1..] == NatToString(-n);
      NatToStringRoundTrip(-n);
    } else {
      NatToStringRoundTrip(n);
    }
  }

  /** Kotlin's `String.padStart(length, padChar)`: pads on the left up to `length`, never truncates. */
  function PadStart(s: string, length: nat, padChar: char): (r: string)
    ensures |r| == if |s| < length then length else |s|
    ensures r[|r| - |s|..] == s
    ensures forall i :: 0 <= i < |r| - |s| ==> r[i] == padChar
  {
    if |s| < length then seq(length - |s|, _ => padChar) + s else s
  }

  /** The summed length of the elements. */
  function TotalLength(xs: seq<string>): nat {
    if xs == [] then 0 else |xs[0]| + TotalLength(xs[1..])
  }

  /**
   * Kotlin's `joinToString(sep)`: the elements in order, `sep` between neighbours only,
   * so no elements give "" and one element gives itself with no separator.
   */
  function Join(sep: string, xs: seq<string>): (r: string)
    ensures xs == [] ==> r == ""
    ensures |xs| == 1 ==> r == xs[0]
  {
    if |xs| == 0 then ""
    else if |xs| == 1 then xs[0]
    else xs[0] + sep + Join(sep, xs[1..])
  }

  /** n elements are joined by exactly n - 1 separators and nothing else. */
  lemma {:induction false} JoinLength(sep: string, xs: seq<string>)
    requires 0 < |xs|
    ensures |Join(sep, xs)| == TotalLength(xs) + (|xs| - 1) * |sep|
  {
    if 1 < |xs| {
      JoinLength(sep, xs[1..]);
    } else {
      assert xs[1..] == [];
    }
  }

  /**
   * Joining one more element adds one separator and the element at the end,
   * which is how `joinToString` builds its result left to right.
   */
  lemma {:induction false} JoinSnoc(sep: string, xs: seq<string>, x: string)
    requires 0 < |xs|
    ensures Join(sep, xs + [x]) == Join(sep, xs) + sep + x
  {
    if |xs| == 1 {
      assert (xs + [x])[1..] == [x];
    } else {
      assert (xs + [x])[1..] == xs[1..] + [x];
      JoinSnoc(sep, xs[1..], x);
    }
  }

  /** A join starts with its first element and ends with its last: no leading or trailing separator. */
  lemma {:induction false} JoinEnds(sep: string, xs: seq<string>)
    requires 0 < |xs|
    ensures var r := Join(sep, xs);
      |xs[0]| <= |r| && r[..|xs[0]|] == xs[0] &&
      |xs[|xs| - 1]| <= |r| && r[|r| - |xs[|xs| - 1]|..] == xs[|xs| - 1]
  {
    if 1 < |xs| {
      JoinEnds(sep, xs[1..]);
      var tail := Join(sep, xs[1..]);
      assert Join(sep, xs) == xs[0] + (sep + tail);
      assert (xs[0] + sep + tail)[|xs[0] + sep + tail| - |tail|..] == tail;
    }
  }

  /** The position of the first `c` in `s`, if there is one. */
  function IndexOf(s: string, c: char): (r: Option<nat>)
    ensures r.None? <==> c !in s
    ensures r.Some? ==> r.value < |s| && s[r.value] == c && c !in s[..r.value]
  {
    if s == [] then None
    else if s[0] == c then Some(0)
    else match IndexOf(s[1..], c)
      case None => None
      case Some(k) => assert s[..k + 1] == [s[0]] + s[1..][..k]; Some(k + 1)
  }

  /** The first `c` in `a + [c] + b` is the one after `a` when `a` holds none. */
  lemma IndexOfFirst(a: string, c: char, b: string)
    requires c !in a
    ensures IndexOf(a + [c] + b, c) == Some(|a|)
  {
    assert (a + [c] + b)[|a|] == c;
  }

  /** What `StringBuilder.append(s: String?)` writes: the text, or "null" for a null reference. */
  function NullableText(s: Option<string>): (r: string)
    ensures s.Some? ==> r == s.value
    ensures s.None? ==> r == "null"
  {
    match s
    case Some(t) => t
    case None => "null"
  }

  /** Kotlin's `StringBuilder`, reduced to the text it holds. */
  class StringBuilder {
    var text: string

    constructor ()
      ensures text == ""
    {
      text := "";
    }

    /** `isNotEmpty()`: the builder holds at least one character. */
    predicate IsNotEmpty()
      reads this
      ensures IsNotEmpty() <==> 0 < |text|
    {
      text != ""
    }

    method Append(s: string)
      modifies this
      ensures text == old(text) + s
    {
      text := text + s;
    }

    method AppendNullable(s: Option<string>)
      modifies this
      ensures text == old(text) + NullableText(s)
    {
      text := text + NullableText(s);
    }
  }
}
