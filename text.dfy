/**
 How JavaScript turns the integers this application handles into text: a
 number concatenated to a string prints in plain decimal (for magnitudes below
 10^21, the only ones node ids and model counts reach), and an array of numbers
 prints as its elements joined by commas.
 */
module Text {

  predicate IsDigit(c: char)
  {
    '0' <= c <= '9'
  }

  predicate AllDigits(s: string)
  {
    forall k :: 0 <= k < |s| ==> IsDigit(s[k])
  }

  function DigitChar(d: nat): (c: char)
    requires d < 10
    ensures IsDigit(c) && c as int - '0' as int == d
  {
    ('0' as int + d) as char
  }

  /** The number a string of decimal digits denotes. */
  function DecimalValue(s: string): nat
    requires AllDigits(s)
  {
    if s == [] then 0
    else 10 * DecimalValue(s[..|s| - 1]) + (s[|s| - 1] as int - '0' as int)
  }

  /** Plain decimal notation of n: digits only, no leading zero, and it reads back as n. */
  function NatToDecimal(n: nat): (s: string)
    ensures 1 <= |s| && AllDigits(s)
    ensures s[0] == '0' ==> s == "0"
    ensures DecimalValue(s) == n
  {
    if n < 10 then [DigitChar(n)]
    else
      var prefix := NatToDecimal(n / 10);
      var s := prefix + [DigitChar(n % 10)];
      assert s[..|s| - 1] == prefix;
      s
  }

  /** Decimal notation of an integer, with a leading minus sign when it is negative. */
  function IntToDecimal(i: int): (s: string)
    ensures 1 <= |s|
    ensures (s[0] == '-') == (i < 0)
    ensures i >= 0 ==> AllDigits(s) && DecimalValue(s) == i && (s[0] == '0' ==> s == "0")
    ensures i < 0 ==> 2 <= |s| && AllDigits(s[1..]) && DecimalValue(s[1..]) == -i && s[1] != '0'
  {
    if i < 0 then "-" + NatToDecimal(-i) else NatToDecimal(i)
  }

  /** The text of an array of numbers: the decimal forms joined by commas, empty for an empty array. */
  function JoinDecimal(ids: seq<int>): (s: string)
    ensures s == [] <==> ids == []
    ensures |ids| == 1 ==> s == IntToDecimal(ids[0])
  {
    if ids == [] then ""
    else if |ids| == 1 then IntToDecimal(ids[0])
    else IntToDecimal(ids[0]) + "," + JoinDecimal(ids[1..])
  }

  /** The decimal form of each number, position by position. */
  function DecimalFields(ids: seq<int>): seq<string>
  {
    seq(|ids|, k requires 0 <= k < |ids| => IntToDecimal(ids[k]))
  }

  /** The comma-separated fields of a string, as splitting it at every ',' gives them. */
  function SplitCommas(s: string): (r: seq<string>)
    ensures |r| >= 1
  {
    if s == [] then [""]
    else
      var rest := SplitCommas(s[1..]);
      if s[0] == ',' then [""] + rest else [[s[0]] + rest[0]] + rest[1..]
  }

  /** A string without a comma is a single field. */
  lemma {:induction false} SplitCommaFree(a: string)
    requires ',' !in a
    ensures SplitCommas(a) == [a]
  {
    if a != [] {
      SplitCommaFree(a[1..]);
      assert a == [a[0]] + a[1..];
    }
  }

  /** A comma-free field followed by a comma splits off as the first field. */
  lemma {:induction false} SplitAtFirstComma(a: string, b: string)
    requires ',' !in a
    ensures SplitCommas(a + "," + b) == [a] + SplitCommas(b)
  {
    if a == [] {
      assert a + "," + b == [','] + b;
      assert (a + "," + b)[1..] == b;
    } else {
      assert (a + "," + b)[1..] == a[1..] + "," + b;
      SplitAtFirstComma(a[1..], b);
      assert a == [a[0]] + a[1..];
    }
  }

  /** The decimal form of an integer holds no comma. */
  lemma DecimalHasNoComma(i: int)
    ensures ',' !in IntToDecimal(i)
  {
  }

  lemma DecimalFieldsCons(ids: seq<int>)
    requires ids != []
    ensures DecimalFields(ids) == [IntToDecimal(ids[0])] + DecimalFields(ids[1..])
  {
  }

  /** Splitting the text of a non-empty array at its commas gives back the decimal form of every element. */
  lemma {:induction false} SplitJoinDecimal(ids: seq<int>)
    requires ids != []
    ensures SplitCommas(JoinDecimal(ids)) == DecimalFields(ids)
    decreases |ids|
  {
    DecimalHasNoComma(ids[0]);
    if |ids| == 1 {
      SplitCommaFree(IntToDecimal(ids[0]));
    } else {
      var head, rest := IntToDecimal(ids[0]), JoinDecimal(ids[1..]);
      assert JoinDecimal(ids) == head + "," + rest;
      SplitJoinDecimal(ids[1..]);
      SplitAtFirstComma(head, rest);
      DecimalFieldsCons(ids);
    }
  }
}
