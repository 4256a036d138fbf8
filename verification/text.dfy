/** The string operations the formatters rely on: `str.join`, the first field of
    `str.split("-")`, and decimal rendering of row numbers. */
module Text {

  /** `sep.join(parts)`. */
  function Join(parts: seq<string>, sep: string): (r: string)
    ensures |parts| == 0 ==> r == ""
    ensures |parts| > 0 ==> parts[0] <= r
    ensures |r| == TotalLength(parts) + (if |parts| == 0 then 0 else |sep| * (|parts| - 1))
  {
    if |parts| == 0 then ""
    else if |parts| == 1 then parts[0]
    else parts[0] + sep + Join(parts[1..], sep)
  }

  function TotalLength(parts: seq<string>): nat {
    if |parts| == 0 then 0 else |parts[0]| + TotalLength(parts[1..])
  }

  /** Joining two non-empty lists is joining each and putting one separator between them,
      so names appear in the order given. */
  lemma {:induction false} JoinAppend(a: seq<string>, b: seq<string>, sep: string)
    requires |a| > 0 && |b| > 0
    ensures Join(a + b, sep) == Join(a, sep) + sep + Join(b, sep)
  {
    if |a| == 1 {
      assert (a + b)[1..] == b;
    } else {
      assert (a + b)[1..] == a[1..] + b;
      JoinAppend(a[1..], b, sep);
    }
  }

  /** `date.split("-")[0]`: the text before the first `-`, or all of it when there is none. */
  function YearOf(date: string): (y: string)
    ensures y <= date
    ensures '-' !in y
    ensures y == date || date[|y|] == '-'
  {
    if |date| == 0 || date[0] == '-' then ""
    else [date[0]] + YearOf(date[1..])
  }

  /** The contract of `YearOf` pins the result down: any dash-free prefix that is followed by a
      dash or ends the string is the year. */
  lemma {:induction false} YearOfUnique(date: string, p: string)
    requires p <= date && '-' !in p
    requires p == date || date[|p|] == '-'
    ensures p == YearOf(date)
  {
    if |date| > 0 && date[0] != '-' {
      assert |p| > 0;
      assert p[0] == date[0];
      YearOfUnique(date[1..], p[1..]);
      assert p == [p[0]] + p[1..];
    }
  }

  /** An ISO date yields its four-digit year. */
  lemma YearOfIsoDate()
    ensures YearOf("2020-05-01") == "2020"
  {
    YearOfUnique("2020-05-01", "2020");
  }

  function DigitChar(d: nat): char
    requires d < 10
  {
    "0123456789"[d]
  }

  function DigitValue(c: char): nat {
    if '0' <= c <= '9' then (c as int - '0' as int) as nat else 0
  }

  predicate IsDigit(c: char) {
    '0' <= c <= '9'
  }

  /** Python's `str(n)` for a non-negative integer. */
  function Digits(n: nat): (s: string)
    ensures |s| > 0
    ensures forall i :: 0 <= i < |s| ==> IsDigit(s[i])
    ensures ParseDigits(s) == n
    ensures n > 0 ==> s[0] != '0'
    ensures |s| == 1 || s[0] != '0'
  {
    if n < 10 then [DigitChar(n)]
    else
      var s := Digits(n / 10) + [DigitChar(n % 10)];
      assert s[..|s| - 1] == Digits(n / 10);
      s
  }

  /** The value of a string of decimal digits. */
  function ParseDigits(s: string): nat {
    if |s| == 0 then 0 else 10 * ParseDigits(s[..|s| - 1]) + DigitValue(s[|s| - 1])
  }

  /** The A1 range of a whole seven-column row: `A{row}:G{row}`. It starts at column A and
      ends at column G, and both ends carry the same canonical row number. */
  function RowRange(row: nat): (a1: string)
    ensures |a1| >= 5 && |a1| % 2 == 1 && a1[0] == 'A'
    ensures var k := (|a1| - 3) / 2;
            && a1[1..1 + k] == a1[3 + k..]
            && a1[1 + k..3 + k] == ":G"
            && (forall i :: 1 <= i < 1 + k ==> IsDigit(a1[i]))
            && (k == 1 || a1[1] != '0')
            && ParseDigits(a1[1..1 + k]) == row
  {
    var d := Digits(row);
    var a1 := "A" + d + ":G" + d;
    assert a1[1..1 + |d|] == d && a1[3 + |d|..] == d && a1[1 + |d|..3 + |d|] == ":G";
    a1
  }

  /** Different rows are addressed by different ranges. */
  lemma RowRangeInjective(a: nat, b: nat)
    requires RowRange(a) == RowRange(b)
    ensures a == b
  {
    var da, db := Digits(a), Digits(b);
    assert |RowRange(a)| == 3 + 2 * |da|;
    assert |da| == |db|;
    assert da == RowRange(a)[1..1 + |da|];
    assert db == RowRange(b)[1..1 + |db|];
  }
}
