/** Git patches: hunk headers, and the split of one file's hunks into two patches. */
module Patches {
  import opened PyText
  import opened Results
  import opened Chunks
  import opened Seqs

  // ---------------------------------------------------------------- decimal numbers

  predicate IsDigit(c: char) {
    '0' <= c <= '9'
  }

  function Digit(n: nat): (c: char)
    requires n < 10
    ensures IsDigit(c)
  {
    '0' + n as char
  }

  /** Python's `str` of an integer. */
  function Str(n: int): (s: string)
    ensures |s| > 0
  {
    if n < 0 then "-" + Decimal(-n) else Decimal(n)
  }

  function Decimal(n: nat): (s: string)
    ensures |s| > 0 && forall k | 0 <= k < |s| :: IsDigit(s[k])
  {
    if n < 10 then [Digit(n)] else Decimal(n / 10) + [Digit(n % 10)]
  }

  function Value(digits: string): nat
    requires forall k | 0 <= k < |digits| :: IsDigit(digits[k])
  {
    if digits == [] then 0
    else
      var last := digits[|digits| - 1];
      assert IsDigit(last);
      Value(digits[..|digits| - 1]) * 10 + (last as int - '0' as int)
  }

  lemma {:induction false} ValueOfDecimal(n: nat)
    ensures Value(Decimal(n)) == n
  {
    if n < 10 {
      assert Value([]) == 0 && [Digit(n)][..0] == [];
    } else {
      ValueOfDecimal(n / 10);
      assert Decimal(n)[..|Decimal(n)| - 1] == Decimal(n / 10);
    }
  }

  function DigitRun(text: string, index: nat): (n: nat)
    ensures index <= |text| ==> index + n <= |text|
    ensures forall k | index <= k < index + n :: k < |text| && IsDigit(text[k])
    ensures index + n < |text| ==> !IsDigit(text[index + n])
    decreases |text| - index
  {
    if index < |text| && IsDigit(text[index]) then 1 + DigitRun(text, index + 1) else 0
  }

  // ---------------------------------------------------------------- hunk headers

  predicate CharAt(text: string, index: nat, c: char) {
    index < |text| && text[index] == c
  }

  /** `\d+(?:,\d+)?`: start, count (1 when it is left out) and where the range ends. */
  function ParseRange(text: string, index: nat): (r: Option<(nat, nat, nat)>)
    requires index <= |text|
    ensures r.Some? ==> index < r.value.2 <= |text|
    ensures r.Some? ==> forall k | index <= k < r.value.2 :: IsDigit(text[k]) || text[k] == ','
  {
    var n := DigitRun(text, index);
    if n == 0 then None
    else
      var comma := index + n;
      var m := if CharAt(text, comma, ',') then DigitRun(text, comma + 1) else 0;
      if m == 0 then Some((Value(text[index..comma]), 1, comma))
      else Some((Value(text[index..comma]), Value(text[comma + 1..comma + 1 + m]), comma + 1 + m))
  }

  datatype Range = Range(oldStart: nat, oldCount: nat, newStart: nat, newCount: nat, end: nat)

  /** `_hunk_range`: the ranges of a hunk header and where the header ends. */
  function HunkRange(hunk: string): (r: Option<Range>)
    ensures r.Some? ==> 0 < r.value.end <= |hunk|
  {
    if !StartsWithAt(hunk, "@@ -", 0) then None
    else
      match ParseRange(hunk, 4)
      case None => None
      case Some((oldStart, oldCount, i)) =>
        if !StartsWithAt(hunk, " +", i) then None
        else
          match ParseRange(hunk, i + 2)
          case None => None
          case Some((newStart, newCount, j)) =>
            if !StartsWithAt(hunk, " @@", j) then None
            else Some(Range(oldStart, oldCount, newStart, newCount, j + 3))
  }

  predicate NoNewline(text: string, lo: nat, hi: nat) {
    hi <= |text| && forall k | lo <= k < hi :: text[k] != '\n'
  }

  lemma LiteralHasNoNewline(text: string, literal: string, index: nat)
    requires StartsWithAt(text, literal, index) && NoNewline(literal, 0, |literal|)
    ensures NoNewline(text, index, index + |literal|)
  {
    forall k | index <= k < index + |literal|
      ensures text[k] != '\n'
    {
      assert text[index + (k - index)] == literal[k - index];
    }
  }

  lemma HeaderHasNoNewline(hunk: string)
    requires HunkRange(hunk).Some?
    ensures NoNewline(hunk, 0, HunkRange(hunk).value.end)
  {
    hide ParseRange, StartsWithAt;
    LiteralHasNoNewline(hunk, "@@ -", 0);
    var i := ParseRange(hunk, 4).value.2;
    LiteralHasNoNewline(hunk, " +", i);
    var j := ParseRange(hunk, i + 2).value.2;
    LiteralHasNoNewline(hunk, " @@", j);
  }

  /** `_range`. */
  function PrintRange(start: int, count: nat): string {
    if count == 1 then Str(start) else Str(start) + "," + Str(count)
  }

  function PrintHeader(oldStart: nat, oldCount: nat, newStart: int, newCount: nat): string {
    "@@ -" + PrintRange(oldStart, oldCount) + " +" + PrintRange(newStart, newCount) + " @@"
  }

  // ---------------------------------------------------------------- printing and parsing agree

  lemma ReadsDecimal(text: string, index: nat, n: nat)
    requires StartsWithAt(text, Decimal(n), index) && index + |Decimal(n)| < |text|
    requires !IsDigit(text[index + |Decimal(n)|])
    ensures DigitRun(text, index) == |Decimal(n)|
    ensures Value(text[index..index + |Decimal(n)|]) == n
  {
    var d := Decimal(n);
    forall k | index <= k < index + |d|
      ensures IsDigit(text[k])
    {
      assert text[index + (k - index)] == d[k - index];
    }
    assert text[index..index + |d|] == d;
    ValueOfDecimal(n);
  }

  lemma StartsWithChar(text: string, literal: string, index: nat)
    requires literal != [] && StartsWithAt(text, literal, index)
    ensures index < |text| && text[index] == literal[0]
  {
    assert text[index + 0] == literal[0];
  }

  lemma StartsWithPrefix(a: string, rest: string)
    ensures StartsWithAt(a + rest, a, 0)
  {}

  lemma ReadsStartAndCount(text: string, index: nat, start: nat, count: nat)
    requires StartsWithAt(text, Decimal(start) + "," + Decimal(count), index)
    requires var end := index + |Decimal(start)| + 1 + |Decimal(count)|; end < |text| && text[end] == ' '
    ensures ParseRange(text, index) == Some((start, count, index + |Decimal(start)| + 1 + |Decimal(count)|))
  {
    hide Decimal, Value, DigitRun, StartsWithAt;
    var s, c := Decimal(start), Decimal(count);
    StartsWithSplit(text, s + ",", c, index);
    StartsWithSplit(text, s, ",", index);
    StartsWithChar(text, ",", index + |s|);
    ReadsDecimal(text, index, start);
    ReadsDecimal(text, index + |s| + 1, count);
  }

  lemma ReadsRange(text: string, index: nat, start: nat, count: nat)
    requires StartsWithAt(text, PrintRange(start, count), index)
    requires index + |PrintRange(start, count)| < |text|
    requires text[index + |PrintRange(start, count)|] == ' '
    ensures ParseRange(text, index) == Some((start, count, index + |PrintRange(start, count)|))
  {
    hide Decimal, Value, DigitRun, StartsWithAt;
    if count == 1 {
      ReadsDecimal(text, index, start);
    } else {
      hide ParseRange;
      ReadsStartAndCount(text, index, start, count);
    }
  }

  lemma StartsWithFive(text: string, p: string, a: string, m: string, b: string, e: string)
    requires StartsWithAt(text, p + a + m + b + e, 0)
    ensures StartsWithAt(text, p, 0) && StartsWithAt(text, a, |p|) && StartsWithAt(text, m, |p| + |a|)
    ensures StartsWithAt(text, b, |p| + |a| + |m|) && StartsWithAt(text, e, |p| + |a| + |m| + |b|)
  {
    hide StartsWithAt;
    StartsWithSplit(text, p + a + m + b, e, 0);
    StartsWithSplit(text, p + a + m, b, 0);
    StartsWithSplit(text, p + a, m, 0);
    StartsWithSplit(text, p, a, 0);
  }

  lemma ReadsHeader(text: string, oldStart: nat, oldCount: nat, newStart: nat, newCount: nat)
    requires var i := 4 + |PrintRange(oldStart, oldCount)|;
             var j := i + 2 + |PrintRange(newStart, newCount)|;
             && StartsWithAt(text, "@@ -", 0) && StartsWithAt(text, PrintRange(oldStart, oldCount), 4)
             && StartsWithAt(text, " +", i) && StartsWithAt(text, PrintRange(newStart, newCount), i + 2)
             && StartsWithAt(text, " @@", j)
    ensures HunkRange(text) == Some(Range(oldStart, oldCount, newStart, newCount,
                                          4 + |PrintRange(oldStart, oldCount)| + 2 + |PrintRange(newStart, newCount)| + 3))
  {
    hide PrintRange, StartsWithAt, ParseRange;
    var i := 4 + |PrintRange(oldStart, oldCount)|;
    var j := i + 2 + |PrintRange(newStart, newCount)|;
    StartsWithChar(text, " +", i);
    StartsWithChar(text, " @@", j);
    ReadsRange(text, 4, oldStart, oldCount);
    ReadsRange(text, i + 2, newStart, newCount);
  }

  /** Reading a printed header gives back its numbers, whatever follows it. */
  lemma HeaderRoundTrip(oldStart: nat, oldCount: nat, newStart: nat, newCount: nat, rest: string)
    ensures var header := PrintHeader(oldStart, oldCount, newStart, newCount);
            HunkRange(header + rest) == Some(Range(oldStart, oldCount, newStart, newCount, |header|))
  {
    hide PrintRange, StartsWithAt, HunkRange;
    var a, b := PrintRange(oldStart, oldCount), PrintRange(newStart, newCount);
    var header := PrintHeader(oldStart, oldCount, newStart, newCount);
    StartsWithPrefix(header, rest);
    StartsWithFive(header + rest, "@@ -", a, " +", b, " @@");
    ReadsHeader(header + rest, oldStart, oldCount, newStart, newCount);
  }
}
