/** The lines of a Rust file that belong to its `#[cfg(test)]` items. */
module RustTests {
  import opened PyText
  import opened Results
  import opened RustCode

  // ---------------------------------------------------------------- attributes

  /** Where the white space from `index` on ends. */
  function SkipSpace(code: string, index: nat): (next: nat)
    requires index <= |code|
    ensures index <= next <= |code| && forall k | index <= k < next :: IsSpace(code[k])
    decreases |code| - index
  {
    if index < |code| && IsSpace(code[index]) then SkipSpace(code, index + 1) else index
  }

  /** Where the words end when they stand at `index`, one after the other with only white space between. */
  function WordsEnd(code: string, words: seq<string>, index: nat): (r: Option<nat>)
    requires index <= |code|
    ensures r.Some? ==> index <= r.value <= |code|
    decreases |words|
  {
    if words == [] then Some(index)
    else
      var start := SkipSpace(code, index);
      if StartsWithAt(code, words[0], start) then WordsEnd(code, words[1..], start + |words[0]|) else None
  }

  const ATTRIBUTE := ["[", "cfg", "(", "test", ")", "]"]

  /** The end of the `#[cfg(test)]` that starts at `index`. */
  function Attribute(code: string, index: nat): (r: Option<nat>)
    ensures r.Some? ==> index < r.value <= |code|
  {
    if CharAt(code, index, '#') then WordsEnd(code, ATTRIBUTE, index + 1) else None
  }

  predicate NoHash(word: string) {
    forall k | 0 <= k < |word| :: word[k] != '#'
  }

  lemma {:induction false} WordsHoldNoHash(code: string, words: seq<string>, index: nat)
    requires index <= |code| && WordsEnd(code, words, index).Some? && forall w | w in words :: NoHash(w)
    ensures forall k | index <= k < WordsEnd(code, words, index).value :: code[k] != '#'
    decreases |words|
  {
    if words != [] {
      var start := SkipSpace(code, index);
      WordsHoldNoHash(code, words[1..], start + |words[0]|);
      assert NoHash(words[0]);
      forall k | start <= k < start + |words[0]|
        ensures code[k] != '#'
      {
        assert code[start + (k - start)] == words[0][k - start];
      }
    }
  }

  lemma AttributeHasNoHash()
    ensures forall w | w in ATTRIBUTE :: NoHash(w)
  {}

  /** No attribute starts inside another one. */
  lemma AttributesAreApart(code: string, index: nat, k: nat)
    requires Attribute(code, index).Some? && index < k < Attribute(code, index).value
    ensures Attribute(code, k).None?
  {
    AttributeHasNoHash();
    hide ATTRIBUTE, WordsEnd;
    WordsHoldNoHash(code, ATTRIBUTE, index + 1);
  }

  predicate White(gap: string) {
    forall k | 0 <= k < |gap| :: IsSpace(gap[k])
  }

  /** The words stand one after the other from `index` to `end`, each after a gap of white space. */
  predicate Spaced(code: string, words: seq<string>, gaps: seq<string>, index: nat, end: nat)
    decreases |words|
  {
    && |gaps| == |words|
    && if words == [] then index == end
       else
         && White(gaps[0]) && StartsWithAt(code, gaps[0] + words[0], index)
         && Spaced(code, words[1..], gaps[1..], index + |gaps[0]| + |words[0]|, end)
  }

  predicate Solid(word: string) {
    word != "" && !IsSpace(word[0])
  }

  lemma {:induction false} SkipSpaceStops(code: string, index: nat, next: nat)
    requires index <= next < |code| && !IsSpace(code[next]) && forall k | index <= k < next :: IsSpace(code[k])
    ensures SkipSpace(code, index) == next
    decreases next - index
  {
    if index < next { SkipSpaceStops(code, index + 1, next); }
  }

  lemma {:induction false} WordsAreSpaced(code: string, words: seq<string>, index: nat) returns (gaps: seq<string>)
    requires index <= |code| && WordsEnd(code, words, index).Some?
    ensures Spaced(code, words, gaps, index, WordsEnd(code, words, index).value)
    decreases |words|
  {
    hide IsSpace;
    gaps := [];
    if words != [] {
      var start := SkipSpace(code, index);
      var rest := WordsAreSpaced(code, words[1..], start + |words[0]|);
      var gap := code[index..start];
      StartsWithConcat(code, gap, words[0], index);
      gaps := [gap] + rest;
      assert gaps[1..] == rest;
    }
  }

  lemma {:induction false} SpacedIsRead(code: string, words: seq<string>, gaps: seq<string>, index: nat, end: nat)
    requires index <= |code| && Spaced(code, words, gaps, index, end) && forall w | w in words :: Solid(w)
    ensures WordsEnd(code, words, index) == Some(end)
    decreases |words|
  {
    hide IsSpace;
    if words != [] {
      var gap, start := gaps[0], index + |gaps[0]|;
      StartsWithConcat(code, gap, words[0], index);
      assert Solid(words[0]) && code[start + 0] == words[0][0];
      forall k | index <= k < start
        ensures IsSpace(code[k])
      {
        assert code[index + (k - index)] == gap[k - index];
      }
      SkipSpaceStops(code, index, start);
      SpacedIsRead(code, words[1..], gaps[1..], start + |words[0]|, end);
    }
  }

  /** `[cfg(test)]` from `from` to `end`, with any white space between its parts. */
  ghost predicate TestConfig(code: string, from: nat, end: nat) {
    exists gaps :: Spaced(code, ["[", "cfg", "(", "test", ")", "]"], gaps, from, end)
  }

  lemma WordsAreConfig(code: string, from: nat, end: nat)
    requires from <= |code|
    ensures WordsEnd(code, ATTRIBUTE, from) == Some(end) <==> TestConfig(code, from, end)
  {
    var words := ["[", "cfg", "(", "test", ")", "]"];
    assert forall w | w in words :: Solid(w);
    hide WordsEnd, Spaced;
    if WordsEnd(code, words, from) == Some(end) {
      var gaps := WordsAreSpaced(code, words, from);
    }
    forall gaps | Spaced(code, words, gaps, from, end)
      ensures WordsEnd(code, words, from) == Some(end)
    {
      SpacedIsRead(code, words, gaps, from, end);
    }
  }

  /** An attribute is `#[cfg(test)]`, with any white space between its parts. */
  lemma AttributeExactly(code: string, index: nat, end: nat)
    ensures Attribute(code, index) == Some(end) <==> CharAt(code, index, '#') && TestConfig(code, index + 1, end)
  {
    hide WordsEnd, TestConfig;
    if CharAt(code, index, '#') { WordsAreConfig(code, index + 1, end); }
  }

  // ---------------------------------------------------------------- line numbers

  /** The number, from 1, of the line that `index` is on. */
  function LineOf(text: string, index: nat): (n: nat)
    requires index <= |text|
    ensures n >= 1
  {
    if index == 0 then 1 else LineOf(text, index - 1) + if text[index - 1] == '\n' then 1 else 0
  }

  lemma {:induction false} LineOfGrows(text: string, i: nat, j: nat)
    requires i <= j <= |text|
    ensures LineOf(text, i) <= LineOf(text, j)
    ensures (exists k | i <= k < j :: text[k] == '\n') <==> LineOf(text, i) < LineOf(text, j)
    decreases j
  {
    if i < j { LineOfGrows(text, i, j - 1); }
  }

  /** The lines of the blanked text are those of the text. */
  lemma {:induction false} SameLines(alnum: char -> bool, text: string, index: nat)
    requires index <= |text|
    ensures LineOf(CodeOnly(alnum, text), index) == LineOf(text, index)
  {
    hide CodeOnly;
    if index > 0 {
      SameLines(alnum, text, index - 1);
      OnlyBlanks(alnum, text, index - 1);
    }
  }

  // ---------------------------------------------------------------- test items

  /** A test item: its attribute starts at `first`, and it ends at `last`. */
  ghost predicate TestItem(code: string, first: nat, last: nat): (r: bool)
    ensures r ==> first <= last <= |code|
  {
    first <= |code| && Attribute(code, first).Some? && ItemEnds(code, Attribute(code, first).value, last)
  }

  /** Line `n` is one of a test item that starts before `index`. */
  ghost predicate InTestItem(code: string, n: nat, index: nat) {
    exists first: nat, last: nat ::
      first < index && TestItem(code, first, last) && LineOf(code, first) <= n <= LineOf(code, last)
  }

  /** `_rust_test_lines`: the numbers of all lines of all test items, attributes included. */
  ghost function TestLines(code: string): (r: set<nat>)
    ensures forall n :: n in r <==> InTestItem(code, n, |code|)
  {
    LinesAreBounded(code);
    set n: nat | n <= LineOf(code, |code|) && InTestItem(code, n, |code|)
  }

  lemma LinesAreBounded(code: string)
    ensures forall n: nat | InTestItem(code, n, |code|) :: n <= LineOf(code, |code|)
  {
    forall n: nat | InTestItem(code, n, |code|)
      ensures n <= LineOf(code, |code|)
    {
      var first: nat, last: nat :| first < |code| && TestItem(code, first, last) && LineOf(code, first) <= n <= LineOf(code, last);
      LineOfGrows(code, last, |code|);
    }
  }

  /** `re.finditer` over the attributes: the next one at or after `index`. */
  method NextAttribute(code: string, index: nat) returns (first: nat)
    requires index <= |code|
    ensures index <= first <= |code| && (first < |code| ==> Attribute(code, first).Some?)
    ensures forall k | index <= k < first :: Attribute(code, k).None?
  {
    hide Attribute;
    first := index;
    while first < |code| && Attribute(code, first).None?
      invariant index <= first <= |code|
      invariant forall k | index <= k < first :: Attribute(code, k).None?
    {
      first := first + 1;
    }
  }

  method CountLine(text: string, index: nat) returns (n: nat)
    requires index <= |text|
    ensures n == LineOf(text, index)
  {
    n := 1;
    for k := 0 to index
      invariant n == LineOf(text, k)
    {
      if text[k] == '\n' { n := n + 1; }
    }
  }

  /** The Python loop over the attributes of the blanked text. */
  method RustTestLines(alnum: char -> bool, text: string) returns (lines: set<nat>)
    ensures lines == TestLines(CodeOnly(alnum, text))
  {
    hide CodeOnly, Attribute, ItemEnds;
    var code := BlankNonCode(alnum, text);
    lines := {};
    var index := NextAttribute(code, 0);
    NoItemsBefore(code, 0, index);
    while index < |code|
      invariant index <= |code| && (index < |code| ==> Attribute(code, index).Some?)
      invariant forall n: nat :: n in lines <==> InTestItem(code, n, index)
      decreases |code| - index
    {
      var end := Attribute(code, index).value;
      var last := ItemEnd(code, end);
      LineOfGrows(code, index, last);
      var from := CountLine(code, index);
      var upto := CountLine(code, last);
      ghost var before := lines;
      for n := from to upto + 1
        invariant forall m :: m in lines <==> m in before || from <= m < n
      {
        lines := lines + {n};
      }
      OneItemMore(code, index, last);
      var next := NextAttribute(code, end);
      forall k | index < k < next
        ensures Attribute(code, k).None?
      {
        if k < end { AttributesAreApart(code, index, k); }
      }
      NoItemsBefore(code, index + 1, next);
      forall n: nat
        ensures n in lines <==> InTestItem(code, n, next)
      {
        assert n in lines <==> InTestItem(code, n, index) || from <= n <= upto;
      }
      index := next;
    }
  }

  lemma NoItemsBefore(code: string, index: nat, next: nat)
    requires index <= next && forall k | index <= k < next :: Attribute(code, k).None?
    ensures forall n: nat :: InTestItem(code, n, next) <==> InTestItem(code, n, index)
  {
    hide Attribute, ItemEnds, LineOf;
  }

  lemma OneItemMore(code: string, index: nat, last: nat)
    requires TestItem(code, index, last)
    ensures forall n: nat :: InTestItem(code, n, index + 1) <==>
                             InTestItem(code, n, index) || LineOf(code, index) <= n <= LineOf(code, last)
  {
    hide TestItem, LineOf, Attribute, ItemEnds;
    forall n: nat | InTestItem(code, n, index + 1)
      ensures InTestItem(code, n, index) || LineOf(code, index) <= n <= LineOf(code, last)
    {
      var first: nat, end: nat :| first < index + 1 && TestItem(code, first, end) && LineOf(code, first) <= n <= LineOf(code, end);
      if first == index { SameItem(code, index, end, last); }
    }
  }

  lemma SameItem(code: string, first: nat, a: nat, b: nat)
    requires TestItem(code, first, a) && TestItem(code, first, b)
    ensures a == b
  {
    ItemEndsOnce(code, Attribute(code, first).value, a, b);
  }
}
