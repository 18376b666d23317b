/** The parts of Python's `str` that the modelled code relies on. */
module PyText {
  import opened Results

  /** The characters for which Python's `str.isspace` holds. */
  predicate IsSpace(c: char) {
    || '\U{9}' <= c <= '\U{D}'
    || '\U{1C}' <= c <= '\U{20}'
    || c == '\U{85}' || c == '\U{A0}' || c == '\U{1680}'
    || '\U{2000}' <= c <= '\U{200A}'
    || c == '\U{2028}' || c == '\U{2029}' || c == '\U{202F}' || c == '\U{205F}' || c == '\U{3000}'
  }

  function RStrip(s: string): string {
    if s == [] || !IsSpace(s[|s| - 1]) then s else RStrip(s[..|s| - 1])
  }

  function LStrip(s: string): string {
    if s == [] || !IsSpace(s[0]) then s else LStrip(s[1..])
  }

  function Strip(s: string): string {
    LStrip(RStrip(s))
  }

  predicate StartsWith(s: string, prefix: string) {
    prefix <= s
  }

  /** `text.startswith(prefix, index)`. */
  predicate StartsWithAt(s: string, prefix: string, index: nat) {
    index + |prefix| <= |s| && forall k | 0 <= k < |prefix| :: s[index + k] == prefix[k]
  }

  /** `text.find(pattern, from)`. */
  function Find(text: string, pattern: string, from: nat): (r: Option<nat>)
    ensures r.Some? ==> from <= r.value && r.value + |pattern| <= |text| && StartsWithAt(text, pattern, r.value)
    ensures forall k: nat | from <= k && (r.Some? ==> k < r.value) :: !StartsWithAt(text, pattern, k)
    decreases |text| - from
  {
    if from + |pattern| > |text| then None
    else if StartsWithAt(text, pattern, from) then Some(from)
    else if from == |text| then None
    else Find(text, pattern, from + 1)
  }

  /** Python's slice `s[lo:hi]`, which is empty instead of failing when the bounds are off. */
  function Slice<T>(s: seq<T>, lo: nat, hi: nat): seq<T> {
    if lo <= hi <= |s| then s[lo..hi] else if lo <= |s| < hi then s[lo..] else []
  }

  /** The next newline, or the end of the text. */
  function LineEnd(text: string, index: nat): (end: nat)
    requires index <= |text|
    ensures index <= end <= |text|
    ensures forall k | index <= k < end :: text[k] != '\n'
    ensures end < |text| ==> text[end] == '\n'
    decreases |text| - index
  {
    if index == |text| || text[index] == '\n' then index else LineEnd(text, index + 1)
  }

  /** A text starts with a concatenation when it starts with its parts, one after the other. */
  lemma StartsWithConcat(text: string, a: string, b: string, index: nat)
    ensures StartsWithAt(text, a + b, index) <==> StartsWithAt(text, a, index) && StartsWithAt(text, b, index + |a|)
  {
    if StartsWithAt(text, a + b, index) { StartsWithSplit(text, a, b, index); }
    if StartsWithAt(text, a, index) && StartsWithAt(text, b, index + |a|) { StartsWithBoth(text, a, b, index); }
  }

  lemma StartsWithSplit(text: string, a: string, b: string, index: nat)
    requires StartsWithAt(text, a + b, index)
    ensures StartsWithAt(text, a, index) && StartsWithAt(text, b, index + |a|)
  {
    forall k | 0 <= k < |a|
      ensures text[index + k] == a[k]
    {
      assert (a + b)[k] == a[k];
    }
    forall k | 0 <= k < |b|
      ensures text[index + |a| + k] == b[k]
    {
      assert text[index + (|a| + k)] == (a + b)[|a| + k];
    }
  }

  lemma StartsWithBoth(text: string, a: string, b: string, index: nat)
    requires StartsWithAt(text, a, index) && StartsWithAt(text, b, index + |a|)
    ensures StartsWithAt(text, a + b, index)
  {
    forall k | 0 <= k < |a + b|
      ensures text[index + k] == (a + b)[k]
    {
      if k >= |a| { assert text[index + |a| + (k - |a|)] == b[k - |a|]; }
    }
  }
}
