/** Blanking of comments, strings and character literals in Rust source text. */
module RustCode {
  import opened PyText
  import opened Results

  predicate CharAt(text: string, index: nat, c: char) {
    index < |text| && text[index] == c
  }

  /** The text starts with the two characters `a`, `b` at `index`. */
  predicate PairAt(text: string, index: nat, a: char, b: char) {
    CharAt(text, index, a) && CharAt(text, index + 1, b)
  }

  /** The character before `index` continues an identifier; `alnum` is Python's `str.isalnum`. */
  predicate FollowsIdentifier(alnum: char -> bool, text: string, index: nat)
    requires index <= |text|
  {
    index > 0 && (alnum(text[index - 1]) || text[index - 1] == '_')
  }

  function HashRun(text: string, index: nat): (n: nat)
    ensures index <= |text| ==> index + n <= |text|
    decreases |text| - index
  {
    if CharAt(text, index, '#') then 1 + HashRun(text, index + 1) else 0
  }

  /** Number of hashes and content start of a raw string that opens at `index`. */
  function RawString(text: string, index: nat): (r: Option<(nat, nat)>)
    ensures r.Some? ==> index + 2 <= r.value.1 <= |text| && text[r.value.1 - 1] == '"'
  {
    var r := if CharAt(text, index, 'b') || CharAt(text, index, 'c') then index + 1 else index;
    if !CharAt(text, r, 'r') then None
    else
      var hashes := HashRun(text, r + 1);
      if CharAt(text, r + 1 + hashes, '"') then Some((hashes, r + 1 + hashes + 1)) else None
  }

  function Repeat(c: char, n: nat): string {
    if n == 0 then [] else [c] + Repeat(c, n - 1)
  }

  predicate IsHex(c: char) {
    '0' <= c <= '9' || 'a' <= c <= 'f' || 'A' <= c <= 'F'
  }

  function HexRun(text: string, index: nat): (n: nat)
    ensures index <= |text| ==> index + n <= |text|
    ensures forall k | index <= k < index + n :: k < |text| && (IsHex(text[k]) || text[k] == '_')
    decreases |text| - index
  {
    if index < |text| && (IsHex(text[index]) || text[index] == '_') then 1 + HexRun(text, index + 1) else 0
  }

  /** The end of a character literal that opens with the quote at `index`. */
  function CharLiteral(text: string, index: nat): (r: Option<nat>)
    requires index < |text|
    ensures r.Some? ==> index + 3 <= r.value <= |text|
  {
    if index + 1 >= |text| then None
    else if text[index + 1] != '\\' then
      if text[index + 1] != '\'' && text[index + 1] != '\n' && CharAt(text, index + 2, '\'') then Some(index + 3) else None
    else if index + 2 >= |text| then None
    else if text[index + 2] != '\n' && CharAt(text, index + 3, '\'') then Some(index + 4)
    else if text[index + 2] == 'x' && index + 5 < |text| && IsHex(text[index + 3]) && IsHex(text[index + 4]) && text[index + 5] == '\''
    then Some(index + 6)
    else
      var n := HexRun(text, index + 4);
      if text[index + 2] == 'u' && CharAt(text, index + 3, '{') && 1 <= n <= 8
         && CharAt(text, index + 4 + n, '}') && CharAt(text, index + 5 + n, '\'')
      then Some(index + 6 + n) else None
  }

  /** The end of a block comment, read from `index` at nesting depth `depth`. */
  function BlockEnd(text: string, index: nat, depth: nat): (end: nat)
    requires index <= |text| && (depth == 0 ==> PairAt(text, index, '/', '*'))
    ensures index <= end <= |text|
    ensures depth == 0 ==> index + 2 <= end
    decreases |text| - index
  {
    if index == |text| then index
    else if PairAt(text, index, '/', '*') then BlockEnd(text, index + 2, depth + 1)
    else if PairAt(text, index, '*', '/') then
      if depth == 1 then index + 2 else BlockEnd(text, index + 2, depth - 1)
    else BlockEnd(text, index + 1, depth)
  }

  /** The offset of the closing quote of a string, or an offset at or past the end of the text. */
  function StringEnd(text: string, index: nat): (end: nat)
    ensures index <= end
    decreases |text| - index
  {
    if index >= |text| || text[index] == '"' then index
    else StringEnd(text, index + (if text[index] == '\\' then 2 else 1))
  }

  /** Where the comment, string or literal that opens at `index` ends; nothing for a code character. */
  function TokenEnd(alnum: char -> bool, text: string, index: nat): (r: Option<nat>)
    requires index < |text|
    ensures r.Some? ==> index + 2 <= r.value
  {
    var raw := if FollowsIdentifier(alnum, text, index) then None else RawString(text, index);
    if PairAt(text, index, '/', '/') then
      Some(LineEnd(text, index))
    else if PairAt(text, index, '/', '*') then Some(BlockEnd(text, index, 0))
    else if raw.Some? then
      var closing := "\"" + Repeat('#', raw.value.0);
      var found := Find(text, closing, raw.value.1);
      Some(if found.Some? then found.value + |closing| else |text|)
    else if text[index] == '"' then Some(StringEnd(text, index + 1) + 1)
    else if text[index] == '\'' then CharLiteral(text, index)
    else None
  }

  function Blank(c: char): char {
    if c == '\n' then '\n' else ' '
  }

  function Blanked(text: string, lo: nat, hi: nat): (r: string)
    requires lo <= hi <= |text|
    ensures |r| == hi - lo
  {
    seq(hi - lo, k requires 0 <= k < hi - lo => Blank(text[lo + k]))
  }

  /** The code from `index` on, with everything else blanked. */
  function CodeFrom(alnum: char -> bool, text: string, index: nat): (r: string)
    ensures index <= |text| ==> |r| == |text| - index
    decreases |text| - index
  {
    if index >= |text| then []
    else
      match TokenEnd(alnum, text, index)
      case None => [text[index]] + CodeFrom(alnum, text, index + 1)
      case Some(end) =>
        if end >= |text| then Blanked(text, index, |text|) else Blanked(text, index, end) + CodeFrom(alnum, text, end)
  }

  /** `_rust_code_only`. */
  function CodeOnly(alnum: char -> bool, text: string): (r: string)
    ensures |r| == |text|
  {
    CodeFrom(alnum, text, 0)
  }

  // ---------------------------------------------------------------- what the blanking promises

  /** The scan that starts at `from` reaches `k` and keeps it as code. */
  predicate Kept(alnum: char -> bool, text: string, from: nat, k: nat)
    decreases |text| - from
  {
    from <= k < |text| &&
    match TokenEnd(alnum, text, from)
    case None => from == k || Kept(alnum, text, from + 1, k)
    case Some(end) => end <= k && Kept(alnum, text, end, k)
  }

  /** One step of the scan, character by character. */
  lemma CodeAt(alnum: char -> bool, text: string, from: nat, k: nat)
    requires from <= k < |text|
    ensures var c := CodeFrom(alnum, text, from)[k - from];
            match TokenEnd(alnum, text, from)
            case None => c == if k == from then text[k] else CodeFrom(alnum, text, from + 1)[k - (from + 1)]
            case Some(end) => c == if k < end then Blank(text[k]) else CodeFrom(alnum, text, end)[k - end]
  {
    hide TokenEnd, Blank, Blanked;
    match TokenEnd(alnum, text, from)
    case None =>
      assert CodeFrom(alnum, text, from) == [text[from]] + CodeFrom(alnum, text, from + 1);
      hide CodeFrom;
    case Some(end) =>
      if end < |text| {
        assert CodeFrom(alnum, text, from) == Blanked(text, from, end) + CodeFrom(alnum, text, end);
        hide CodeFrom;
        if k < end { BlankedAt(text, from, end, k); }
      } else {
        assert CodeFrom(alnum, text, from) == Blanked(text, from, |text|);
        hide CodeFrom;
        BlankedAt(text, from, |text|, k);
      }
  }

  lemma BlankedAt(text: string, lo: nat, hi: nat, k: nat)
    requires lo <= k < hi <= |text|
    ensures Blanked(text, lo, hi)[k - lo] == Blank(text[k])
  {}

  lemma {:induction false} KeptOrBlank(alnum: char -> bool, text: string, from: nat, k: nat)
    requires from <= k < |text|
    ensures var c := CodeFrom(alnum, text, from)[k - from];
            if Kept(alnum, text, from, k) then c == text[k] && TokenEnd(alnum, text, k) == None
            else c == Blank(text[k])
    decreases |text| - from
  {
    hide TokenEnd, Blank, CodeFrom;
    CodeAt(alnum, text, from, k);
    match TokenEnd(alnum, text, from)
    case None =>
      if from < k { KeptOrBlank(alnum, text, from + 1, k); }
    case Some(end) =>
      if end <= k { KeptOrBlank(alnum, text, end, k); }
  }

  /** Every blanked region is at least two characters long, or reaches the end of the text. */
  lemma {:induction false} BlankedRegionsAreLong(alnum: char -> bool, text: string, from: nat, k: nat)
    requires Kept(alnum, text, from, k) && Kept(alnum, text, from, k + 2)
    ensures Kept(alnum, text, from, k + 1)
    decreases |text| - from
  {
    hide TokenEnd;
    match TokenEnd(alnum, text, from)
    case None =>
      if from < k { BlankedRegionsAreLong(alnum, text, from + 1, k); }
    case Some(end) =>
      BlankedRegionsAreLong(alnum, text, end, k);
  }

  /** The length and every newline stay, and a character is only ever turned into a space:
      exactly when the scan does not keep it as code. */
  lemma OnlyBlanks(alnum: char -> bool, text: string, k: nat)
    requires k < |text|
    ensures var c := CodeOnly(alnum, text)[k];
            && (text[k] == '\n' ==> c == '\n')
            && (c == text[k] || c == ' ')
            && (c != ' ' && c != '\n' ==> Kept(alnum, text, 0, k))
            && (Kept(alnum, text, 0, k) ==> c == text[k] && TokenEnd(alnum, text, k) == None)
  {
    hide TokenEnd, Kept, CodeFrom;
    KeptOrBlank(alnum, text, 0, k);
  }

  lemma {:induction false} HexRunSame(a: string, b: string, index: nat)
    requires |a| == |b| && index <= |a|
    requires forall k | index <= k <= index + HexRun(a, index) && k < |a| :: a[k] == b[k]
    ensures HexRun(a, index) == HexRun(b, index)
    decreases |a| - index
  {
    if index < |a| && (IsHex(a[index]) || a[index] == '_') { HexRunSame(a, b, index + 1); }
  }

  /** A character literal of the result would already be one in the text. */
  lemma NoCharLiteralLeft(alnum: char -> bool, text: string, index: nat)
    requires index < |text| && CodeOnly(alnum, text)[index] == '\''
    ensures CharLiteral(CodeOnly(alnum, text), index) == None
  {
    var code := CodeOnly(alnum, text);
    forall k | 0 <= k < |text|
      ensures StaysOrBlank(text[k], code[k], Kept(alnum, text, 0, k))
    {
      OnlyBlanks(alnum, text, k);
    }
    OnlyBlanks(alnum, text, index);
    hide CodeOnly, TokenEnd, Kept;
    if CharLiteral(code, index).Some? {
      if Kept(alnum, text, 0, index) && Kept(alnum, text, 0, index + 2) {
        BlankedRegionsAreLong(alnum, text, 0, index);
      }
      if Kept(alnum, text, 0, index + 1) && Kept(alnum, text, 0, index + 3) {
        BlankedRegionsAreLong(alnum, text, 0, index + 1);
      }
      LiteralWasThere(text, code, index, set k | 0 <= k < |text| && Kept(alnum, text, 0, k));
    }
  }

  /** A character of the result: the one of the text where it is kept, else blank. */
  predicate StaysOrBlank(before: char, after: char, kept: bool) {
    if kept then after == before else after == ' ' || after == '\n'
  }

  lemma LiteralWasThere(text: string, code: string, index: nat, kept: set<nat>)
    requires |code| == |text| && index < |text| && index in kept && CharLiteral(code, index).Some?
    requires forall k | 0 <= k < |text| :: StaysOrBlank(text[k], code[k], k in kept)
    requires index + 2 in kept ==> index + 1 in kept
    requires index + 1 in kept && index + 3 in kept ==> index + 2 in kept
    ensures CharLiteral(text, index) == CharLiteral(code, index)
  {
    if code[index + 1] == '\\' && code[index + 2] == 'u' && CharAt(code, index + 3, '{') {
      hide CharLiteral;
      HexRunSame(code, text, index + 4);
    }
  }

  /** Nothing that would open a comment, a string or a literal is left. */
  lemma NoTokenLeft(alnum: char -> bool, alnum': char -> bool, text: string, index: nat)
    requires index < |text|
    ensures CodeOnly(alnum, text)[index] != '"'
    ensures TokenEnd(alnum', CodeOnly(alnum, text), index) == None
  {
    var code := CodeOnly(alnum, text);
    forall k | 0 <= k < |text|
      ensures code[k] != '"'
      ensures code[k] == '/' ==> text[k] == '/' && TokenEnd(alnum, text, k) == None
      ensures code[k] == '*' ==> text[k] == '*'
    {
      OnlyBlanks(alnum, text, k);
    }
    if code[index] == '\'' { NoCharLiteralLeft(alnum, text, index); }
    hide CodeOnly, Kept, CharLiteral;
  }

  lemma {:induction false} NoTokensNoChange(alnum: char -> bool, text: string, index: nat)
    requires index <= |text| && forall k | index <= k < |text| :: TokenEnd(alnum, text, k) == None
    ensures CodeFrom(alnum, text, index) == text[index..]
    decreases |text| - index
  {
    hide TokenEnd;
    if index < |text| { NoTokensNoChange(alnum, text, index + 1); }
  }

  /** Blanking a second time changes nothing, whatever counts as an identifier character. */
  lemma CodeOnlyIdempotent(alnum: char -> bool, alnum': char -> bool, text: string)
    ensures CodeOnly(alnum', CodeOnly(alnum, text)) == CodeOnly(alnum, text)
  {
    var code := CodeOnly(alnum, text);
    forall k | 0 <= k < |code|
      ensures TokenEnd(alnum', code, k) == None
    {
      NoTokenLeft(alnum, alnum', text, k);
    }
    hide TokenEnd;
    NoTokensNoChange(alnum', code, 0);
  }

  // ---------------------------------------------------------------- the Python loops

  method BlankRange(blanked: array<char>, start: nat, end: nat)
    requires start <= blanked.Length
    modifies blanked
    ensures forall k | 0 <= k < blanked.Length ::
              blanked[k] == if start <= k < end then Blank(old(blanked[k])) else old(blanked[k])
  {
    var stop := if end < blanked.Length then end else blanked.Length;
    var k := start;
    while k < stop
      invariant start <= k && (k <= stop || k == start)
      invariant forall j | 0 <= j < blanked.Length ::
                  blanked[j] == if start <= j < k then Blank(old(blanked[j])) else old(blanked[j])
    {
      if blanked[k] != '\n' { blanked[k] := ' '; }
      k := k + 1;
    }
  }

  method SkipBlock(text: string, index: nat) returns (end: nat)
    requires PairAt(text, index, '/', '*')
    ensures end == BlockEnd(text, index, 0)
  {
    var depth: nat := 0;
    end := index;
    while end < |text|
      invariant index <= end <= |text| && (depth == 0 ==> end == index)
      invariant BlockEnd(text, index, 0) == BlockEnd(text, end, depth)
      decreases |text| - end
    {
      if PairAt(text, end, '/', '*') {
        depth, end := depth + 1, end + 2;
      } else if PairAt(text, end, '*', '/') {
        depth, end := depth - 1, end + 2;
        if depth == 0 { return; }
      } else {
        end := end + 1;
      }
    }
  }

  method SkipString(text: string, index: nat) returns (end: nat)
    ensures end == StringEnd(text, index)
  {
    end := index;
    while end < |text| && text[end] != '"'
      invariant StringEnd(text, index) == StringEnd(text, end)
      decreases |text| - end
    {
      end := end + (if text[end] == '\\' then 2 else 1);
    }
  }

  /** The scanner, which blanks a copy of the text in place. */
  method BlankNonCode(alnum: char -> bool, text: string) returns (code: string)
    ensures code == CodeOnly(alnum, text)
  {
    hide CodeOnly, CodeFrom, Reached, Blank, CharLiteral, RawString, FollowsIdentifier, StringEnd, BlockEnd, Find, Repeat;
    var blanked := new char[|text|](k requires 0 <= k < |text| => text[k]);
    var index: nat := 0;
    NothingScanned(alnum, text);
    while index < |text|
      invariant blanked.Length == |text| && fresh(blanked)
      invariant forall k | 0 <= k < |text| ::
                  blanked[k] == if k < index then CodeOnly(alnum, text)[k] else text[k]
      invariant Reached(alnum, text, index)
      decreases |text| - index
    {
      var end: nat;
      var raw := if FollowsIdentifier(alnum, text, index) then None else RawString(text, index);
      if PairAt(text, index, '/', '/') {
        end := LineEnd(text, index);
      } else if PairAt(text, index, '/', '*') {
        end := SkipBlock(text, index);
      } else if raw.Some? {
        var closing := "\"" + Repeat('#', raw.value.0);
        var found := Find(text, closing, raw.value.1);
        end := if found.Some? then found.value + |closing| else |text|;
      } else if text[index] == '"' {
        end := SkipString(text, index + 1);
        end := end + 1;
      } else if text[index] == '\'' && CharLiteral(text, index).Some? {
        end := CharLiteral(text, index).value;
      } else {
        assert TokenEnd(alnum, text, index) == None;
        StepOver(alnum, text, index, index + 1);
        index := index + 1;
        continue;
      }
      assert TokenEnd(alnum, text, index) == Some(end);
      StepOver(alnum, text, index, end);
      BlankRange(blanked, index, end);
      index := end;
    }
    code := blanked[..];
  }

  /** The scan has reached `index`: from there on the result is what it still has to produce. */
  ghost predicate Reached(alnum: char -> bool, text: string, index: nat) {
    forall k | index <= k < |text| :: CodeOnly(alnum, text)[k] == CodeFrom(alnum, text, index)[k - index]
  }

  lemma NothingScanned(alnum: char -> bool, text: string)
    ensures Reached(alnum, text, 0)
  {}

  lemma StepOver(alnum: char -> bool, text: string, index: nat, next: nat)
    requires index < |text| && Reached(alnum, text, index)
    requires match TokenEnd(alnum, text, index) case None => next == index + 1 case Some(end) => next == end
    ensures Reached(alnum, text, next)
    ensures forall k | index <= k < next && k < |text| ::
              CodeOnly(alnum, text)[k] == if TokenEnd(alnum, text, index).None? then text[k] else Blank(text[k])
  {
    hide TokenEnd, CodeFrom, CodeOnly, Blank;
    forall k | index <= k < |text|
      ensures CodeOnly(alnum, text)[k] ==
              match TokenEnd(alnum, text, index)
              case None => if k == index then text[k] else CodeFrom(alnum, text, index + 1)[k - (index + 1)]
              case Some(end) => if k < end then Blank(text[k]) else CodeFrom(alnum, text, end)[k - end]
    {
      CodeAt(alnum, text, index, k);
    }
  }

  // ---------------------------------------------------------------- the end of an item

  /** How deep braces are nested between `from` and `end`. */
  function Depth(code: string, from: nat, end: nat): int
    requires from <= end <= |code|
    decreases end
  {
    if from == end then 0
    else Depth(code, from, end - 1) + (if code[end - 1] == '{' then 1 else if code[end - 1] == '}' then -1 else 0)
  }

  /** How deep parentheses and brackets are nested between `from` and `end`. */
  function Nesting(code: string, from: nat, end: nat): int
    requires from <= end <= |code|
    decreases end
  {
    if from == end then 0
    else
      var c := code[end - 1];
      Nesting(code, from, end - 1) + (if c == '(' || c == '[' then 1 else if c == ')' || c == ']' then -1 else 0)
  }

  /** Outside parentheses and brackets, `index` holds a `;` or a `{`. */
  predicate Decides(code: string, start: nat, index: nat)
    requires start <= index < |code|
  {
    Nesting(code, start, index) == 0 && (code[index] == ';' || code[index] == '{')
  }

  /** `index` closes the brace that opens at `open`. */
  predicate Closes(code: string, open: nat, index: nat) {
    && open < index < |code|
    && Depth(code, open, index + 1) == 0 && forall j | open < j <= index :: Depth(code, open, j) > 0
  }

  /** The first `;` or `{` outside parentheses and brackets. */
  predicate FirstDecision(code: string, start: nat, first: nat) {
    start <= first < |code| && Decides(code, start, first) && forall j | start <= j < first :: !Decides(code, start, j)
  }

  /** Where the item after `start` ends: at its first `;` outside parentheses and brackets, or at
      the brace that closes the first one opened there; an unfinished item reaches to the end. */
  ghost predicate ItemEnds(code: string, start: nat, end: nat) {
    && start <= end <= |code|
    && if end < |code| then
         || (FirstDecision(code, start, end) && code[end] == ';')
         || exists open: nat :: FirstDecision(code, start, open) && code[open] == '{' && Closes(code, open, end)
       else
         forall first: nat :: FirstDecision(code, start, first) ==>
           code[first] == '{' && forall j | first < j <= |code| :: Depth(code, first, j) > 0
  }

  /** `_rust_item_end`. */
  method ItemEnd(code: string, start: nat) returns (end: nat)
    requires start <= |code|
    ensures ItemEnds(code, start, end)
  {
    var nesting := 0;
    for index := start to |code|
      invariant nesting == Nesting(code, start, index)
      invariant forall j | start <= j < index :: !Decides(code, start, j)
    {
      var character := code[index];
      if character == '(' || character == '[' {
        nesting := nesting + 1;
      } else if character == ')' || character == ']' {
        nesting := nesting - 1;
      } else if nesting == 0 && character == ';' {
        return index;
      } else if nesting == 0 && character == '{' {
        assert FirstDecision(code, start, index);
        var depth := 0;
        for close := index to |code|
          invariant depth == Depth(code, index, close)
          invariant forall j | index < j <= close :: Depth(code, index, j) > 0
        {
          if code[close] == '{' {
            depth := depth + 1;
          } else if code[close] == '}' {
            depth := depth - 1;
            if depth == 0 {
              assert Closes(code, index, close);
              return close;
            }
          }
        }
        return |code|;
      }
    }
    return |code|;
  }

  lemma ClosedOnce(code: string, open: nat, a: nat, b: nat)
    requires Closes(code, open, a) && Closes(code, open, b)
    ensures a == b
  {
    assert a < b ==> open < a + 1 <= b;
    assert b < a ==> open < b + 1 <= a;
  }

  /** Every item ends in one place only. */
  lemma ItemEndsOnce(code: string, start: nat, a: nat, b: nat)
    requires ItemEnds(code, start, a) && ItemEnds(code, start, b)
    ensures a == b
  {
    if a < |code| && b < |code| {
      if code[a] != ';' && code[b] != ';' {
        var open: nat :| FirstDecision(code, start, open) && code[open] == '{' && Closes(code, open, a);
        ClosedOnce(code, open, a, b);
      }
    }
  }
}
