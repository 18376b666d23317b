/** What the Rust blanker blanks, read off the text: where each comment, string and literal ends. */
module RustLexing {
  import opened PyText
  import opened Results
  import opened RustCode

  // ---------------------------------------------------------------- strings

  /** How many backslashes stand right before `index`, none of them before `from`. */
  function Backslashes(text: string, from: nat, index: nat): nat
    requires from <= index <= |text|
    decreases index
  {
    if index == from || text[index - 1] != '\\' then 0 else 1 + Backslashes(text, from, index - 1)
  }

  /** A quote that no backslash escapes. */
  predicate ClosingQuote(text: string, from: nat, index: nat) {
    from <= index < |text| && text[index] == '"' && Backslashes(text, from, index) % 2 == 0
  }

  /** The string whose content starts at `from` ends just past its first quote that is not escaped, or
      with the text. */
  predicate StringEnds(text: string, from: nat, end: nat) {
    || (end > from && ClosingQuote(text, from, end - 1) && forall k | from <= k < end - 1 :: !ClosingQuote(text, from, k))
    || (end == |text| && forall k | from <= k < |text| :: !ClosingQuote(text, from, k))
  }

  lemma {:induction false} StringScan(text: string, from: nat, index: nat)
    requires from <= index <= |text| && Backslashes(text, from, index) % 2 == 0
    requires forall k | from <= k < index :: !ClosingQuote(text, from, k)
    ensures var q := StringEnd(text, index);
            if q < |text| then ClosingQuote(text, from, q) && forall k | from <= k < q :: !ClosingQuote(text, from, k)
            else forall k | from <= k < |text| :: !ClosingQuote(text, from, k)
    decreases |text| - index
  {
    if index < |text| && text[index] != '"' {
      if text[index] != '\\' {
        StringScan(text, from, index + 1);
      } else if index + 1 < |text| {
        assert Backslashes(text, from, index + 1) == 1 + Backslashes(text, from, index);
        StringScan(text, from, index + 2);
      }
    }
  }

  // ---------------------------------------------------------------- block comments

  datatype Piece = Opener | Closer | Other

  predicate PieceAt(text: string, index: nat, p: Piece) {
    match p
    case Opener => PairAt(text, index, '/', '*')
    case Closer => PairAt(text, index, '*', '/')
    case Other => index < |text| && !PairAt(text, index, '/', '*') && !PairAt(text, index, '*', '/')
  }

  function Width(p: Piece): nat {
    if p.Other? then 1 else 2
  }

  /** The pieces stand one after the other from `from` to `end`. */
  predicate Reads(text: string, from: nat, pieces: seq<Piece>, end: nat)
    decreases |pieces|
  {
    if pieces == [] then from == end
    else PieceAt(text, from, pieces[0]) && Reads(text, from + Width(pieces[0]), pieces[1..], end)
  }

  /** Openers minus closers. */
  function Depth(pieces: seq<Piece>): int {
    if pieces == [] then 0
    else (match pieces[0] case Opener => 1 case Closer => -1 case Other => 0) + Depth(pieces[1..])
  }

  /** A comment of these pieces at nesting depth `depth`: it first balances with its last piece, or is
      not balanced when the text ends. */
  predicate Balances(pieces: seq<Piece>, depth: int, unfinished: bool) {
    && (forall k | 0 <= k < |pieces| :: depth + Depth(pieces[..k]) > 0)
    && if unfinished then depth + Depth(pieces) > 0 else depth + Depth(pieces) == 0
  }

  /** The block comment at `from` ends where its openers and closers first balance, or with the text. */
  ghost predicate CommentEnds(text: string, from: nat, end: nat) {
    PairAt(text, from, '/', '*')
    && exists pieces :: Reads(text, from + 2, pieces, end)
         && (Balances(pieces, 1, false) || (end == |text| && Balances(pieces, 1, true)))
  }

  lemma BalancesCons(p: Piece, rest: seq<Piece>, depth: int, unfinished: bool)
    requires depth > 0
    ensures Balances([p] + rest, depth, unfinished) <==> Balances(rest, depth + Depth([p]), unfinished)
  {
    var all := [p] + rest;
    assert all[1..] == rest;
    assert [p][1..] == [];
    forall k | 0 < k <= |all|
      ensures Depth(all[..k]) == Depth([p]) + Depth(rest[..k - 1])
    {
      assert all[..k][0] == p && all[..k][1..] == rest[..k - 1];
    }
    assert all[..|all|] == all && rest[..|rest|] == rest;
    if Balances(all, depth, unfinished) {
      forall k | 0 <= k < |rest|
        ensures depth + Depth([p]) + Depth(rest[..k]) > 0
      {
        assert depth + Depth(all[..k + 1]) > 0;
      }
    }
  }

  lemma {:induction false} CommentScan(text: string, index: nat, depth: nat) returns (pieces: seq<Piece>)
    requires index <= |text| && depth > 0
    ensures var end := BlockEnd(text, index, depth);
            Reads(text, index, pieces, end) && (Balances(pieces, depth, false) || (end == |text| && Balances(pieces, depth, true)))
    decreases |text| - index
  {
    pieces := [];
    if index < |text| {
      var p := if PairAt(text, index, '/', '*') then Opener else if PairAt(text, index, '*', '/') then Closer else Other;
      var deeper := depth + Depth([p]);
      assert [p][1..] == [];
      if deeper == 0 {
        pieces := [p];
        assert [p][..0] == [];
      } else {
        var rest := CommentScan(text, index + Width(p), deeper);
        pieces := [p] + rest;
        assert pieces[1..] == rest;
        hide Balances;
        BalancesCons(p, rest, depth, false);
        BalancesCons(p, rest, depth, true);
      }
    }
  }

  lemma {:induction false} OneReading(text: string, from: nat, a: seq<Piece>, x: nat, b: seq<Piece>, y: nat, depth: nat)
    requires depth > 0 && Reads(text, from, a, x) && Reads(text, from, b, y)
    requires Balances(a, depth, false) || (x == |text| && Balances(a, depth, true))
    requires Balances(b, depth, false) || (y == |text| && Balances(b, depth, true))
    ensures x == y
    decreases |a|
  {
    if a != [] && b != [] {
      var p := a[0];
      assert a == [p] + a[1..] && b == [p] + b[1..];
      BalancesCons(p, a[1..], depth, false);
      BalancesCons(p, a[1..], depth, true);
      BalancesCons(p, b[1..], depth, false);
      BalancesCons(p, b[1..], depth, true);
      var deeper := depth + Depth([p]);
      if deeper > 0 {
        OneReading(text, from + Width(p), a[1..], x, b[1..], y, deeper);
      } else {
        assert [p][1..] == [];
        BalancedIsOver(a[1..]);
        BalancedIsOver(b[1..]);
      }
    }
  }

  lemma BalancedIsOver(rest: seq<Piece>)
    ensures forall unfinished :: Balances(rest, 0, unfinished) ==> rest == [] && !unfinished
  {
    assert rest != [] ==> rest[..0] == [];
  }

  // ---------------------------------------------------------------- raw strings

  /** The text from `index` on is an optional `b` or `c`, an `r`, `hashes` hashes and a quote; the
      content of the raw string starts at `from`. */
  predicate RawOpens(text: string, index: nat, hashes: nat, from: nat) {
    exists r | index <= r <= index + 1 ::
      && (r == index + 1 ==> CharAt(text, index, 'b') || CharAt(text, index, 'c'))
      && from == r + hashes + 2 <= |text| && text[r] == 'r' && text[from - 1] == '"'
      && forall k | r < k < from - 1 :: text[k] == '#'
  }

  /** The quote and the hashes that close a raw string end at `end`. */
  predicate RawCloses(text: string, hashes: nat, from: nat, end: nat) {
    && from + hashes < end <= |text| && text[end - hashes - 1] == '"'
    && forall k | end - hashes <= k < end :: text[k] == '#'
  }

  /** A raw string ends with the first quote that its number of hashes follows, or with the text. */
  predicate RawEnds(text: string, hashes: nat, from: nat, end: nat) {
    || (RawCloses(text, hashes, from, end) && forall k | from <= k < end :: !RawCloses(text, hashes, from, k))
    || (end == |text| && forall k | from <= k <= |text| :: !RawCloses(text, hashes, from, k))
  }

  lemma {:induction false} HashRunIsHashes(text: string, index: nat)
    ensures var n := HashRun(text, index);
            && (forall k | index <= k < index + n :: CharAt(text, k, '#')) && !CharAt(text, index + n, '#')
    decreases |text| - index
  {
    if CharAt(text, index, '#') { HashRunIsHashes(text, index + 1); }
  }

  lemma {:induction false} RepeatIs(c: char, n: nat)
    ensures |Repeat(c, n)| == n && forall k | 0 <= k < n :: Repeat(c, n)[k] == c
    decreases n
  {
    if n > 0 { RepeatIs(c, n - 1); }
  }

  lemma {:induction false} RunOfHashes(text: string, index: nat, n: nat)
    requires !CharAt(text, index + n, '#') && forall k | index <= k < index + n :: CharAt(text, k, '#')
    ensures HashRun(text, index) == n
    decreases n
  {
    if n > 0 { RunOfHashes(text, index + 1, n - 1); }
  }

  lemma RawStringOpens(text: string, index: nat, hashes: nat, from: nat)
    ensures RawString(text, index) == Some((hashes, from)) <==> RawOpens(text, index, hashes, from)
  {
    var r := if CharAt(text, index, 'b') || CharAt(text, index, 'c') then index + 1 else index;
    HashRunIsHashes(text, r + 1);
    if RawString(text, index) == Some((hashes, from)) {
      assert from == r + hashes + 2;
      forall k | r < k < from - 1
        ensures text[k] == '#'
      {
        assert CharAt(text, k, '#');
      }
    }
    if RawOpens(text, index, hashes, from) {
      assert from == r + hashes + 2 && CharAt(text, from - 1, '"') && !CharAt(text, from - 1, '#');
      RunOfHashes(text, r + 1, hashes);
    }
  }

  lemma RawFindEnds(text: string, hashes: nat, from: nat)
    requires from <= |text|
    ensures var closing := "\"" + Repeat('#', hashes);
            var found := Find(text, closing, from);
            var end := if found.Some? then found.value + |closing| else |text|;
            RawEnds(text, hashes, from, end) && from <= end
  {
    RepeatIs('#', hashes);
    var closing := "\"" + Repeat('#', hashes);
    hide Repeat;
    forall k | from <= k
      ensures StartsWithAt(text, closing, k) <==> RawCloses(text, hashes, from, k + hashes + 1)
    {
      ClosingStands(text, closing, hashes, from, k);
    }
    hide Find, StartsWithAt, RawCloses;
    var found := Find(text, closing, from);
    var end := if found.Some? then found.value + hashes + 1 else |text|;
    forall k | from <= k < end || (found.None? && k == |text|)
      ensures !RawCloses(text, hashes, from, k)
    {
      if k > from + hashes { assert !StartsWithAt(text, closing, k - hashes - 1); } else { TooShort(text, hashes, from, k); }
    }
  }

  lemma TooShort(text: string, hashes: nat, from: nat, k: nat)
    requires k <= from + hashes
    ensures !RawCloses(text, hashes, from, k)
  {}

  lemma ClosingStands(text: string, closing: string, hashes: nat, from: nat, k: nat)
    requires from <= k && |closing| == hashes + 1 && closing[0] == '"' && forall j | 0 < j <= hashes :: closing[j] == '#'
    ensures StartsWithAt(text, closing, k) <==> RawCloses(text, hashes, from, k + hashes + 1)
  {
    if StartsWithAt(text, closing, k) {
      assert text[k + 0] == closing[0];
      forall i | k + 1 <= i < k + hashes + 1
        ensures text[i] == '#'
      {
        assert text[k + (i - k)] == closing[i - k];
      }
    }
  }

  // ---------------------------------------------------------------- character literals

  predicate IsHexDigit(c: char) {
    c in "0123456789abcdefABCDEF"
  }

  lemma HexDigits()
    ensures forall c :: IsHexDigit(c) <==> IsHex(c)
  {
    var digits := "0123456789abcdefABCDEF";
    forall c
      ensures IsHexDigit(c) <==> IsHex(c)
    {
      if '0' <= c <= '9' { assert digits[c as int - 48] == c; }
      else if 'a' <= c <= 'f' { assert digits[c as int - 87] == c; }
      else if 'A' <= c <= 'F' { assert digits[c as int - 49] == c; }
    }
  }

  /** What stands between the quotes of a character literal. */
  predicate LiteralBody(body: string) {
    || (|body| == 1 && body[0] !in {'\'', '\\', '\n'})
    || (|body| == 2 && body[0] == '\\' && body[1] != '\n')
    || (|body| == 4 && body[0] == '\\' && body[1] == 'x' && IsHexDigit(body[2]) && IsHexDigit(body[3]))
    || (5 <= |body| <= 12 && body[0] == '\\' && body[1] == 'u' && body[2] == '{' && body[|body| - 1] == '}'
        && forall k | 3 <= k < |body| - 1 :: IsHexDigit(body[k]) || body[k] == '_')
  }

  predicate LiteralEnds(text: string, index: nat, end: nat) {
    && index + 2 <= end <= |text| && text[index] == '\'' && text[end - 1] == '\'' && LiteralBody(text[index + 1..end - 1])
  }

  lemma CharLiteralEnds(text: string, index: nat, end: nat)
    requires index < |text| && text[index] == '\''
    ensures CharLiteral(text, index) == Some(end) <==> LiteralEnds(text, index, end)
  {
    if LiteralEnds(text, index, end) { LiteralIsRead(text, index, end); }
    if CharLiteral(text, index) == Some(end) { ReadIsLiteral(text, index, end); }
  }

  lemma ReadIsLiteral(text: string, index: nat, end: nat)
    requires index < |text| && text[index] == '\'' && CharLiteral(text, index) == Some(end)
    ensures LiteralEnds(text, index, end)
  {
    hide IsHexDigit, IsHex;
    HexDigits();
    var body := text[index + 1..end - 1];
    assert forall k | 0 <= k < |body| :: body[k] == text[index + 1 + k];
  }

  lemma LiteralIsRead(text: string, index: nat, end: nat)
    requires index < |text| && LiteralEnds(text, index, end)
    ensures CharLiteral(text, index) == Some(end)
  {
    hide IsHexDigit;
    HexDigits();
    var body := text[index + 1..end - 1];
    assert forall k | 0 <= k < |body| :: body[k] == text[index + 1 + k];
    if |body| >= 5 {
      assert text[index + 1] == '\\' && text[index + 2] == 'u' && text[index + 3] == '{';
      HexRunStops(text, index + 4, |body| - 4);
    }
  }

  lemma {:induction false} HexRunStops(text: string, index: nat, n: nat)
    requires index + n < |text| && text[index + n] == '}'
    requires forall k | index <= k < index + n :: IsHex(text[k]) || text[k] == '_'
    ensures HexRun(text, index) == n
    decreases n
  {
    if n > 0 { HexRunStops(text, index + 1, n - 1); }
  }

  // ---------------------------------------------------------------- the whole text

  predicate LineCommentEnds(text: string, from: nat, end: nat) {
    && from <= end <= |text| && (forall k | from <= k < end :: text[k] != '\n') && (end == |text| || text[end] == '\n')
  }

  ghost predicate RawStringFrom(text: string, from: nat) {
    exists hashes: nat, content: nat :: RawOpens(text, from, hashes, content)
  }

  ghost predicate RawStringEnds(text: string, from: nat, end: nat) {
    exists hashes: nat, content: nat :: RawOpens(text, from, hashes, content) && RawEnds(text, hashes, content, end)
  }

  /** A comment, a string or a literal reaches from `from` to `end`; where several could start, the
      first of them counts. A raw string does not start inside an identifier. */
  ghost predicate Region(alnum: char -> bool, text: string, from: nat, end: nat) {
    from < |text| &&
    if PairAt(text, from, '/', '/') then LineCommentEnds(text, from, end)
    else if PairAt(text, from, '/', '*') then CommentEnds(text, from, end)
    else if (from == 0 || !(alnum(text[from - 1]) || text[from - 1] == '_')) && RawStringFrom(text, from) then RawStringEnds(text, from, end)
    else if text[from] == '"' then StringEnds(text, from + 1, end)
    else text[from] == '\'' && LiteralEnds(text, from, end)
  }

  lemma BlockIsRegion(text: string, from: nat, end: nat)
    requires PairAt(text, from, '/', '*')
    ensures CommentEnds(text, from, end) <==> end == BlockEnd(text, from, 0)
  {
    var pieces := CommentScan(text, from + 2, 1);
    hide Balances, Reads;
    var scanned := BlockEnd(text, from + 2, 1);
    assert BlockEnd(text, from, 0) == scanned;
    forall other | Reads(text, from + 2, other, end) && (Balances(other, 1, false) || (end == |text| && Balances(other, 1, true)))
      ensures end == scanned
    {
      OneReading(text, from + 2, pieces, scanned, other, end, 1);
    }
  }

  lemma RawEndsOnce(text: string, hashes: nat, from: nat, a: nat, b: nat)
    requires from <= a && RawEnds(text, hashes, from, a)
    ensures RawEnds(text, hashes, from, b) <==> a == b
  {
    hide RawCloses;
    ClosesInside(text, hashes, from, a);
    ClosesInside(text, hashes, from, b);
  }

  lemma ClosesInside(text: string, hashes: nat, from: nat, end: nat)
    ensures RawCloses(text, hashes, from, end) ==> from < end <= |text|
  {}

  lemma RawIsRegion(text: string, from: nat, end: nat)
    requires RawString(text, from).Some?
    ensures var raw := RawString(text, from).value;
            var closing := "\"" + Repeat('#', raw.0);
            var found := Find(text, closing, raw.1);
            RawStringEnds(text, from, end) <==> end == if found.Some? then found.value + |closing| else |text|
  {
    hide RawString, RawOpens, RawEnds, Find, Repeat;
    var raw := RawString(text, from).value;
    RawStringOpens(text, from, raw.0, raw.1);
    RawFindEnds(text, raw.0, raw.1);
    var closing := "\"" + Repeat('#', raw.0);
    var found := Find(text, closing, raw.1);
    RawEndsOnce(text, raw.0, raw.1, if found.Some? then found.value + |closing| else |text|, end);
    forall hashes: nat, content: nat | RawOpens(text, from, hashes, content)
      ensures (hashes, content) == raw
    {
      RawStringOpens(text, from, hashes, content);
    }
  }

  lemma RawStartsThere(text: string, from: nat)
    ensures RawStringFrom(text, from) <==> RawString(text, from).Some?
  {
    hide RawString, RawOpens;
    forall hashes: nat, content: nat
      ensures RawString(text, from) == Some((hashes, content)) <==> RawOpens(text, from, hashes, content)
    {
      RawStringOpens(text, from, hashes, content);
    }
    if RawString(text, from).Some? {
      assert RawOpens(text, from, RawString(text, from).value.0, RawString(text, from).value.1);
    }
  }

  lemma StringIsRegion(text: string, from: nat, end: nat)
    requires from <= |text|
    ensures var q := StringEnd(text, from); StringEnds(text, from, end) <==> end == if q < |text| then q + 1 else |text|
  {
    hide StringEnd, Backslashes;
    NothingEscaped(text, from);
    StringScan(text, from, from);
  }

  lemma NothingEscaped(text: string, from: nat)
    requires from <= |text|
    ensures Backslashes(text, from, from) % 2 == 0
  {}

  /** The scanner's tokens are the regions. */
  lemma RegionIsToken(alnum: char -> bool, text: string, from: nat, end: nat)
    requires from < |text|
    ensures var token := TokenEnd(alnum, text, from);
            Region(alnum, text, from, end) <==>
            token.Some? && end == if token.value < |text| then token.value else |text|
  {
    hide CommentEnds, BlockEnd, RawStringFrom, RawStringEnds, RawString, StringEnds, StringEnd, LiteralEnds, CharLiteral, Find, Repeat;
    RawStartsThere(text, from);
    if PairAt(text, from, '/', '/') {
    } else if PairAt(text, from, '/', '*') {
      BlockIsRegion(text, from, end);
    } else if !FollowsIdentifier(alnum, text, from) && RawString(text, from).Some? {
      RawIsRegion(text, from, end);
    } else if text[from] == '"' {
      StringIsRegion(text, from + 1, end);
    } else if text[from] == '\'' {
      CharLiteralEnds(text, from, end);
      if CharLiteral(text, from).Some? { CharLiteralEnds(text, from, CharLiteral(text, from).value); }
    }
  }

  datatype Span = Span(start: nat, end: nat)

  ghost predicate NoRegion(alnum: char -> bool, text: string, from: nat) {
    forall end :: !Region(alnum, text, from, end)
  }

  /** Reading the text from left to right finds these regions, and no other starts outside them. */
  ghost predicate Lexed(alnum: char -> bool, text: string, from: nat, regions: seq<Span>)
    decreases |regions|
  {
    if regions == [] then forall k | from <= k < |text| :: NoRegion(alnum, text, k)
    else
      var r := regions[0];
      && from <= r.start < r.end && Region(alnum, text, r.start, r.end)
      && (forall k | from <= k < r.start :: NoRegion(alnum, text, k))
      && Lexed(alnum, text, r.end, regions[1..])
  }

  predicate Covered(regions: seq<Span>, k: nat) {
    exists i | 0 <= i < |regions| :: regions[i].start <= k < regions[i].end
  }

  lemma NoRegionNoToken(alnum: char -> bool, text: string, from: nat)
    requires from < |text|
    ensures NoRegion(alnum, text, from) <==> TokenEnd(alnum, text, from).None?
  {
    hide Region, TokenEnd;
    var token := TokenEnd(alnum, text, from);
    if token.Some? { RegionIsToken(alnum, text, from, if token.value < |text| then token.value else |text|); }
    forall end
      ensures token.None? ==> !Region(alnum, text, from, end)
    {
      RegionIsToken(alnum, text, from, end);
    }
  }

  /** Every text can be read so. */
  lemma {:induction false} LexingExists(alnum: char -> bool, text: string, from: nat) returns (regions: seq<Span>)
    requires from <= |text|
    ensures Lexed(alnum, text, from, regions)
    decreases |text| - from
  {
    hide Region, TokenEnd, NoRegion;
    if from == |text| {
      regions := [];
    } else {
      NoRegionNoToken(alnum, text, from);
      match TokenEnd(alnum, text, from)
      case None =>
        regions := LexingExists(alnum, text, from + 1);
        OneMore(alnum, text, from, regions);
      case Some(token) =>
        var end := if token < |text| then token else |text|;
        RegionIsToken(alnum, text, from, end);
        var rest := LexingExists(alnum, text, end);
        regions := [Span(from, end)] + rest;
        assert regions[1..] == rest;
    }
  }

  lemma OneMore(alnum: char -> bool, text: string, from: nat, regions: seq<Span>)
    requires NoRegion(alnum, text, from) && Lexed(alnum, text, from + 1, regions)
    ensures Lexed(alnum, text, from, regions)
  {
    hide Region, NoRegion;
  }

  predicate BlankWhere(text: string, code: string, from: nat, k: nat, covered: bool)
    requires from <= k < |text| && |code| == |text| - from
  {
    code[k - from] == if !covered || text[k] == '\n' then text[k] else ' '
  }

  lemma {:induction false} LexedCode(alnum: char -> bool, text: string, from: nat, regions: seq<Span>, k: nat)
    requires from <= k < |text| && Lexed(alnum, text, from, regions)
    ensures BlankWhere(text, CodeFrom(alnum, text, from), from, k, Covered(regions, k))
    decreases k - from
  {
    hide Region, TokenEnd, NoRegion, CodeFrom;
    NoRegionNoToken(alnum, text, from);
    CodeAt(alnum, text, from, k);
    if regions != [] && regions[0].start == from {
      var r, rest := regions[0], regions[1..];
      RegionIsToken(alnum, text, from, r.end);
      if r.end <= k {
        CoveredLater(regions, k);
        LexedCode(alnum, text, r.end, rest, k);
      } else {
        assert regions[0].start <= k < regions[0].end;
      }
    } else {
      OneLess(alnum, text, from, regions);
      if from < k {
        LexedCode(alnum, text, from + 1, regions, k);
      } else {
        LexedFrom(alnum, text, from + 1, regions);
      }
    }
  }

  lemma CoveredLater(regions: seq<Span>, k: nat)
    requires regions != [] && regions[0].end <= k
    ensures Covered(regions, k) <==> Covered(regions[1..], k)
  {
    assert forall i | 0 < i < |regions| :: regions[i] == regions[1..][i - 1];
  }

  lemma OneLess(alnum: char -> bool, text: string, from: nat, regions: seq<Span>)
    requires from < |text| && Lexed(alnum, text, from, regions) && (regions != [] ==> regions[0].start != from)
    ensures NoRegion(alnum, text, from) && Lexed(alnum, text, from + 1, regions)
  {
    hide Region, NoRegion;
  }

  lemma {:induction false} LexedFrom(alnum: char -> bool, text: string, from: nat, regions: seq<Span>)
    requires Lexed(alnum, text, from, regions)
    ensures forall i | 0 <= i < |regions| :: from <= regions[i].start
    decreases |regions|
  {
    hide Region, NoRegion;
    if regions != [] {
      LexedFrom(alnum, text, regions[0].end, regions[1..]);
      assert forall i | 0 < i < |regions| :: regions[i] == regions[1..][i - 1];
    }
  }

  /** The blanker blanks a character exactly when it lies in one of the text's regions, newlines
      apart. */
  lemma BlankedExactly(alnum: char -> bool, text: string, regions: seq<Span>, k: nat)
    requires k < |text| && Lexed(alnum, text, 0, regions)
    ensures CodeOnly(alnum, text)[k] == if Covered(regions, k) && text[k] != '\n' then ' ' else text[k]
  {
    hide Lexed, CodeFrom, Covered;
    LexedCode(alnum, text, 0, regions, k);
  }
}
