/** The path in a `diff --git` line, plain or in Git's C-style quotes. */
module HeaderPath {
  import opened PyText
  import opened Results

  type Byte = b: int | 0 <= b < 256

  const FILE_HEADER := "diff --git "

  datatype PathError =
    | Malformed(text: string)
    | Unterminated(text: string)
    | ByteTooLarge(value: int)     // an octal escape above 377: Python's ValueError
    | NotUtf8(shown: string)
    | Unreadable(line: string)

  /** Python's `bytes.decode`: `strictly` fails on what is not UTF-8, `replacing` does not. */
  datatype Decoder = Decoder(strictly: seq<Byte> -> Option<string>, replacing: seq<Byte> -> string)

  /** The UTF-8 form of one character. */
  function Utf8(c: char): (r: seq<Byte>)
    ensures c as int < 0x80 ==> r == [c as int]
  {
    var n := c as int;
    if n < 0x80 then [n]
    else if n < 0x800 then [0xC0 + n / 0x40, 0x80 + n % 0x40]
    else if n < 0x10000 then [0xE0 + n / 0x1000, 0x80 + n / 0x40 % 0x40, 0x80 + n % 0x40]
    else [0xF0 + n / 0x40000 % 8, 0x80 + n / 0x1000 % 0x40, 0x80 + n / 0x40 % 0x40, 0x80 + n % 0x40]
  }

  lemma SixBits(n: nat)
    ensures n == n / 0x40 * 0x40 + n % 0x40 && 0 <= n % 0x40 < 0x40
  {}

  lemma ShiftedTwice(n: nat)
    ensures n / 0x40 / 0x40 == n / 0x1000
  {}

  lemma ShiftedThrice(n: nat)
    ensures n / 0x1000 / 0x40 == n / 0x40000
  {}

  /** A number in groups of six bits, the first group with what is left. */
  lemma Groups(n: nat)
    ensures n == n / 0x40 * 0x40 + n % 0x40
    ensures n / 0x40 == n / 0x1000 * 0x40 + n / 0x40 % 0x40
    ensures n / 0x1000 == n / 0x40000 * 0x40 + n / 0x1000 % 0x40
  {
    SixBits(n);
    SixBits(n / 0x40);
    SixBits(n / 0x1000);
    ShiftedTwice(n);
    ShiftedThrice(n);
  }

  /** How large the first groups are. */
  lemma FirstGroups(n: nat)
    requires n < 0x110000
    ensures n < 0x800 ==> n / 0x40 < 0x20
    ensures n < 0x10000 ==> n / 0x1000 < 0x10
    ensures n / 0x40000 < 8 && n / 0x40000 % 8 == n / 0x40000
  {}

  /** What the bytes carry: bits of the first less its mark, then six bits of each other one. */
  function Carried(u: seq<Byte>): int {
    if |u| == 1 then u[0]
    else if |u| == 2 then (u[0] as int - 0xC0) * 0x40 + (u[1] as int - 0x80)
    else if |u| == 3 then ((u[0] as int - 0xE0) * 0x40 + (u[1] as int - 0x80)) * 0x40 + (u[2] as int - 0x80)
    else if |u| == 4 then (((u[0] as int - 0xF0) * 0x40 + (u[1] as int - 0x80)) * 0x40 + (u[2] as int - 0x80)) * 0x40 + (u[3] as int - 0x80)
    else -1
  }

  /** Section 3 of RFC 3629: as many bytes as the character needs, the first says how many, and each
      of the others carries six bits. */
  lemma Utf8IsStandard(c: char)
    ensures var (u, n) := (Utf8(c), c as int);
            && Carried(u) == n && (forall k | 1 <= k < |u| :: 0x80 <= u[k] < 0xC0)
            && (if n < 0x80 then |u| == 1
                else if n < 0x800 then |u| == 2 && 0xC0 <= u[0] < 0xE0
                else if n < 0x10000 then |u| == 3 && 0xE0 <= u[0] < 0xF0
                else |u| == 4 && 0xF0 <= u[0] < 0xF8)
  {
    Groups(c as int);
    FirstGroups(c as int);
  }

  /** `_GIT_QUOTED_ESCAPES`. */
  function NamedEscape(c: char): (r: Option<Byte>) {
    match c
    case 'a' => Some(7)
    case 'b' => Some(8)
    case 't' => Some(9)
    case 'n' => Some(10)
    case 'v' => Some(11)
    case 'f' => Some(12)
    case 'r' => Some(13)
    case '"' => Some(34)
    case '\\' => Some(92)
    case _ => None
  }

  predicate IsOctal(c: char) {
    '0' <= c <= '7'
  }

  /** The value of three octal digits from `index` on. */
  function OctalEscape(text: string, index: nat): (r: Option<nat>) {
    if index + 3 <= |text| && IsOctal(text[index]) && IsOctal(text[index + 1]) && IsOctal(text[index + 2]) then
      Some((text[index] as int - 48) * 64 + (text[index + 1] as int - 48) * 8 + (text[index + 2] as int - 48))
    else None
  }

  datatype Unquoted = Unquoted(bytes: seq<Byte>, rest: string)

  /** The loop of `_unquote` from `index` on, with `decoded` read so far. */
  function UnquoteFrom(text: string, index: nat, decoded: seq<Byte>): Result<Unquoted, PathError>
    decreases |text| - index
  {
    if index >= |text| then Err(Unterminated(text))
    else if text[index] == '"' then Ok(Unquoted(decoded, text[index + 1..]))
    else if text[index] != '\\' then UnquoteFrom(text, index + 1, decoded + Utf8(text[index]))
    else if index + 1 < |text| && NamedEscape(text[index + 1]).Some? then
      UnquoteFrom(text, index + 2, decoded + [NamedEscape(text[index + 1]).value])
    else
      match OctalEscape(text, index + 1)
      case None => Err(Malformed(text))
      case Some(value) =>
        if value > 255 then Err(ByteTooLarge(value)) else UnquoteFrom(text, index + 4, decoded + [value])
  }

  /** `_unquote`: the decoded path and what follows the closing quote. */
  function Unquote(text: string, strict: bool, d: Decoder): Result<(string, string), PathError> {
    match UnquoteFrom(text, 1, [])
    case Err(e) => Err(e)
    case Ok(u) =>
      if !strict then Ok((d.replacing(u.bytes), u.rest))
      else
        match d.strictly(u.bytes)
        case None => Err(NotUtf8(d.replacing(u.bytes)))
        case Some(path) => Ok((path, u.rest))
  }

  function RemovePrefix(s: string, prefix: string): string {
    if prefix <= s then s[|prefix|..] else s
  }

  /** What both branches of `_header_path` end with: nothing is left over and the sides agree. */
  function SamePath(line: string, source: string, destination: string, rest: string): Result<string, PathError> {
    if rest != [] || !("a/" <= source) || destination != "b/" + source[2..] then Err(Unreadable(line))
    else Ok(destination[2..])
  }

  /** `_header_path`. */
  function PathOf(line: string, strict: bool, d: Decoder): Result<string, PathError> {
    var rest := RemovePrefix(line, FILE_HEADER);
    if "\"" <= rest then
      match Unquote(rest, strict, d)
      case Err(e) => Err(e)
      case Ok((source, rest)) =>
        if !(" \"" <= rest) then SamePath(line, source, "", "")
        else
          match Unquote(rest[1..], strict, d)
          case Err(e) => Err(e)
          case Ok((destination, rest)) => SamePath(line, source, destination, rest)
    else if rest == "" then Err(Unreadable(line))
    else
      var middle := (|rest| - 1) / 2;
      SamePath(line, rest[..middle], rest[middle + 1..], Strip([rest[middle]]))
  }

  /** The Python loop, which appends to a bytearray. */
  method DecodeQuoted(text: string) returns (r: Result<Unquoted, PathError>)
    ensures r == UnquoteFrom(text, 1, [])
  {
    var decoded: seq<Byte> := [];
    var index: nat := 1;
    while index < |text|
      invariant UnquoteFrom(text, 1, []) == UnquoteFrom(text, index, decoded)
      decreases |text| - index
    {
      var character := text[index];
      if character == '"' { return Ok(Unquoted(decoded, text[index + 1..])); }
      if character != '\\' {
        decoded := decoded + Utf8(character);
        index := index + 1;
      } else if index + 1 < |text| && NamedEscape(text[index + 1]).Some? {
        decoded := decoded + [NamedEscape(text[index + 1]).value];
        index := index + 2;
      } else {
        var octal := OctalEscape(text, index + 1);
        if octal.None? { return Err(Malformed(text)); }
        if octal.value > 255 { return Err(ByteTooLarge(octal.value)); }
        decoded := decoded + [octal.value];
        index := index + 4;
      }
    }
    return Err(Unterminated(text));
  }

  // ---------------------------------------------------------------- Git's quoting

  /** One piece of a quoted path: a character as it is, a named escape, or an octal one. */
  datatype Unit = Plain(c: char) | Named(letter: char) | Octal(b: Byte)

  predicate Printable(u: Unit) {
    match u
    case Plain(c) => c != '"' && c != '\\'
    case Named(letter) => NamedEscape(letter).Some?
    case Octal(_) => true
  }

  function OctalDigit(n: nat): (c: char)
    requires n < 8
    ensures IsOctal(c) && c as int == 48 + n
  {
    (48 + n) as char
  }

  function Text(u: Unit): (r: string)
    ensures r != []
  {
    match u
    case Plain(c) => [c]
    case Named(letter) => ['\\', letter]
    case Octal(b) => ['\\', OctalDigit(b / 64), OctalDigit(b / 8 % 8), OctalDigit(b % 8)]
  }

  function Meaning(u: Unit): seq<Byte>
    requires Printable(u)
  {
    match u
    case Plain(c) => Utf8(c)
    case Named(letter) => [NamedEscape(letter).value]
    case Octal(b) => [b]
  }

  function Texts(units: seq<Unit>): string {
    if units == [] then [] else Text(units[0]) + Texts(units[1..])
  }

  function Meanings(units: seq<Unit>): seq<Byte>
    requires forall u | u in units :: Printable(u)
  {
    if units == [] then [] else Meaning(units[0]) + Meanings(units[1..])
  }

  lemma ReadsAt(text: string, part: string, index: nat, k: nat)
    requires StartsWithAt(text, part, index) && k < |part|
    ensures index + k < |text| && text[index + k] == part[k]
  {}

  lemma DigitNamesNothing(c: char)
    requires IsOctal(c)
    ensures NamedEscape(c) == None
  {}

  /** Three octal digits and their value. */
  predicate Digits(text: string, index: nat, b: nat) {
    && b < 512 && index + 3 <= |text|
    && text[index] == OctalDigit(b / 64) && text[index + 1] == OctalDigit(b / 8 % 8) && text[index + 2] == OctalDigit(b % 8)
  }

  lemma OctalIsDigits(text: string, index: nat, b: nat)
    ensures OctalEscape(text, index) == Some(b) <==> Digits(text, index, b)
  {
    if index + 3 <= |text| && IsOctal(text[index]) && IsOctal(text[index + 1]) && IsOctal(text[index + 2]) {
      DigitsOfValue(text[index] as int - 48, text[index + 1] as int - 48, text[index + 2] as int - 48, b);
    }
  }

  lemma DigitsOfValue(x: nat, y: nat, z: nat, b: nat)
    requires x < 8 && y < 8 && z < 8
    ensures x * 64 + y * 8 + z == b <==> x == b / 64 && y == b / 8 % 8 && z == b % 8
  {
    LastDigit(x * 8 + y, z, b);
    LastDigit(x, y, b / 8);
    EighthOfEighth(b);
  }

  lemma LastDigit(front: nat, last: nat, b: nat)
    requires last < 8
    ensures front * 8 + last == b <==> front == b / 8 && last == b % 8
  {}

  lemma EighthOfEighth(b: nat)
    ensures b / 8 / 8 == b / 64
  {}

  lemma UnquoteUnit(text: string, index: nat, decoded: seq<Byte>, u: Unit)
    requires Printable(u) && StartsWithAt(text, Text(u), index)
    ensures UnquoteFrom(text, index, decoded) == UnquoteFrom(text, index + |Text(u)|, decoded + Meaning(u))
  {
    hide Utf8, StartsWithAt, OctalEscape, NamedEscape;
    var t := Text(u);
    ReadsAt(text, t, index, 0);
    match u
    case Plain(c) =>
    case Named(letter) => ReadsAt(text, t, index, 1);
    case Octal(b) =>
      ReadsAt(text, t, index, 1);
      ReadsAt(text, t, index, 2);
      ReadsAt(text, t, index, 3);
      DigitNamesNothing(text[index + 1]);
      OctalIsDigits(text, index + 1, b);
  }

  lemma {:induction false} UnquoteUnits(head: string, units: seq<Unit>, rest: string, decoded: seq<Byte>)
    requires forall u | u in units :: Printable(u)
    ensures UnquoteFrom(head + Texts(units) + "\"" + rest, |head|, decoded) == Ok(Unquoted(decoded + Meanings(units), rest))
    decreases |units|
  {
    hide Text, Meaning, Printable;
    var text := head + Texts(units) + "\"" + rest;
    if units == [] {
      assert text == head + "\"" + rest && text[|head|] == '"' && text[|head| + 1..] == rest;
      assert decoded + [] == decoded;
    } else {
      var t, m := Text(units[0]), Meaning(units[0]);
      var tail := Texts(units[1..]);
      assert text == (head + t) + tail + "\"" + rest;
      assert decoded + Meanings(units) == (decoded + m) + Meanings(units[1..]);
      assert StartsWithAt(text, t, |head|);
      UnquoteUnit(text, |head|, decoded, units[0]);
      hide UnquoteFrom;
      UnquoteUnits(head + t, units[1..], rest, decoded + m);
    }
  }

  /** Reading inverts every printing: whichever bytes are escaped, and however, the quoted form
      decodes to the bytes it stands for and leaves what follows the closing quote alone. */
  lemma UnquoteInvertsQuoting(units: seq<Unit>, rest: string)
    requires forall u | u in units :: Printable(u)
    ensures UnquoteFrom("\"" + Texts(units) + "\"" + rest, 1, []) == Ok(Unquoted(Meanings(units), rest))
  {
    assert [] + Meanings(units) == Meanings(units);
    UnquoteUnits("\"", units, rest, []);
  }

  /** How Git prints one byte inside quotes: a named escape where there is one, octal for the
      other control bytes and for everything past ASCII, else the character. */
  function GitUnit(b: Byte): (u: Unit)
    ensures Printable(u) && Meaning(u) == [b]
  {
    if b == 7 then Named('a') else if b == 8 then Named('b') else if b == 9 then Named('t')
    else if b == 10 then Named('n') else if b == 11 then Named('v') else if b == 12 then Named('f')
    else if b == 13 then Named('r') else if b == 34 then Named('"') else if b == 92 then Named('\\')
    else if b < 32 || b >= 127 then Octal(b)
    else Plain(b as char)
  }

  function GitUnits(bytes: seq<Byte>): (r: seq<Unit>)
    ensures forall u | u in r :: Printable(u)
  {
    if bytes == [] then [] else [GitUnit(bytes[0])] + GitUnits(bytes[1..])
  }

  function GitQuoted(bytes: seq<Byte>): string {
    "\"" + Texts(GitUnits(bytes)) + "\""
  }

  lemma {:induction false} GitUnitsMean(bytes: seq<Byte>)
    ensures Meanings(GitUnits(bytes)) == bytes
    decreases |bytes|
  {
    if bytes != [] {
      hide Meaning;
      GitUnitsMean(bytes[1..]);
      assert GitUnits(bytes)[1..] == GitUnits(bytes[1..]);
    }
  }

  lemma UnquoteGit(bytes: seq<Byte>, rest: string, strict: bool, d: Decoder)
    ensures Unquote(GitQuoted(bytes) + rest, strict, d) ==
            if !strict then Ok((d.replacing(bytes), rest))
            else match d.strictly(bytes) case None => Err(NotUtf8(d.replacing(bytes))) case Some(path) => Ok((path, rest))
  {
    hide UnquoteFrom, Texts;
    GitUnitsMean(bytes);
    UnquoteInvertsQuoting(GitUnits(bytes), rest);
    assert GitQuoted(bytes) + rest == "\"" + Texts(GitUnits(bytes)) + "\"" + rest;
  }

  /** A quoted header gives back the path of every file name Git can print: the UTF-8 ones when
      reading strictly, with a typed error for the others. */
  lemma QuotedPathRecovered(source: seq<Byte>, destination: seq<Byte>, path: string, strict: bool, d: Decoder)
    requires if strict then d.strictly(source) == Some("a/" + path) && d.strictly(destination) == Some("b/" + path)
             else d.replacing(source) == "a/" + path && d.replacing(destination) == "b/" + path
    ensures PathOf(FILE_HEADER + GitQuoted(source) + " " + GitQuoted(destination), strict, d) == Ok(path)
  {
    hide Unquote;
    var a, b := GitQuoted(source), GitQuoted(destination);
    var line := FILE_HEADER + a + " " + b;
    assert line == FILE_HEADER + (a + " " + b);
    assert RemovePrefix(line, FILE_HEADER) == a + (" " + b);
    assert (" " + b)[1..] == b + "";
    assert "\"" <= a + (" " + b) && " \"" <= " " + b;
    hide GitQuoted;
    UnquoteGit(source, " " + b, strict, d);
    UnquoteGit(destination, "", strict, d);
    assert ("a/" + path)[2..] == path && ("b/" + path)[2..] == path;
  }

  /** A name that is not UTF-8 is a typed error when reading strictly. */
  lemma NonUtf8IsReported(source: seq<Byte>, rest: string, d: Decoder)
    requires d.strictly(source) == None
    ensures PathOf(FILE_HEADER + GitQuoted(source) + rest, true, d) == Err(NotUtf8(d.replacing(source)))
  {
    hide Unquote;
    var line := FILE_HEADER + GitQuoted(source) + rest;
    assert line == FILE_HEADER + (GitQuoted(source) + rest);
    assert RemovePrefix(line, FILE_HEADER) == GitQuoted(source) + rest;
    assert "\"" <= GitQuoted(source) + rest;
    UnquoteGit(source, rest, true, d);
  }

  // ---------------------------------------------------------------- unquoted headers

  lemma StripOne(c: char)
    ensures Strip([c]) == "" <==> IsSpace(c)
  {
    assert [c][..0] == [];
    assert RStrip([c]) == if IsSpace(c) then [] else [c];
  }

  /** An unquoted header is read exactly when it names the same path twice around one white-space
      character; every path is read back, whatever spaces or quotes it contains. */
  lemma UnquotedPath(line: string, path: string, strict: bool, d: Decoder)
    requires !("\"" <= RemovePrefix(line, FILE_HEADER))
    ensures PathOf(line, strict, d) == Ok(path) <==>
            exists w :: IsSpace(w) && RemovePrefix(line, FILE_HEADER) == "a/" + path + [w] + "b/" + path
  {
    hide IsSpace, Strip;
    var rest := RemovePrefix(line, FILE_HEADER);
    if PathOf(line, strict, d) == Ok(path) {
      var middle := (|rest| - 1) / 2;
      StripOne(rest[middle]);
      assert rest[..middle] == "a/" + path;
      assert rest == rest[..middle] + [rest[middle]] + rest[middle + 1..];
      assert rest == "a/" + path + [rest[middle]] + "b/" + path;
    } else if w :| IsSpace(w) && rest == "a/" + path + [w] + "b/" + path {
      ReadsBothSides(line, rest, path, w, strict, d);
    }
  }

  lemma ReadsBothSides(line: string, rest: string, path: string, w: char, strict: bool, d: Decoder)
    requires rest == RemovePrefix(line, FILE_HEADER) && IsSpace(w) && rest == "a/" + path + [w] + "b/" + path
    ensures PathOf(line, strict, d) == Ok(path)
  {
    hide IsSpace, Strip, RemovePrefix, FILE_HEADER;
    var middle := (|rest| - 1) / 2;
    assert rest[0] == 'a';
    assert middle == 2 + |path| && rest[middle] == w;
    assert rest[..middle] == "a/" + path && rest[middle + 1..] == "b/" + path;
    assert ("a/" + path)[2..] == path && ("b/" + path)[2..] == path;
    StripOne(w);
  }

  lemma UnquotedPathRecovered(path: string, strict: bool, d: Decoder)
    ensures PathOf(FILE_HEADER + "a/" + path + " b/" + path, strict, d) == Ok(path)
  {
    var line := FILE_HEADER + "a/" + path + " b/" + path;
    var rest := "a/" + path + [' '] + "b/" + path;
    assert line == FILE_HEADER + rest;
    ReadsBothSides(line, rest, path, ' ', strict, d);
  }

  // ---------------------------------------------------------------- octal escapes above 377

  predicate AllPrintable(units: seq<Unit>) {
    forall u | u in units :: Printable(u)
  }

  /** After its first character the text goes on with pieces that Git could have printed, and then
      with an octal escape of a value no byte has. */
  predicate BreaksAfter(text: string, index: nat, units: seq<Unit>, value: nat) {
    && AllPrintable(units) && StartsWithAt(text, Texts(units), index)
    && EscapeAt(text, index + |Texts(units)|, value)
  }

  predicate EscapeAt(text: string, index: nat, value: nat) {
    index < |text| && text[index] == '\\' && OctalEscape(text, index + 1) == Some(value) && value > 255
  }

  lemma TextsCons(text: string, u: Unit, units: seq<Unit>, index: nat)
    ensures StartsWithAt(text, Texts([u] + units), index)
            <==> StartsWithAt(text, Text(u), index) && StartsWithAt(text, Texts(units), index + |Text(u)|)
    ensures |Texts([u] + units)| == |Text(u)| + |Texts(units)|
  {
    assert ([u] + units)[1..] == units;
    hide Text, StartsWithAt;
    StartsWithConcat(text, Text(u), Texts(units), index);
  }

  lemma {:induction false} BrokenFails(text: string, index: nat, decoded: seq<Byte>, units: seq<Unit>, value: nat)
    requires BreaksAfter(text, index, units, value)
    ensures UnquoteFrom(text, index, decoded) == Err(ByteTooLarge(value))
    decreases |units|
  {
    hide Text, Printable, Meaning, StartsWithAt, UnquoteFrom, EscapeAt;
    if units == [] {
      assert |Texts(units)| == 0;
      EscapeFails(text, index, decoded, value);
    } else {
      assert units == [units[0]] + units[1..];
      TextsCons(text, units[0], units[1..], index);
      hide Texts;
      UnquoteUnit(text, index, decoded, units[0]);
      BrokenFails(text, index + |Text(units[0])|, decoded + Meaning(units[0]), units[1..], value);
    }
  }

  lemma EscapeFails(text: string, index: nat, decoded: seq<Byte>, value: nat)
    requires EscapeAt(text, index, value)
    ensures UnquoteFrom(text, index, decoded) == Err(ByteTooLarge(value))
  {
    assert NamedEscape(text[index + 1]) == None;
  }

  /** The piece that the loop reads at `index`, when it reads one. */
  lemma NextUnit(text: string, index: nat) returns (u: Unit)
    requires index < |text| && text[index] != '"'
    requires text[index] == '\\' && !(index + 1 < |text| && NamedEscape(text[index + 1]).Some?) ==>
               OctalEscape(text, index + 1).Some? && OctalEscape(text, index + 1).value <= 255
    ensures Printable(u) && StartsWithAt(text, Text(u), index)
  {
    hide OctalEscape;
    if text[index] != '\\' {
      u := Plain(text[index]);
    } else if index + 1 < |text| && NamedEscape(text[index + 1]).Some? {
      u := Named(text[index + 1]);
    } else {
      u := Octal(OctalEscape(text, index + 1).value);
      OctalIsDigits(text, index + 1, u.b);
      hide NamedEscape, OctalDigit;
    }
  }

  lemma {:induction false} FailureBreaks(text: string, index: nat, decoded: seq<Byte>, value: nat) returns (units: seq<Unit>)
    requires UnquoteFrom(text, index, decoded) == Err(ByteTooLarge(value))
    ensures BreaksAfter(text, index, units, value)
    decreases |text| - index
  {
    hide Utf8, StartsWithAt, Text, NamedEscape, OctalEscape;
    if text[index] == '\\' && !(index + 1 < |text| && NamedEscape(text[index + 1]).Some?)
       && OctalEscape(text, index + 1).Some? && OctalEscape(text, index + 1).value > 255 {
      units := [];
      NothingStarts(text, index);
    } else {
      var u := NextUnit(text, index);
      UnquoteUnit(text, index, decoded, u);
      var rest := FailureBreaks(text, index + |Text(u)|, decoded + Meaning(u), value);
      units := [u] + rest;
      TextsCons(text, u, rest, index);
    }
  }

  lemma NothingStarts(text: string, index: nat)
    requires index <= |text|
    ensures StartsWithAt(text, Texts([]), index)
  {}

  /** The unquoter fails with Python's `ValueError` exactly when, after pieces that are all well
      formed, the text goes on with an octal escape above 377. */
  lemma TooLargeExactly(text: string, value: nat)
    ensures UnquoteFrom(text, 1, []) == Err(ByteTooLarge(value)) <==> exists units :: BreaksAfter(text, 1, units, value)
  {
    if UnquoteFrom(text, 1, []) == Err(ByteTooLarge(value)) {
      var units := FailureBreaks(text, 1, [], value);
    }
    forall units | BreaksAfter(text, 1, units, value)
      ensures UnquoteFrom(text, 1, []) == Err(ByteTooLarge(value))
    {
      BrokenFails(text, 1, [], units, value);
    }
  }

  /** Such a header: `diff --git "\400"`. */
  lemma ByteAbove377Fails(d: Decoder)
    ensures PathOf(FILE_HEADER + "\"\\400\"", true, d) == Err(ByteTooLarge(256))
  {
    var rest := "\"\\400\"";
    assert (FILE_HEADER + rest)[|FILE_HEADER|..] == rest;
    EscapeFails(rest, 1, [], 256);
  }
}
