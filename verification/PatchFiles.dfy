/** A whole Git patch: its file sections and their hunks. */
module PatchFiles {
  import opened PyText
  import opened Results
  import opened Seqs
  import opened Patches
  import opened PatchSplit
  import HeaderPath

  const HUNK_MARKER := "@@ "

  // ---------------------------------------------------------------- cutting at line starts

  /** A line of the text starts with the marker at `i`. */
  predicate LineStarts(text: string, marker: string, i: nat) {
    StartsWithAt(text, marker, i) && (i == 0 || (i <= |text| && text[i - 1] == '\n'))
  }

  /** `re.split(r"^(?=marker)", text, flags=re.MULTILINE)`, without the empty piece before a marker
      that starts the text: the piece that starts at `from`, then those after it. */
  function Pieces(text: string, marker: string, from: nat, i: nat): (r: seq<string>)
    requires from <= i && from <= |text|
    ensures r != []
    decreases |text| - i
  {
    if i >= |text| then [text[from..]]
    else if i > from && LineStarts(text, marker, i) then [text[from..i]] + Pieces(text, marker, i, i + 1)
    else Pieces(text, marker, from, i + 1)
  }

  function Concat(pieces: seq<string>): string {
    if pieces == [] then "" else pieces[0] + Concat(pieces[1..])
  }

  /** Cutting loses nothing. */
  lemma {:induction false} PiecesAreLossless(text: string, marker: string, from: nat, i: nat)
    requires from <= i && from <= |text|
    ensures Concat(Pieces(text, marker, from, i)) == text[from..]
    decreases |text| - i
  {
    hide LineStarts;
    if i >= |text| {
      assert [text[from..]][1..] == [] && text[from..] + "" == text[from..];
    } else if i > from && LineStarts(text, marker, i) {
      PiecesAreLossless(text, marker, i, i + 1);
      var rest := Pieces(text, marker, i, i + 1);
      assert ([text[from..i]] + rest)[1..] == rest;
      assert text[from..i] + text[i..] == text[from..];
    } else {
      PiecesAreLossless(text, marker, from, i + 1);
    }
  }

  /** The piece has no line but its first that starts with the marker. */
  predicate OneStart(piece: string, marker: string) {
    forall k | 0 < k < |piece| :: !LineStarts(piece, marker, k)
  }

  lemma StartInSlice(text: string, marker: string, from: nat, end: nat, k: nat)
    requires from < k < end <= |text| && LineStarts(text[from..end], marker, k - from)
    ensures LineStarts(text, marker, k)
  {
    assert forall j | k - 1 <= j < end :: text[j] == text[from..end][j - from];
  }

  /** Each piece after the first starts with the marker, and no piece holds two line starts. */
  ghost predicate WellCut(pieces: seq<string>, marker: string) {
    && (forall k | 0 <= k < |pieces| :: OneStart(pieces[k], marker))
    && (forall k | 0 < k < |pieces| :: StartsWithAt(pieces[k], marker, 0))
  }

  lemma WellCutCons(piece: string, rest: seq<string>, marker: string)
    requires OneStart(piece, marker) && WellCut(rest, marker) && rest != [] && StartsWithAt(rest[0], marker, 0)
    ensures WellCut([piece] + rest, marker)
  {
    hide OneStart, StartsWithAt;
    var all := [piece] + rest;
    assert forall k | 1 <= k < |all| :: all[k] == rest[k - 1];
  }

  predicate OneLine(marker: string) {
    forall k | 0 <= k < |marker| :: marker[k] != '\n'
  }

  lemma {:induction false} PiecesAreWellCut(text: string, marker: string, from: nat, i: nat)
    requires from <= i && from <= |text| && OneLine(marker)
    requires forall k | from < k < i && k < |text| :: !LineStarts(text, marker, k)
    ensures WellCut(Pieces(text, marker, from, i), marker)
    ensures StartsWithAt(text, marker, from) ==> StartsWithAt(Pieces(text, marker, from, i)[0], marker, 0)
    decreases |text| - i
  {
    hide LineStarts, StartsWithAt, WellCut, OneStart;
    if i >= |text| {
      assert text[from..|text|] == text[from..];
      LastPiece(text, marker, from, |text|);
      OnePiece(text[from..], marker);
      if StartsWithAt(text, marker, from) { SuffixStarts(text, marker, from); }
    } else if i > from && LineStarts(text, marker, i) {
      StartAt(text, marker, i);
      PiecesAreWellCut(text, marker, i, i + 1);
      LastPiece(text, marker, from, i);
      WellCutCons(text[from..i], Pieces(text, marker, i, i + 1), marker);
      if StartsWithAt(text, marker, from) { MarkerFits(text, marker, from, i); }
    } else {
      PiecesAreWellCut(text, marker, from, i + 1);
    }
  }

  lemma OnePiece(piece: string, marker: string)
    requires OneStart(piece, marker)
    ensures WellCut([piece], marker)
  {}

  lemma SuffixStarts(text: string, marker: string, from: nat)
    requires StartsWithAt(text, marker, from)
    ensures StartsWithAt(text[from..], marker, 0)
  {
    assert forall k | 0 <= k < |marker| :: text[from..][k] == text[from + k];
  }

  lemma NoNewlineInside(text: string, marker: string, from: nat, k: nat)
    requires OneLine(marker) && StartsWithAt(text, marker, from) && k < |marker|
    ensures text[from + k] != '\n'
  {
    assert text[from + k] == marker[k];
  }

  lemma MarkerFits(text: string, marker: string, from: nat, i: nat)
    requires from < i <= |text| && OneLine(marker) && StartsWithAt(text, marker, from) && LineStarts(text, marker, i)
    ensures StartsWithAt(text[from..i], marker, 0)
  {
    assert text[i - 1] == '\n';
    if from + |marker| >= i { NoNewlineInside(text, marker, from, i - 1 - from); }
    assert forall k | 0 <= k < |marker| :: text[from..i][k] == text[from + k];
  }

  lemma StartAt(text: string, marker: string, i: nat)
    requires LineStarts(text, marker, i)
    ensures StartsWithAt(text, marker, i)
  {}

  lemma LastPiece(text: string, marker: string, from: nat, end: nat)
    requires from <= end <= |text| && forall k | from < k < end :: !LineStarts(text, marker, k)
    ensures OneStart(text[from..end], marker)
  {
    hide LineStarts;
    forall k | 0 < k < |text[from..end]|
      ensures !LineStarts(text[from..end], marker, k)
    {
      if LineStarts(text[from..end], marker, k) { StartInSlice(text, marker, from, end, from + k); }
    }
  }

  // ---------------------------------------------------------------- parsing

  datatype FilePatch = FilePatch(path: string, header: string, hunks: seq<string>) {
    function Text(): string { header + Concat(hunks) }
  }

  datatype ParseError = NoHeader | BadPath(error: HeaderPath.PathError)

  function FirstLine(text: string): string {
    text[..LineEnd(text, 0)]
  }

  /** One file's section: its path, its header and its hunks. */
  function ParseSection(section: string, d: HeaderPath.Decoder): Result<FilePatch, ParseError> {
    var pieces := Pieces(section, HUNK_MARKER, 0, 0);
    match HeaderPath.PathOf(FirstLine(pieces[0]), true, d)
    case Err(e) => Err(BadPath(e))
    case Ok(path) => Ok(FilePatch(path, pieces[0], pieces[1..]))
  }

  function ParseSections(sections: seq<string>, k: nat, d: HeaderPath.Decoder): Result<seq<FilePatch>, ParseError>
    requires k <= |sections|
    decreases |sections| - k
  {
    if k == |sections| then Ok([])
    else
      match ParseSection(sections[k], d)
      case Err(e) => Err(e)
      case Ok(file) =>
        match ParseSections(sections, k + 1, d)
        case Err(e) => Err(e)
        case Ok(rest) => Ok([file] + rest)
  }

  /** `parse_patch`. */
  function ParsePatch(text: string, d: HeaderPath.Decoder): Result<seq<FilePatch>, ParseError> {
    if text == "" then Ok([])
    else if !StartsWithAt(text, HeaderPath.FILE_HEADER, 0) then Err(NoHeader)
    else ParseSections(Pieces(text, HeaderPath.FILE_HEADER, 0, 0), 0, d)
  }

  function PatchText(files: seq<FilePatch>): string {
    if files == [] then "" else files[0].Text() + PatchText(files[1..])
  }

  lemma SectionIsLossless(section: string, d: HeaderPath.Decoder)
    requires ParseSection(section, d).Ok?
    ensures var file := ParseSection(section, d).value;
            && file.Text() == section
            && WellCut([file.header] + file.hunks, HUNK_MARKER)
            && HeaderPath.PathOf(FirstLine(file.header), true, d) == Ok(file.path)
  {
    hide HeaderPath.PathOf, WellCut;
    var pieces := Pieces(section, HUNK_MARKER, 0, 0);
    PiecesAreLossless(section, HUNK_MARKER, 0, 0);
    assert OneLine(HUNK_MARKER);
    PiecesAreWellCut(section, HUNK_MARKER, 0, 0);
    assert [pieces[0]] + pieces[1..] == pieces && section[0..] == section;
  }

  /** A parsed file: its hunks start where their lines start with the marker, and its path is the
      one its first line names. */
  ghost predicate WellParsed(file: FilePatch, d: HeaderPath.Decoder) {
    && WellCut([file.header] + file.hunks, HUNK_MARKER)
    && HeaderPath.PathOf(FirstLine(file.header), true, d) == Ok(file.path)
    && OneStart(file.Text(), HeaderPath.FILE_HEADER)
    && StartsWithAt(file.Text(), HeaderPath.FILE_HEADER, 0)
  }

  lemma {:induction false} SectionsAreLossless(sections: seq<string>, k: nat, d: HeaderPath.Decoder)
    requires k <= |sections| && ParseSections(sections, k, d).Ok?
    requires forall j | k <= j < |sections| ::
               OneStart(sections[j], HeaderPath.FILE_HEADER) && StartsWithAt(sections[j], HeaderPath.FILE_HEADER, 0)
    ensures var files := ParseSections(sections, k, d).value;
            && |files| == |sections| - k
            && PatchText(files) == Concat(sections[k..])
            && forall j | 0 <= j < |files| :: WellParsed(files[j], d)
    decreases |sections| - k
  {
    hide ParseSection, OneStart, StartsWithAt, WellCut, HeaderPath.PathOf;
    if k < |sections| {
      SectionsAreLossless(sections, k + 1, d);
      SectionIsLossless(sections[k], d);
      var file := ParseSection(sections[k], d).value;
      var rest := ParseSections(sections, k + 1, d).value;
      assert ([file] + rest)[1..] == rest && sections[k..][1..] == sections[k + 1..];
      assert WellParsed(file, d);
    }
  }

  /** Parsing is lossless: the sections of the files, put together, are the patch; each file is one
      `diff --git` section, cut into its header and its hunks at every `@@ ` line start and nowhere else. */
  lemma ParseIsLossless(text: string, d: HeaderPath.Decoder)
    requires ParsePatch(text, d).Ok?
    ensures var files := ParsePatch(text, d).value;
            PatchText(files) == text && forall k | 0 <= k < |files| :: WellParsed(files[k], d)
  {
    if text != "" {
      hide ParseSections, StartsWithAt, WellParsed;
      var sections := Pieces(text, HeaderPath.FILE_HEADER, 0, 0);
      PiecesAreLossless(text, HeaderPath.FILE_HEADER, 0, 0);
      assert OneLine(HeaderPath.FILE_HEADER);
      PiecesAreWellCut(text, HeaderPath.FILE_HEADER, 0, 0);
      SectionsAreLossless(sections, 0, d);
      assert sections[0..] == sections && text[0..] == text;
    }
  }
}
