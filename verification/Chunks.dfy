/** Chunks: replacements of disjoint ranges of a sequence, and what they make of it. */
module Chunks {
  import opened PyText
  import opened Seqs

  datatype Chunk<T> = Chunk(origIndex: nat, delLines: seq<T>, insLines: seq<T>) {
    /** The first line of the file after the lines this chunk deletes. */
    function End(): nat { origIndex + |delLines| }
  }

  function Shift<T>(chunks: seq<Chunk<T>>, at: nat): (r: seq<Chunk<T>>)
    ensures |r| == |chunks|
  {
    seq(|chunks|, k requires 0 <= k < |chunks| => chunks[k].(origIndex := chunks[k].origIndex + at))
  }

  /** The chunks delete disjoint ranges of `[lo, hi)`, in order. */
  predicate Placed<T>(chunks: seq<Chunk<T>>, lo: nat, hi: nat) {
    if chunks == [] then lo <= hi
    else
      var last := chunks[|chunks| - 1];
      Placed(chunks[..|chunks| - 1], lo, last.origIndex) && last.End() <= hi
  }

  /** `part` lies in `lines` from `at` on. */
  ghost predicate LiesAt<T>(lines: seq<T>, part: seq<T>, at: nat) {
    at + |part| <= |lines| && forall k | 0 <= k < |part| :: lines[at + k] == part[k]
  }

  /** The image of `base[..upto]` under chunks that all end at or before `upto`. */
  function Image<T>(base: seq<T>, chunks: seq<Chunk<T>>, upto: nat): seq<T> {
    if chunks == [] then Slice(base, 0, upto)
    else
      var last := chunks[|chunks| - 1];
      Image(base, chunks[..|chunks| - 1], last.origIndex) + last.insLines + Slice(base, last.End(), upto)
  }

  lemma NothingLiesAnywhere<T>(lines: seq<T>, at: nat)
    requires at <= |lines|
    ensures LiesAt(lines, [], at)
  {}

  lemma {:induction false} PlacedWiden<T>(chunks: seq<Chunk<T>>, lo: nat, hi: nat, hi': nat)
    requires Placed(chunks, lo, hi) && hi <= hi'
    ensures Placed(chunks, lo, hi')
  {}

  lemma LiesAtGrows<T>(context: seq<T>, part: seq<T>, at: nat, line: T)
    requires LiesAt(context, part, at) && at + |part| == |context|
    ensures LiesAt(context + [line], part + [line], at)
  {}

  lemma LiesAtSplit<T>(lines: seq<T>, a: seq<T>, b: seq<T>, at: nat)
    requires LiesAt(lines, a + b, at)
    ensures LiesAt(lines, a, at) && LiesAt(lines, b, at + |a|)
  {
    forall k | 0 <= k < |a|
      ensures lines[at + k] == a[k]
    {
      assert (a + b)[k] == a[k];
    }
    forall k | 0 <= k < |b|
      ensures lines[at + |a| + k] == b[k]
    {
      assert lines[at + (|a| + k)] == (a + b)[|a| + k];
    }
  }

  lemma {:induction false} PlacedConcat<T>(a: seq<Chunk<T>>, b: seq<Chunk<T>>, lo: nat, mid: nat, at: nat, width: nat)
    requires Placed(a, lo, mid) && mid <= at && Placed(b, 0, width)
    ensures Placed(a + Shift(b, at), lo, at + width)
    decreases |b|
  {
    if b == [] {
      assert a + Shift(b, at) == a;
      PlacedWiden(a, lo, mid, at + width);
    } else {
      var init := b[..|b| - 1];
      PlacedConcat(a, init, lo, mid, at, b[|b| - 1].origIndex);
      var all := a + Shift(b, at);
      assert all[..|all| - 1] == a + Shift(init, at);
    }
  }

  lemma {:induction false} PlacedBetween<T>(chunks: seq<Chunk<T>>, lo: nat, hi: nat, k: nat)
    requires Placed(chunks, lo, hi) && k < |chunks|
    ensures lo <= chunks[k].origIndex && chunks[k].End() <= hi
    ensures k > 0 ==> chunks[k - 1].End() <= chunks[k].origIndex
    decreases |chunks|
  {
    var n := |chunks| - 1;
    var init := chunks[..n];
    if k < n {
      PlacedBetween(init, lo, chunks[n].origIndex, k);
    } else if n > 0 {
      PlacedBetween(init, lo, chunks[n].origIndex, n - 1);
    }
  }

  lemma {:induction false} ImagePrefix<T>(a: seq<T>, b: seq<T>, chunks: seq<Chunk<T>>, upto: nat)
    requires a <= b && upto <= |a| && Placed(chunks, 0, upto)
    ensures Image(b, chunks, upto) == Image(a, chunks, upto)
    decreases |chunks|
  {
    if chunks != [] {
      ImagePrefix(a, b, chunks[..|chunks| - 1], chunks[|chunks| - 1].origIndex);
    }
  }

  lemma ImageExtend<T>(base: seq<T>, chunks: seq<Chunk<T>>, mid: nat, upto: nat)
    requires Placed(chunks, 0, mid) && mid <= upto <= |base|
    ensures Image(base, chunks, upto) == Image(base, chunks, mid) + base[mid..upto]
  {
    var from := if chunks == [] then 0 else chunks[|chunks| - 1].End();
    assert Slice(base, from, upto) == Slice(base, from, mid) + base[mid..upto];
  }

  lemma LiesAtSlice<T>(base: seq<T>, context: seq<T>, at: nat, lo: nat, hi: nat)
    requires LiesAt(base, context, at) && lo <= hi <= |context|
    ensures base[at + lo..at + hi] == context[lo..hi]
  {
    forall k | 0 <= k < hi - lo
      ensures base[at + lo..at + hi][k] == context[lo..hi][k]
    {
      assert base[at + (lo + k)] == context[lo + k];
    }
  }

  lemma ShiftLast<T>(a: seq<Chunk<T>>, b: seq<Chunk<T>>, at: nat)
    requires b != []
    ensures var n, all := |b| - 1, a + Shift(b, at);
            && all[..|all| - 1] == a + Shift(b[..n], at)
            && all[|all| - 1] == b[n].(origIndex := b[n].origIndex + at)
  {
    assert Shift(b, at)[..|b| - 1] == Shift(b[..|b| - 1], at);
  }

  lemma ShiftNone<T>(a: seq<Chunk<T>>, at: nat)
    ensures a + Shift([], at) == a
  {}

  lemma LiesAtStart<T>(base: seq<T>, context: seq<T>, at: nat, upto: nat)
    requires LiesAt(base, context, at) && upto <= |context|
    ensures at + upto <= |base| && base[at..at + upto] == Slice(context, 0, upto)
  {
    LiesAtSlice(base, context, at, 0, upto);
  }

  lemma ImageShiftedNone<T>(base: seq<T>, a: seq<Chunk<T>>, mid: nat, context: seq<T>, at: nat, upto: nat)
    requires Placed(a, 0, mid) && mid <= at && upto <= |context|
    requires LiesAt(base, context, at)
    ensures Image(base, a + Shift([], at), at + upto) == Image(base, a, at) + Image(context, [], upto)
  {
    LiesAtStart(base, context, at, upto);
    assert Image(context, [], upto) == Slice(context, 0, upto);
    hide LiesAt, Placed, Shift, Image, Slice;
    ShiftNone(a, at);
    PlacedWiden(a, 0, mid, at);
    ImageExtend(base, a, at, at + upto);
  }

  lemma {:induction false} ImageShifted<T>(base: seq<T>, a: seq<Chunk<T>>, mid: nat, context: seq<T>, b: seq<Chunk<T>>, at: nat, upto: nat)
    requires Placed(a, 0, mid) && mid <= at && Placed(b, 0, upto) && upto <= |context|
    requires LiesAt(base, context, at)
    ensures Image(base, a + Shift(b, at), at + upto) == Image(base, a, at) + Image(context, b, upto)
    decreases |b|
  {
    hide Placed, Image, Shift;
    if b == [] {
      ImageShiftedNone(base, a, mid, context, at, upto);
    } else {
      var n := |b| - 1;
      var last, all := b[n], a + Shift(b, at);
      UnfoldPlaced(b, 0, upto);
      ImageShifted(base, a, mid, context, b[..n], at, last.origIndex);
      LiesAtSlice(base, context, at, last.End(), upto);
      ShiftLast(a, b, at);
      var head, body, ins, tail := Image(base, a, at), Image(context, b[..n], last.origIndex), last.insLines, context[last.End()..upto];
      calc {
        Image(base, all, at + upto);
        { ImageLast(base, all, at + upto); }
        head + body + ins + tail;
        { Regroup(head, body, ins); Regroup(head, body + ins, tail); }
        head + (body + ins + tail);
        { ImageLast(context, b, upto); }
        head + Image(context, b, upto);
      }
    }
  }

  lemma UnfoldPlaced<T>(chunks: seq<Chunk<T>>, lo: nat, hi: nat)
    requires chunks != [] && Placed(chunks, lo, hi)
    ensures var n := |chunks| - 1; Placed(chunks[..n], lo, chunks[n].origIndex) && chunks[n].End() <= hi
  {}

  lemma ImageLast<T>(base: seq<T>, chunks: seq<Chunk<T>>, upto: nat)
    requires chunks != [] && chunks[|chunks| - 1].End() <= upto <= |base|
    ensures var n := |chunks| - 1;
            Image(base, chunks, upto)
            == Image(base, chunks[..n], chunks[n].origIndex) + chunks[n].insLines + base[chunks[n].End()..upto]
  {}

  // ---------------------------------------------------------------- conservation

  /** Where a line of the result comes from. */
  datatype Origin = FromFile(line: nat) | FromDiff(chunk: nat, line: nat)

  function FileRun(lo: nat, hi: nat): seq<Origin>
    requires lo <= hi
  {
    seq(hi - lo, i requires 0 <= i => FromFile(lo + i))
  }

  function DiffRun(chunk: nat, length: nat): seq<Origin> {
    seq(length, j requires 0 <= j => FromDiff(chunk, j))
  }

  function Trace<T>(chunks: seq<Chunk<T>>, upto: nat): seq<Origin>
    requires Placed(chunks, 0, upto)
  {
    if chunks == [] then FileRun(0, upto)
    else
      var n := |chunks| - 1;
      Trace(chunks[..n], chunks[n].origIndex) + DiffRun(n, |chunks[n].insLines|) + FileRun(chunks[n].End(), upto)
  }

  predicate Valid<T>(base: seq<T>, chunks: seq<Chunk<T>>, o: Origin) {
    match o
    case FromFile(i) => i < |base|
    case FromDiff(k, j) => k < |chunks| && j < |chunks[k].insLines|
  }

  function Read<T>(base: seq<T>, chunks: seq<Chunk<T>>, o: Origin): T
    requires Valid(base, chunks, o)
  {
    match o
    case FromFile(i) => base[i]
    case FromDiff(k, j) => chunks[k].insLines[j]
  }

  predicate Deleted<T>(chunks: seq<Chunk<T>>, line: nat) {
    exists k | 0 <= k < |chunks| :: chunks[k].origIndex <= line < chunks[k].End()
  }

  /** `trace` names, place by place, where the lines of `image` come from. */
  ghost predicate Explains<T>(base: seq<T>, chunks: seq<Chunk<T>>, trace: seq<Origin>, image: seq<T>) {
    && |trace| == |image|
    && forall x | 0 <= x < |trace| :: Valid(base, chunks, trace[x]) && Read(base, chunks, trace[x]) == image[x]
  }

  lemma ExplainsConcat<T>(base: seq<T>, chunks: seq<Chunk<T>>, t: seq<Origin>, a: seq<T>, u: seq<Origin>, b: seq<T>)
    requires Explains(base, chunks, t, a) && Explains(base, chunks, u, b)
    ensures Explains(base, chunks, t + u, a + b)
  {}

  lemma ExplainsMoreChunks<T>(base: seq<T>, chunks: seq<Chunk<T>>, n: nat, t: seq<Origin>, a: seq<T>)
    requires n <= |chunks| && Explains(base, chunks[..n], t, a)
    ensures Explains(base, chunks, t, a)
  {
    forall x | 0 <= x < |t|
      ensures Valid(base, chunks, t[x]) && Read(base, chunks, t[x]) == a[x]
    {
      assert Valid(base, chunks[..n], t[x]);
    }
  }

  lemma {:induction false} TraceReads<T>(base: seq<T>, chunks: seq<Chunk<T>>, upto: nat)
    requires Placed(chunks, 0, upto) && upto <= |base|
    ensures Explains(base, chunks, Trace(chunks, upto), Image(base, chunks, upto))
    decreases |chunks|
  {
    if chunks != [] {
      var n := |chunks| - 1;
      var init, last := chunks[..n], chunks[n];
      TraceReads(base, init, last.origIndex);
      ExplainsMoreChunks(base, chunks, n, Trace(init, last.origIndex), Image(base, init, last.origIndex));
      var run, tail := DiffRun(n, |last.insLines|), FileRun(last.End(), upto);
      assert Explains(base, chunks, run, last.insLines);
      assert Explains(base, chunks, tail, Slice(base, last.End(), upto));
      hide Explains;
      ExplainsConcat(base, chunks, Trace(init, last.origIndex), Image(base, init, last.origIndex), run, last.insLines);
      ExplainsConcat(base, chunks, Trace(init, last.origIndex) + run, Image(base, init, last.origIndex) + last.insLines,
                     tail, Slice(base, last.End(), upto));
    }
  }

  /** The order of two lines of the result: file lines and inserted lines keep their own order,
      and a chunk's insertions stand between the file lines before and after its place. */
  predicate InOrder<T>(chunks: seq<Chunk<T>>, a: Origin, b: Origin) {
    match (a, b)
    case (FromFile(i), FromFile(j)) => i < j
    case (FromDiff(k, i), FromDiff(l, j)) => k < l || (k == l && i < j)
    case (FromFile(i), FromDiff(k, _)) => k < |chunks| && i < chunks[k].origIndex
    case (FromDiff(k, _), FromFile(i)) => k < |chunks| && chunks[k].End() <= i
  }

  lemma {:induction false} TraceOrdered<T>(chunks: seq<Chunk<T>>, upto: nat)
    requires Placed(chunks, 0, upto)
    ensures forall x | 0 <= x < |Trace(chunks, upto)| ::
              match Trace(chunks, upto)[x] case FromFile(i) => i < upto case FromDiff(k, _) => k < |chunks| && chunks[k].End() <= upto
    ensures forall x, y | 0 <= x < y < |Trace(chunks, upto)| ::
              InOrder(chunks, Trace(chunks, upto)[x], Trace(chunks, upto)[y])
    decreases |chunks|
  {
    if chunks != [] {
      var n := |chunks| - 1;
      var init := chunks[..n];
      TraceOrdered(init, chunks[n].origIndex);
      var head := Trace(init, chunks[n].origIndex);
      var t := Trace(chunks, upto);
      forall x, y | 0 <= x < y < |t|
        ensures InOrder(chunks, t[x], t[y])
      {
        if y < |head| {
          assert InOrder(init, head[x], head[y]);
        }
      }
    }
  }

  lemma {:induction false} TraceMembers<T>(chunks: seq<Chunk<T>>, upto: nat, o: Origin)
    requires Placed(chunks, 0, upto)
    ensures o in Trace(chunks, upto) <==>
            match o
            case FromFile(i) => i < upto && !Deleted(chunks, i)
            case FromDiff(k, j) => k < |chunks| && j < |chunks[k].insLines|
    decreases |chunks|
  {
    if chunks == [] {
      if o.FromFile? && o.line < upto { assert FileRun(0, upto)[o.line] == o; }
    } else {
      var n := |chunks| - 1;
      var init, last := chunks[..n], chunks[n];
      TraceMembers(init, last.origIndex, o);
      var run := DiffRun(n, |last.insLines|);
      var tail := FileRun(last.End(), upto);
      match o
      case FromDiff(k, j) =>
        if k == n && j < |last.insLines| { assert run[j] == o; }
      case FromFile(i) =>
        if last.End() <= i < upto { assert tail[i - last.End()] == o; }
        forall k | 0 <= k < n
          ensures chunks[k].End() <= last.origIndex
        {
          PlacedBetween(init, 0, last.origIndex, k);
          assert init[k] == chunks[k];
        }
        assert Deleted(chunks, i) <==> Deleted(init, i) || last.origIndex <= i < last.End() by {
          if Deleted(init, i) {
            var k :| 0 <= k < n && init[k].origIndex <= i < init[k].End();
            assert chunks[k] == init[k];
          }
        }
    }
  }

  function Insertions<T>(chunks: seq<Chunk<T>>): nat {
    if chunks == [] then 0 else Insertions(chunks[..|chunks| - 1]) + |chunks[|chunks| - 1].insLines|
  }

  function Deletions<T>(chunks: seq<Chunk<T>>): nat {
    if chunks == [] then 0 else Deletions(chunks[..|chunks| - 1]) + |chunks[|chunks| - 1].delLines|
  }

  lemma {:induction false} ImageLength<T>(base: seq<T>, chunks: seq<Chunk<T>>, upto: nat)
    requires Placed(chunks, 0, upto) && upto <= |base|
    ensures |Image(base, chunks, upto)| + Deletions(chunks) == upto + Insertions(chunks)
    decreases |chunks|
  {
    if chunks != [] {
      ImageLength(base, chunks[..|chunks| - 1], chunks[|chunks| - 1].origIndex);
    }
  }

  lemma {:induction false} PlacedCons<T>(chunks: seq<Chunk<T>>, lo: nat, hi: nat)
    requires chunks != [] && lo <= chunks[0].origIndex && Placed(chunks[1..], chunks[0].End(), hi)
    ensures Placed(chunks, lo, hi)
    decreases |chunks|
  {
    var n := |chunks| - 1;
    if n == 0 {
      assert chunks[..0] == [] && chunks[1..] == [];
    } else {
      assert chunks[1..][..n - 1] == chunks[..n][1..] && chunks[1..][n - 1] == chunks[n];
      PlacedCons(chunks[..n], lo, chunks[n].origIndex);
    }
  }

  /** A chunk's insertions stand in the image right after the image of what is above the chunk. */
  lemma {:induction false} ChunkLands<T>(base: seq<T>, chunks: seq<Chunk<T>>, upto: nat, i: nat)
    requires i < |chunks| && Placed(chunks, 0, upto) && upto <= |base|
    ensures LiesAt(Image(base, chunks, upto), chunks[i].insLines, |Image(base, chunks[..i], chunks[i].origIndex)|)
    decreases |chunks|
  {
    hide Image, Placed, LiesAt;
    var n := |chunks| - 1;
    var init, last := chunks[..n], chunks[n];
    UnfoldPlaced(chunks, 0, upto);
    ImageLast(base, chunks, upto);
    var above, below := Image(base, init, last.origIndex), base[last.End()..upto];
    if i < n {
      ChunkLands(base, init, last.origIndex, i);
      assert init[..i] == chunks[..i];
      LiesAtWiden(above, chunks[i].insLines, |Image(base, chunks[..i], chunks[i].origIndex)|, last.insLines);
      LiesAtWiden(above + last.insLines, chunks[i].insLines, |Image(base, chunks[..i], chunks[i].origIndex)|, below);
    } else {
      LiesAfter(above, last.insLines, below);
    }
  }

  /** The image starts with the image of what is above a chunk, and the chunk's insertions. */
  lemma {:induction false} ImageDownTo<T>(base: seq<T>, chunks: seq<Chunk<T>>, upto: nat, i: nat)
    requires i < |chunks| && Placed(chunks, 0, upto) && upto <= |base|
    ensures Image(base, chunks[..i], chunks[i].origIndex) + chunks[i].insLines <= Image(base, chunks, upto)
    decreases |chunks|
  {
    hide Image, Placed;
    var n := |chunks| - 1;
    UnfoldPlaced(chunks, 0, upto);
    ImageLast(base, chunks, upto);
    if i < n {
      ImageDownTo(base, chunks[..n], chunks[n].origIndex, i);
      assert chunks[..n][..i] == chunks[..i];
    }
  }

  lemma {:induction false} PlacedPrefix<T>(chunks: seq<Chunk<T>>, lo: nat, hi: nat, i: nat)
    requires Placed(chunks, lo, hi) && i < |chunks|
    ensures Placed(chunks[..i], lo, chunks[i].origIndex)
    decreases |chunks|
  {
    var n := |chunks| - 1;
    if i < n {
      PlacedPrefix(chunks[..n], lo, chunks[n].origIndex, i);
      assert chunks[..n][..i] == chunks[..i];
    }
  }

  /** Where the next chunk does not start right away, the line after a chunk's insertions is the
      line of the file after its deletions, or the image ends there. */
  lemma AfterChunk<T>(base: seq<T>, chunks: seq<Chunk<T>>, i: nat)
    requires i < |chunks| && Placed(chunks, 0, |base|)
    requires i + 1 == |chunks| || chunks[i].End() < chunks[i + 1].origIndex
    ensures var at := |Image(base, chunks[..i], chunks[i].origIndex)| + |chunks[i].insLines|;
            var image := Image(base, chunks, |base|);
            if chunks[i].End() < |base| then at < |image| && image[at] == base[chunks[i].End()] else at == |image|
  {
    hide Image, Placed;
    var upto := if i + 1 == |chunks| then |base| else chunks[i + 1].origIndex;
    PlacedBetween(chunks, 0, |base|, i);
    if i + 1 < |chunks| {
      PlacedBetween(chunks, 0, |base|, i + 1);
      ImageDownTo(base, chunks, |base|, i + 1);
    } else {
      assert chunks[..i + 1] == chunks;
    }
    assert chunks[..i + 1][..i] == chunks[..i];
    ImageLast(base, chunks[..i + 1], upto);
  }

  lemma LiesAtWiden<T>(lines: seq<T>, part: seq<T>, at: nat, tail: seq<T>)
    requires LiesAt(lines, part, at)
    ensures LiesAt(lines + tail, part, at)
  {}

  lemma LiesAfter<T>(head: seq<T>, part: seq<T>, tail: seq<T>)
    ensures LiesAt(head + part + tail, part, |head|)
  {}
}
