/** Block structure: which kind of line is which, and how lines group into blocks. Each line
    recogniser is related to the splits its regular expression allows; the capture is the one
    that greedy matching picks. */
module Lines {
  import opened Wrappers
  import opened Chars

  predicate IsBackquote(c: Unit) { c == 0x60 }
  predicate IsHash(c: Unit) { c == 0x23 }
  predicate IsBlank(c: Unit) { c == 0x20 || c == 0x09 }
  predicate IsBullet(c: Unit) { c == 0x2D || c == 0x2A }
  predicate IsLangUnit(c: Unit) {
    IsLower(c) || IsUpper(c) || IsDigit(c) || c == 0x5F || c == 0x2B || c == 0x2D
  }
  predicate OneLine(s: Str) {
    forall i :: 0 <= i < |s| ==> !IsTerminator(s[i])
  }

  predicate All(s: Str, from: nat, to: nat, p: Unit -> bool)
    requires from <= to <= |s|
  {
    forall i :: from <= i < to ==> p(s[i])
  }

  // ---- fences: /^```([a-zA-Z0-9_+-]*)\s*$/ and /^```\s*$/ -----------------------------

  predicate FenceSplit(line: Str, k: int) {
    3 <= k <= |line| && All(line, 0, 3, IsBackquote) && All(line, 3, k, IsLangUnit) && All(line, k, |line|, IsSpace)
  }

  /** The language of an opening fence, empty if it names none. */
  function FenceOf(line: Str): (r: Option<Str>)
    ensures forall k :: FenceSplit(line, k) ==> r.Some? && k == 3 + |r.value|
    ensures r.Some? ==> FenceSplit(line, 3 + |r.value|) && r.value == line[3..3 + |r.value|]
  {
    if |line| >= 3 && All(line, 0, 3, IsBackquote) then
      var k := Run(line, 3, IsLangUnit);
      assert forall j :: FenceSplit(line, j) ==> j == k by {
        forall j | FenceSplit(line, j) ensures j == k {
          if j < |line| { assert IsSpace(line[j]); }
        }
      }
      if All(line, k, |line|, IsSpace) then Some(line[3..k]) else None
    else None
  }

  predicate IsFenceClose(line: Str) {
    |line| >= 3 && All(line, 0, 3, IsBackquote) && All(line, 3, |line|, IsSpace)
  }

  predicate IsCode(line: Str) { !IsFenceClose(line) }

  // ---- headings: /^(#{1,3})[ \t]+(.+)$/ -------------------------------------------------

  datatype HeadingParts = HeadingParts(level: nat, text: Str)

  predicate HeadingSplit(line: Str, h: int, b: int) {
    1 <= h <= 3 && h < b < |line| && All(line, 0, h, IsHash) && All(line, h, b, IsBlank) && OneLine(line[b..])
  }

  function HeadingOf(line: Str): (r: Option<HeadingParts>)
    ensures forall h, b :: HeadingSplit(line, h, b) ==>
      r.Some? && r.value.level == h && |r.value.text| <= |line| - b
    ensures r.Some? ==>
      var b := |line| - |r.value.text|;
      HeadingSplit(line, r.value.level, b) && r.value.text == line[b..]
  {
    var h := Run(line, 0, IsHash);
    if 1 <= h <= 3 then
      var b := Run(line, h, IsBlank);
      var cut := if b == |line| then b - 1 else b;
      if h < cut && OneLine(line[cut..]) then
        assert |line| - |line[cut..]| == cut;
        HeadingCuts(line);
        Some(HeadingParts(h, line[cut..]))
      else
        HeadingCuts(line);
        None
    else
      HeadingCuts(line);
      None
  }

  lemma HeadingCuts(line: Str)
    ensures forall h, b :: HeadingSplit(line, h, b) ==>
      && h == Run(line, 0, IsHash)
      && var e := Run(line, h, IsBlank);
         var cut := if e == |line| then e - 1 else e;
         b <= cut && OneLine(line[cut..])
  {
    forall h, b | HeadingSplit(line, h, b)
      ensures h == Run(line, 0, IsHash)
      ensures var e := Run(line, h, IsBlank);
        var cut := if e == |line| then e - 1 else e;
        b <= cut && OneLine(line[cut..])
    {
      assert line[h] != 0x23;
      var e := Run(line, h, IsBlank);
      var cut := if e == |line| then e - 1 else e;
      assert e >= b;
      OneLineSuffix(line, b, cut);
    }
  }

  lemma OneLineSuffix(line: Str, b: nat, cut: nat)
    requires b <= cut <= |line| && OneLine(line[b..])
    ensures OneLine(line[cut..])
  {
    assert forall i :: 0 <= i < |line| - cut ==> line[cut..][i] == line[b..][i + cut - b];
  }

  // ---- quotes: /^>\s?(.*)$/ ---------------------------------------------------------------

  predicate QuoteSplit(line: Str, k: int) {
    1 <= k <= 2 && k <= |line| && line[0] == 0x3E && All(line, 1, k, IsSpace) && OneLine(line[k..])
  }

  function QuoteOf(line: Str): (r: Option<Str>)
    ensures forall k :: QuoteSplit(line, k) ==> r.Some? && |r.value| <= |line| - k
    ensures r.Some? ==> QuoteSplit(line, |line| - |r.value|) && r.value == line[|line| - |r.value|..]
  {
    if line != [] && line[0] == 0x3E then
      var k := if |line| > 1 && IsSpace(line[1]) then 2 else 1;
      assert forall j :: QuoteSplit(line, j) ==> j <= k && OneLine(line[k..]) by {
        forall j | QuoteSplit(line, j) ensures j <= k && OneLine(line[k..]) {
          OneLineSuffix(line, j, k);
        }
      }
      if OneLine(line[k..]) then Some(line[k..]) else None
    else None
  }

  // ---- list items: /^(\d{1,9})\.\s+(.*)$/ and /^[-*]\s+(.*)$/ ---------------------------

  /** The end of a list marker, or 0. */
  function MarkerEnd(ordered: bool, line: Str): (m: nat)
    ensures m <= |line|
  {
    if ordered then
      var d := Run(line, 0, IsDigit);
      if 1 <= d <= 9 && d < |line| && line[d] == 0x2E then d + 1 else 0
    else if line != [] && IsBullet(line[0]) then 1
    else 0
  }

  predicate ItemSplit(ordered: bool, line: Str, k: int) {
    var m := MarkerEnd(ordered, line);
    m > 0 && m < k <= |line| && All(line, m, k, IsSpace) && OneLine(line[k..])
  }

  function ItemOf(ordered: bool, line: Str): (r: Option<Str>)
    ensures forall k :: ItemSplit(ordered, line, k) ==> r.Some? && |r.value| <= |line| - k
    ensures r.Some? ==> ItemSplit(ordered, line, |line| - |r.value|) && r.value == line[|line| - |r.value|..]
  {
    var m := MarkerEnd(ordered, line);
    if m > 0 then
      var k := Run(line, m, IsSpace);
      assert forall j :: ItemSplit(ordered, line, j) ==> j <= k && OneLine(line[k..]) by {
        forall j | ItemSplit(ordered, line, j) ensures j <= k && OneLine(line[k..]) {
          OneLineSuffix(line, j, k);
        }
      }
      if m < k && OneLine(line[k..]) then Some(line[k..]) else None
    else None
  }

  predicate IsQuote(line: Str) { QuoteOf(line).Some? }
  predicate IsOrdered(line: Str) { ItemOf(true, line).Some? }
  predicate IsUnordered(line: Str) { ItemOf(false, line).Some? }

  /** A line that starts no block of its own. */
  predicate IsProse(line: Str) {
    FenceOf(line).None? && HeadingOf(line).None? && !IsQuote(line) && !IsOrdered(line) && !IsUnordered(line)
  }

  // ---- segments --------------------------------------------------------------------------

  datatype Segment =
    | Fence(open: Str, body: seq<Str>, close: seq<Str>)
    | Head(line: Str)
    | Quote(lines: seq<Str>)
    | Items(ordered: bool, lines: seq<Str>)
    | Prose(lines: seq<Str>)

  function LinesOf(s: Segment): seq<Str> {
    match s
    case Fence(open, body, close) => [open] + body + close
    case Head(line) => [line]
    case Quote(lines) => lines
    case Items(_, lines) => lines
    case Prose(lines) => lines
  }

  datatype Kind = FenceKind | HeadKind | QuoteKind | ItemKind(ordered: bool) | ProseKind

  /** What a line starts when it is the first of a block, in the parser's order. */
  function KindOf(line: Str): Kind {
    if FenceOf(line).Some? then FenceKind
    else if HeadingOf(line).Some? then HeadKind
    else if IsQuote(line) then QuoteKind
    else if IsOrdered(line) then ItemKind(true)
    else if IsUnordered(line) then ItemKind(false)
    else ProseKind
  }

  lemma KindFits(line: Str)
    ensures match KindOf(line)
      case FenceKind => FenceOf(line).Some?
      case HeadKind => HeadingOf(line).Some?
      case QuoteKind => IsQuote(line)
      case ItemKind(ordered) => IsItem(ordered, line)
      case ProseKind => IsProse(line)
  {
  }

  predicate IsItem(ordered: bool, line: Str) { if ordered then IsOrdered(line) else IsUnordered(line) }

  /** The end of the run of lines that continue a block. */
  function RunEnd(lines: seq<Str>, i: nat, kind: Kind): (end: nat)
    requires i < |lines| && kind == KindOf(lines[i])
    ensures i < end <= |lines|
  {
    KindFits(lines[i]);
    match kind
    case FenceKind =>
      var b := Run(lines, i + 1, IsCode);
      if b < |lines| then b + 1 else b
    case HeadKind => i + 1
    case QuoteKind => Run(lines, i, IsQuote)
    case ItemKind(ordered) => Run(lines, i, if ordered then IsOrdered else IsUnordered)
    case ProseKind => Run(lines, i, IsProse)
  }

  /** The segment that starts at line `i`. */
  function SegmentAt(lines: seq<Str>, i: nat): Segment
    requires i < |lines|
  {
    var end := RunEnd(lines, i, KindOf(lines[i]));
    match KindOf(lines[i])
    case FenceKind =>
      var b := Run(lines, i + 1, IsCode);
      Fence(lines[i], lines[i + 1..b], lines[b..end])
    case HeadKind => Head(lines[i])
    case QuoteKind => Quote(lines[i..end])
    case ItemKind(ordered) => Items(ordered, lines[i..end])
    case ProseKind => Prose(lines[i..end])
  }

  function SegmentEnd(lines: seq<Str>, i: nat): (end: nat)
    requires i < |lines|
    ensures i < end <= |lines|
  {
    RunEnd(lines, i, KindOf(lines[i]))
  }

  /** Each line is of its segment's kind. */
  predicate SegmentFits(s: Segment) {
    match s
    case Fence(open, body, close) =>
      && FenceOf(open).Some? && |close| <= 1
      && (forall i :: 0 <= i < |body| ==> IsCode(body[i]))
      && (forall i :: 0 <= i < |close| ==> IsFenceClose(close[i]))
    case Head(line) => HeadingOf(line).Some?
    case Quote(lines) => forall i :: 0 <= i < |lines| ==> IsQuote(lines[i])
    case Items(ordered, lines) => forall i :: 0 <= i < |lines| ==> IsItem(ordered, lines[i])
    case Prose(lines) => forall i :: 0 <= i < |lines| ==> IsProse(lines[i])
  }

  /** A segment does not stop before a line that would continue it. */
  predicate Stops(s: Segment, next: Str) {
    match s
    case Fence(_, _, close) => close != []
    case Head(_) => true
    case Quote(_) => !IsQuote(next)
    case Items(ordered, _) => !IsItem(ordered, next)
    case Prose(_) => !IsProse(next)
  }

  lemma SegmentSpec(lines: seq<Str>, i: nat)
    requires i < |lines|
    ensures var s := SegmentAt(lines, i); var end := SegmentEnd(lines, i);
      SegmentFits(s) && LinesOf(s) == lines[i..end] && (end < |lines| ==> Stops(s, lines[end]))
  {
    hide HeadingOf, KindOf, IsQuote, IsOrdered, IsUnordered, IsProse, FenceOf, IsFenceClose;
    KindFits(lines[i]);
    var end := SegmentEnd(lines, i);
    match KindOf(lines[i]) {
      case FenceKind =>
        var b := Run(lines, i + 1, IsCode);
        assert lines[i..end] == [lines[i]] + lines[i + 1..b] + lines[b..end];
      case HeadKind =>
      case QuoteKind =>
      case ItemKind(_) =>
      case ProseKind =>
    }
  }

  function Segments(lines: seq<Str>, i: nat): seq<Segment>
    requires i <= |lines|
    decreases |lines| - i
  {
    if i == |lines| then [] else [SegmentAt(lines, i)] + Segments(lines, SegmentEnd(lines, i))
  }

  function AllLines(segs: seq<Segment>): seq<Str> {
    if segs == [] then [] else LinesOf(segs[0]) + AllLines(segs[1..])
  }

  lemma AllLinesCons(s: Segment, rest: seq<Segment>)
    ensures AllLines([s] + rest) == LinesOf(s) + AllLines(rest)
  {
    assert ([s] + rest)[1..] == rest;
  }

  /** Segmentation is a partition of the lines, in order, into fitting segments. */
  lemma {:induction false} SegmentsPartition(lines: seq<Str>, i: nat)
    requires i <= |lines|
    ensures AllLines(Segments(lines, i)) == lines[i..]
    ensures forall s :: s in Segments(lines, i) ==> SegmentFits(s) && LinesOf(s) != []
    decreases |lines| - i
  {
    hide SegmentAt, SegmentEnd, LinesOf, SegmentFits;
    if i < |lines| {
      var s := SegmentAt(lines, i);
      var next := SegmentEnd(lines, i);
      SegmentSpec(lines, i);
      SegmentsPartition(lines, next);
      AllLinesCons(s, Segments(lines, next));
      SliceSplit(lines, i, next);
    }
  }

  /** Two neighbouring segments are never parts of one block: the first would not have
      taken the line that follows it. */
  lemma {:induction false} SegmentsMaximal(lines: seq<Str>, i: nat, k: nat)
    requires i <= |lines| && k + 1 < |Segments(lines, i)|
    ensures var segs := Segments(lines, i);
      LinesOf(segs[k + 1]) != [] && Stops(segs[k], LinesOf(segs[k + 1])[0])
    decreases k
  {
    var next := SegmentEnd(lines, i);
    if k == 0 {
      SegmentSpec(lines, i);
      SegmentSpec(lines, next);
      assert Segments(lines, i)[1] == SegmentAt(lines, next);
      assert lines[next..SegmentEnd(lines, next)][0] == lines[next];
    } else {
      SegmentsMaximal(lines, next, k - 1);
      assert forall j :: 0 <= j < |Segments(lines, next)| ==> Segments(lines, i)[j + 1] == Segments(lines, next)[j];
    }
  }
}
