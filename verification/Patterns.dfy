/** The line patterns as the pieces a line is put together from, and that the recognisers find
    just these. */
module Patterns {
  import opened Wrappers
  import opened Chars
  import opened RichText
  import opened Tokens
  import opened Lines

  /** Three backticks, a language, blanks. */
  ghost predicate FenceForm(line: Str, lang: Str) {
    exists blanks: Str :: AllOf(lang, IsLangUnit) && AllOf(blanks, IsSpace)
      && line == [0x60, 0x60, 0x60] + lang + blanks
  }

  function Hashes(level: nat): Str { seq(level, _ => 0x23) }

  /** One to three hashes, blanks, a text. */
  ghost predicate HeadingForm(line: Str, level: nat, text: Str) {
    && 1 <= level <= 3 && text != [] && OneLine(text)
    && exists blanks: Str :: blanks != [] && AllOf(blanks, IsBlank) && line == Hashes(level) + blanks + text
  }

  /** An angle bracket, a blank or none, a text. */
  ghost predicate QuoteForm(line: Str, text: Str) {
    && OneLine(text)
    && exists blanks: Str :: |blanks| <= 1 && AllOf(blanks, IsSpace) && line == [0x3E] + blanks + text
  }

  /** A dash or a star, or one to nine digits and a dot. */
  predicate IsItemMarker(ordered: bool, marker: Str) {
    if ordered then
      2 <= |marker| <= 10 && AllOf(marker[..|marker| - 1], IsDigit) && marker[|marker| - 1] == 0x2E
    else marker == [0x2D] || marker == [0x2A]
  }

  /** A marker, blanks, a text. */
  ghost predicate ItemForm(ordered: bool, line: Str, text: Str) {
    && OneLine(text)
    && exists marker: Str, blanks: Str ::
         IsItemMarker(ordered, marker) && blanks != [] && AllOf(blanks, IsSpace) && line == marker + blanks + text
  }

  // ---- what is captured: the least that the pattern leaves ----------------------------------------

  ghost predicate HeadingText(line: Str, level: nat, text: Str) {
    HeadingForm(line, level, text) && forall other, less: Str :: HeadingForm(line, other, less) ==> |text| <= |less|
  }

  ghost predicate QuoteText(line: Str, text: Str) {
    QuoteForm(line, text) && forall less: Str :: QuoteForm(line, less) ==> |text| <= |less|
  }

  ghost predicate ItemText(ordered: bool, line: Str, text: Str) {
    ItemForm(ordered, line, text) && forall less: Str :: ItemForm(ordered, line, less) ==> |text| <= |less|
  }

  lemma FenceFits(line: Str, lang: Str, blanks: Str)
    requires AllOf(lang, IsLangUnit) && AllOf(blanks, IsSpace) && line == [0x60, 0x60, 0x60] + lang + blanks
    ensures FenceSplit(line, 3 + |lang|) && line[3..3 + |lang|] == lang
  {
    hide IsLangUnit, IsSpace;
    assert forall i :: 0 <= i < |lang| ==> line[3 + i] == lang[i];
    assert forall i :: 3 + |lang| <= i < |line| ==> line[i] == blanks[i - 3 - |lang|];
  }

  lemma FencePieces(line: Str, k: nat)
    requires FenceSplit(line, k)
    ensures FenceForm(line, line[3..k])
  {
    hide IsLangUnit, IsSpace;
    var blanks := line[k..];
    assert line[..3] == [0x60, 0x60, 0x60];
    assert line == line[..3] + line[3..k] + blanks;
  }

  lemma FenceIff(line: Str, lang: Str)
    ensures FenceOf(line) == Some(lang) <==> FenceForm(line, lang)
  {
    hide FenceSplit, IsLangUnit, IsSpace;
    if FenceForm(line, lang) {
      var blanks: Str :|
        AllOf(lang, IsLangUnit) && AllOf(blanks, IsSpace) && line == [0x60, 0x60, 0x60] + lang + blanks;
      FenceFits(line, lang, blanks);
    }
    if FenceOf(line) == Some(lang) {
      FencePieces(line, 3 + |lang|);
    }
  }

  /** A close is a fence without a language. */
  lemma FenceCloseIff(line: Str)
    ensures IsFenceClose(line) <==> FenceForm(line, [])
  {
    if FenceForm(line, []) {
      var blanks: Str :| AllOf(blanks, IsSpace) && line == [0x60, 0x60, 0x60] + [] + blanks;
      assert forall i :: 3 <= i < |line| ==> line[i] == blanks[i - 3];
    }
    if IsFenceClose(line) {
      var blanks := line[3..];
      assert line[..3] == [0x60, 0x60, 0x60];
      assert line == [0x60, 0x60, 0x60] + [] + blanks;
    }
  }

  lemma HeadingSplits(line: Str, level: nat, text: Str)
    ensures HeadingForm(line, level, text) <==>
      |text| < |line| && HeadingSplit(line, level, |line| - |text|) && text == line[|line| - |text|..]
  {
    var b := |line| - |text|;
    if HeadingForm(line, level, text) {
      var blanks: Str :| blanks != [] && AllOf(blanks, IsBlank) && line == Hashes(level) + blanks + text;
      assert forall i :: 0 <= i < level ==> line[i] == Hashes(level)[i];
      assert forall i :: level <= i < b ==> line[i] == blanks[i - level];
    }
    if |text| < |line| && HeadingSplit(line, level, b) && text == line[b..] {
      var blanks := line[level..b];
      assert line[..level] == Hashes(level);
      assert line == Hashes(level) + blanks + text;
    }
  }

  lemma HeadingIff(line: Str, level: nat, text: Str)
    ensures HeadingOf(line) == Some(HeadingParts(level, text)) <==> HeadingText(line, level, text)
    ensures HeadingOf(line).None? ==> forall other, less: Str :: !HeadingForm(line, other, less)
  {
    hide HeadingForm, HeadingSplit;
    HeadingSplits(line, level, text);
    var r := HeadingOf(line);
    forall other, less: Str | HeadingForm(line, other, less)
      ensures r.Some? && r.value.level == other && |r.value.text| <= |less|
    {
      HeadingSplits(line, other, less);
    }
    if r.Some? {
      HeadingSplits(line, r.value.level, r.value.text);
      assert HeadingForm(line, r.value.level, r.value.text);
    }
  }

  lemma QuoteSplits(line: Str, text: Str)
    ensures QuoteForm(line, text) <==>
      |text| < |line| && QuoteSplit(line, |line| - |text|) && text == line[|line| - |text|..]
  {
    var k := |line| - |text|;
    if QuoteForm(line, text) {
      var blanks: Str :| |blanks| <= 1 && AllOf(blanks, IsSpace) && line == [0x3E] + blanks + text;
      assert forall i :: 1 <= i < k ==> line[i] == blanks[i - 1];
    }
    if |text| < |line| && QuoteSplit(line, k) && text == line[k..] {
      var blanks := line[1..k];
      assert line[..1] == [0x3E];
      assert line == line[..1] + blanks + text;
      assert AllOf(blanks, IsSpace);
    }
  }

  lemma QuoteIff(line: Str, text: Str)
    ensures QuoteOf(line) == Some(text) <==> QuoteText(line, text)
    ensures QuoteOf(line).None? ==> forall less: Str :: !QuoteForm(line, less)
  {
    hide QuoteForm, QuoteSplit;
    var r := QuoteOf(line);
    QuoteSplits(line, text);
    forall less: Str | QuoteForm(line, less) ensures r.Some? && |r.value| <= |less| {
      QuoteSplits(line, less);
    }
    if r.Some? {
      QuoteSplits(line, r.value);
      assert QuoteForm(line, r.value);
    }
  }

  /** The marker of an item is the only one the line begins with. */
  lemma MarkerIff(ordered: bool, line: Str, m: nat)
    requires m <= |line|
    ensures m > 0 && MarkerEnd(ordered, line) == m <==> IsItemMarker(ordered, line[..m])
  {
    if ordered && IsItemMarker(true, line[..m]) {
      assert forall i :: 0 <= i < m - 1 ==> line[..m][..m - 1][i] == line[i];
      var d := Run(line, 0, IsDigit);
      assert line[m - 1] == 0x2E;
      assert d == m - 1;
    }
  }

  lemma ItemSplits(ordered: bool, line: Str, text: Str)
    ensures ItemForm(ordered, line, text) <==>
      |text| < |line| && ItemSplit(ordered, line, |line| - |text|) && text == line[|line| - |text|..]
  {
    hide IsItemMarker, MarkerEnd;
    var k := |line| - |text|;
    if ItemForm(ordered, line, text) {
      var marker: Str, blanks: Str :|
        IsItemMarker(ordered, marker) && blanks != [] && AllOf(blanks, IsSpace) && line == marker + blanks + text;
      assert line[..|marker|] == marker;
      MarkerIff(ordered, line, |marker|);
      assert forall i :: |marker| <= i < k ==> line[i] == blanks[i - |marker|];
      assert line[k..] == text;
    }
    if |text| < |line| && ItemSplit(ordered, line, k) && text == line[k..] {
      var m := MarkerEnd(ordered, line);
      MarkerIff(ordered, line, m);
      var blanks := line[m..k];
      assert line == line[..m] + blanks + text;
    }
  }

  lemma ItemIff(ordered: bool, line: Str, text: Str)
    ensures ItemOf(ordered, line) == Some(text) <==> ItemText(ordered, line, text)
    ensures ItemOf(ordered, line).None? ==> forall less: Str :: !ItemForm(ordered, line, less)
  {
    hide ItemForm;
    var r := ItemOf(ordered, line);
    ItemSplits(ordered, line, text);
    forall less: Str | ItemForm(ordered, line, less) ensures r.Some? && |r.value| <= |less| {
      ItemSplits(ordered, line, less);
    }
    if r.Some? {
      ItemSplits(ordered, line, r.value);
      assert ItemForm(ordered, line, r.value);
    }
  }

  // ---- tokens -------------------------------------------------------------------------------------

  /** `http` or `https`, a colon and two slashes, and at least two units of which the last does not
      close a sentence. */
  ghost predicate UrlPieces(u: Str) {
    exists scheme: Str, rest: Str ::
      && scheme in [[0x68, 0x74, 0x74, 0x70], [0x68, 0x74, 0x74, 0x70, 0x73]]
      && u == scheme + [0x3A, 0x2F, 0x2F] + rest
      && |rest| >= 2 && AllOf(rest, IsUrlUnit) && IsUrlEnd(rest[|rest| - 1])
  }

  lemma HeadIs(u: Str, scheme: Str, rest: Str)
    requires scheme in [HTTP, HTTPS] && u == scheme + COLON_SLASHES + rest
    ensures UrlHead(u) == |scheme| + 3
  {
    assert scheme + COLON_SLASHES <= u;
    if scheme == HTTP {
      assert u[4] == 0x3A && (HTTPS + COLON_SLASHES)[4] == 0x73;
      assert !(HTTPS + COLON_SLASHES <= u);
    }
  }

  lemma Schemes()
    ensures HTTP == [0x68, 0x74, 0x74, 0x70] && HTTPS == [0x68, 0x74, 0x74, 0x70, 0x73]
    ensures COLON_SLASHES == [0x3A, 0x2F, 0x2F]
  {
  }

  lemma UrlHasPieces(u: Str)
    requires UrlForm(u)
    ensures UrlPieces(u)
  {
    hide IsUrlUnit, IsUrlEnd, UrlHead;
    Schemes();
    HeadStarts(u);
    var p := UrlHead(u);
    var scheme, rest := u[..p - 3], u[p..];
    assert u[..p - 3] + u[p - 3..p] + u[p..] == u;
    PiecesMake(u, scheme, rest);
  }

  lemma PiecesMake(u: Str, scheme: Str, rest: Str)
    requires scheme in [[0x68, 0x74, 0x74, 0x70], [0x68, 0x74, 0x74, 0x70, 0x73]]
    requires u == scheme + [0x3A, 0x2F, 0x2F] + rest
    requires |rest| >= 2 && AllOf(rest, IsUrlUnit) && IsUrlEnd(rest[|rest| - 1])
    ensures UrlPieces(u)
  {
    hide IsUrlUnit, IsUrlEnd;
  }

  lemma PiecesAreUrl(u: Str, scheme: Str, rest: Str)
    requires scheme in [HTTP, HTTPS] && u == scheme + COLON_SLASHES + rest
    requires |rest| >= 2 && AllOf(rest, IsUrlUnit) && IsUrlEnd(rest[|rest| - 1])
    ensures UrlForm(u)
  {
    hide IsUrlUnit, IsUrlEnd, UrlHead;
    HeadIs(u, scheme, rest);
    var p := |scheme| + 3;
    assert forall i :: p <= i < |u| ==> u[i] == rest[i - p];
  }

  lemma UrlIsPieces(u: Str)
    ensures UrlForm(u) <==> UrlPieces(u)
  {
    hide UrlForm, IsUrlUnit, IsUrlEnd;
    if UrlForm(u) {
      UrlHasPieces(u);
    }
    if UrlPieces(u) {
      Schemes();
      var scheme: Str, rest: Str :|
        && scheme in [[0x68, 0x74, 0x74, 0x70], [0x68, 0x74, 0x74, 0x70, 0x73]]
        && u == scheme + [0x3A, 0x2F, 0x2F] + rest
        && |rest| >= 2 && AllOf(rest, IsUrlUnit) && IsUrlEnd(rest[|rest| - 1]);
      PiecesAreUrl(u, scheme, rest);
    }
  }

  lemma HeadStarts(u: Str)
    requires UrlHead(u) > 0
    ensures var p := UrlHead(u);
      3 <= p <= |u| && u[..p - 3] in [HTTP, HTTPS] && u[p - 3..p] == [0x3A, 0x2F, 0x2F]
  {
    var p := UrlHead(u);
    var scheme := if p == 8 then HTTPS else HTTP;
    assert u[..p] == scheme + COLON_SLASHES;
    assert u[..p - 3] == scheme;
  }

  /** The markers in the order in which they are tried, and what each makes of a text. */
  lemma MarkerTable()
    ensures |INLINE_MARKERS| == 6
    ensures forall k :: 0 <= k < 6 ==>
      (Open(INLINE_MARKERS[k]), MarkOf(INLINE_MARKERS[k])) ==
      [([0x7E, 0x7E], Strike), ([0x7C, 0x7C], Spoiler), ([0x2A, 0x2A], Bold), ([0x2A], Bold), ([0x5F], Italic),
       ([0x60], Monospace)][k]
  {
  }
}
