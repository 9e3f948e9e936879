/** The inline tokens of mrkdwn: markers, mentions and links. Every matcher is given with
    the token form it recognises, so that a match is exactly a prefix of that form. */
module Tokens {
  import opened Wrappers
  import opened Chars
  import opened RichText

  // ---- markers -------------------------------------------------------------------

  datatype Marker = DoubleTilde | DoublePipe | DoubleStar | Star | Underscore | Backtick

  function Open(m: Marker): (s: Str)
    ensures 1 <= |s| <= 2 && NEWLINE !in s
  {
    match m
    case DoubleTilde => [0x7E, 0x7E]
    case DoublePipe => [0x7C, 0x7C]
    case DoubleStar => [0x2A, 0x2A]
    case Star => [0x2A]
    case Underscore => [0x5F]
    case Backtick => [0x60]
  }

  function MarkOf(m: Marker): TextMark {
    match m
    case DoubleTilde => Strike
    case DoublePipe => Spoiler
    case DoubleStar => Bold
    case Star => Bold
    case Underscore => Italic
    case Backtick => Monospace
  }

  /** `text.startsWith(token, pos)` */
  predicate StartsWith(text: Str, token: Str, pos: nat) {
    pos + |token| <= |text| && text[pos..pos + |token|] == token
  }

  /** The markers in the order the parser tries them. */
  const INLINE_MARKERS: seq<Marker> :=
    [DoubleTilde, DoublePipe, DoubleStar, Star, Underscore, Backtick]

  /** The marker that opens at `pos`; a doubled marker wins over the single one. */
  function MatchMarker(text: Str, pos: nat): (r: Option<Marker>)
    ensures r.Some? ==> StartsWith(text, Open(r.value), pos)
    ensures forall m :: StartsWith(text, Open(m), pos) ==>
      r.Some? && |Open(m)| <= |Open(r.value)|
  {
    if StartsWith(text, Open(DoubleTilde), pos) then Some(DoubleTilde)
    else if StartsWith(text, Open(DoublePipe), pos) then Some(DoublePipe)
    else if StartsWith(text, Open(DoubleStar), pos) then Some(DoubleStar)
    else if StartsWith(text, Open(Star), pos) then Some(Star)
    else if StartsWith(text, Open(Underscore), pos) then Some(Underscore)
    else if StartsWith(text, Open(Backtick), pos) then Some(Backtick)
    else None
  }

  /** The nearest place at or after `from` where `open` occurs again before a newline. */
  function CloseAt(text: Str, from: nat, open: Str): (r: Option<nat>)
    requires open != [] && NEWLINE !in open
    ensures r.Some? ==> from <= r.value && StartsWith(text, open, r.value)
    decreases |text| - from
  {
    if from >= |text| then None
    else if text[from] == NEWLINE then None
    else if StartsWith(text, open, from) then Some(from)
    else CloseAt(text, from + 1, open)
  }

  /** No nearer close, and no newline on the way. */
  lemma {:induction false} CloseNearest(text: Str, from: nat, open: Str, k: nat)
    requires open != [] && NEWLINE !in open
    requires CloseAt(text, from, open).Some? && from <= k < CloseAt(text, from, open).value
    ensures k < |text| && !StartsWith(text, open, k) && text[k] != NEWLINE
    decreases k - from
  {
    if from < k { CloseNearest(text, from + 1, open, k); }
  }

  /** A marker is left unclosed only if a newline comes before its next occurrence. */
  lemma {:induction false} CloseMissing(text: Str, from: nat, open: Str, k: nat)
    requires open != [] && NEWLINE !in open
    requires CloseAt(text, from, open).None? && from <= k && StartsWith(text, open, k)
    ensures NEWLINE in text[from..k]
    decreases k - from
  {
    assert open[0] == text[k..k + |open|][0] == text[k];
    if text[from] == NEWLINE {
      assert text[from..k][0] == NEWLINE;
    } else {
      CloseMissing(text, from + 1, open, k);
      assert text[from..k] == [text[from]] + text[from + 1..k];
    }
  }

  method FindClose(text: Str, from: nat, open: Str) returns (at: int)
    requires open != [] && NEWLINE !in open
    ensures at == match CloseAt(text, from, open) case Some(k) => k case None => -1
  {
    var i := from;
    while i < |text|
      invariant i >= from
      invariant CloseAt(text, from, open) == CloseAt(text, i, open)
    {
      if text[i] == NEWLINE {
        return -1;
      }
      if StartsWith(text, open, i) {
        return i;
      }
      i := i + 1;
    }
    return -1;
  }

  // ---- mentions ------------------------------------------------------------------

  function RefOpen(kind: RefKind): Str {
    match kind
    case UserRef => [0x40, 0x7B]          // @{
    case ChannelRef => [0x3C, 0x23]       // <#
    case RoleRef => [0x3C, 0x40, 0x26]    // <@&
  }

  function RefClose(kind: RefKind): Unit {
    match kind
    case UserRef => 0x7D
    case ChannelRef => 0x3E
    case RoleRef => 0x3E
  }

  function RefToken(kind: RefKind, id: Str): Str {
    RefOpen(kind) + id + [RefClose(kind)]
  }

  predicate IsIdUnit(c: Unit) { IsCuidUnit(c) || c == 0x2D }

  /** What it means for three adjoining pieces to be a prefix. */
  lemma PrefixParts(a: Str, b: Str, c: Str, s: Str)
    ensures a + b + c <= s <==>
      && |a| + |b| + |c| <= |s| && s[..|a|] == a && s[|a|..|a| + |b|] == b
      && s[|a| + |b|..|a| + |b| + |c|] == c
  {
    if |a| + |b| + |c| <= |s| {
      var t := s[..|a| + |b| + |c|];
      assert t == t[..|a|] + t[|a|..|a| + |b|] + t[|a| + |b|..];
    }
  }

  lemma TokenIdUnits(id: Str)
    requires IsTokenId(id)
    ensures AllOf(id, IsIdUnit)
  {
  }

  lemma RunEnds(s: Str, from: nat, end: nat, p: Unit -> bool)
    requires from <= end < |s| && AllOf(s[from..end], p) && !p(s[end])
    ensures Run(s, from, p) == end
  {
    assert forall i :: from <= i < end ==> s[i] == s[from..end][i - from];
  }

  /** Any identifier that completes a token at the start of `rest` is the whole run of
      identifier units. */
  lemma RefRun(kind: RefKind, rest: Str, id: Str)
    requires IsTokenId(id) && RefToken(kind, id) <= rest
    ensures RefOpen(kind) <= rest
    ensures var p := |RefOpen(kind)|; var k := Run(rest, p, IsIdUnit);
      id == rest[p..k] && k < |rest| && rest[k] == RefClose(kind)
  {
    var p := |RefOpen(kind)|;
    PrefixParts(RefOpen(kind), id, [RefClose(kind)], rest);
    TokenIdUnits(id);
    RunEnds(rest, p, p + |id|, IsIdUnit);
  }

  /** The identifier of the mention token `rest` starts with. */
  function MatchRef(kind: RefKind, rest: Str): (r: Option<Str>)
    ensures forall id :: r == Some(id) <==> IsTokenId(id) && RefToken(kind, id) <= rest
  {
    var p := |RefOpen(kind)|;
    if RefOpen(kind) <= rest then
      var k := Run(rest, p, IsIdUnit);
      var id := rest[p..k];
      if k < |rest| && rest[k] == RefClose(kind) && IsTokenId(id) then
        PrefixParts(RefOpen(kind), id, [RefClose(kind)], rest);
        assert forall other :: IsTokenId(other) && RefToken(kind, other) <= rest ==> other == id by {
          forall other | IsTokenId(other) && RefToken(kind, other) <= rest ensures other == id {
            RefRun(kind, rest, other);
          }
        }
        Some(id)
      else
        assert forall other :: !(IsTokenId(other) && RefToken(kind, other) <= rest) by {
          forall other | IsTokenId(other) && RefToken(kind, other) <= rest ensures false {
            RefRun(kind, rest, other);
          }
        }
        None
    else
      assert forall other :: !(IsTokenId(other) && RefToken(kind, other) <= rest) by {
        forall other | IsTokenId(other) && RefToken(kind, other) <= rest ensures false {
          RefRun(kind, rest, other);
        }
      }
      None
  }

  // ---- links ---------------------------------------------------------------------

  predicate IsCaptionUnit(c: Unit) { c != 0x5D && c != NEWLINE }
  predicate IsTargetUnit(c: Unit) { c != 0x28 && c != 0x29 && !IsSpace(c) }

  datatype LinkParts = LinkParts(caption: Str, url: Str)

  predicate LinkForm(l: LinkParts) {
    AllOf(l.caption, IsCaptionUnit) && l.url != [] && AllOf(l.url, IsTargetUnit)
  }

  /** `[caption](url)` */
  function LinkToken(l: LinkParts): Str {
    [0x5B] + l.caption + [0x5D, 0x28] + l.url + [0x29]
  }

  /** The only caption and url that can complete a link token at the start of `rest`. */
  function LinkCandidate(rest: Str): (r: Option<LinkParts>)
  {
    if rest != [] && rest[0] == 0x5B then
      var k := Run(rest, 1, IsCaptionUnit);
      if k + 1 < |rest| && rest[k] == 0x5D && rest[k + 1] == 0x28 then
        var e := Run(rest, k + 2, IsTargetUnit);
        if e > k + 2 && e < |rest| && rest[e] == 0x29 then
          Some(LinkParts(rest[1..k], rest[k + 2..e]))
        else None
      else None
    else None
  }

  lemma LinkPrefix(l: LinkParts, rest: Str)
    ensures LinkToken(l) <= rest <==>
      var c := 1 + |l.caption|; var f := c + 2 + |l.url|;
      && f < |rest| && rest[0] == 0x5B && rest[1..c] == l.caption && rest[c] == 0x5D && rest[c + 1] == 0x28
      && rest[c + 2..f] == l.url && rest[f] == 0x29
  {
    var c := 1 + |l.caption|;
    var f := c + 2 + |l.url|;
    var left := [0x5B] + l.caption + [0x5D, 0x28];
    assert LinkToken(l) == left + l.url + [0x29];
    PrefixParts(left, l.url, [0x29], rest);
    PrefixParts([0x5B], l.caption, [0x5D, 0x28], rest);
    if f < |rest| {
      assert rest[..c + 2] == left <==> left <= rest;
      assert rest[c..c + 2] == [rest[c], rest[c + 1]];
      assert rest[f..f + 1] == [rest[f]];
      assert rest[..1] == [rest[0]];
    }
  }

  lemma LinkForced(rest: Str, l: LinkParts)
    requires LinkForm(l) && LinkToken(l) <= rest
    ensures LinkCandidate(rest) == Some(l)
  {
    LinkPrefix(l, rest);
    var c := 1 + |l.caption|;
    RunEnds(rest, 1, c, IsCaptionUnit);
    RunEnds(rest, c + 2, c + 2 + |l.url|, IsTargetUnit);
  }

  lemma LinkSound(rest: Str)
    ensures LinkCandidate(rest).Some? ==>
      LinkForm(LinkCandidate(rest).value) && LinkToken(LinkCandidate(rest).value) <= rest
  {
    if LinkCandidate(rest).Some? {
      LinkPrefix(LinkCandidate(rest).value, rest);
    }
  }

  /** `MD_LINK_RE` */
  function MatchLink(rest: Str): (r: Option<LinkParts>)
    ensures forall l :: r == Some(l) <==> LinkForm(l) && LinkToken(l) <= rest
  {
    LinkSound(rest);
    assert forall l :: LinkForm(l) && LinkToken(l) <= rest ==> LinkCandidate(rest) == Some(l) by {
      forall l | LinkForm(l) && LinkToken(l) <= rest ensures LinkCandidate(rest) == Some(l) {
        LinkForced(rest, l);
      }
    }
    LinkCandidate(rest)
  }

  predicate IsUrlUnit(c: Unit) { !IsSpace(c) && c != 0x3C && c != 0x3E }

  /** A bare url does not end in closing punctuation. */
  predicate IsUrlEnd(c: Unit) {
    IsUrlUnit(c) && c !in [0x2E, 0x2C, 0x3B, 0x3A, 0x21, 0x3F, 0x27, 0x22, 0x28, 0x29, 0x5D]
  }

  const COLON_SLASHES: Str := [0x3A, 0x2F, 0x2F]

  /** The length of a leading `http://` or `https://`, or 0. */
  function UrlHead(s: Str): nat {
    if HTTPS + COLON_SLASHES <= s then 8
    else if HTTP + COLON_SLASHES <= s then 7
    else 0
  }

  /** The language of `URL_RE`. */
  predicate UrlForm(u: Str) {
    var p := UrlHead(u);
    p > 0 && |u| >= p + 2 && (forall i :: p <= i < |u| ==> IsUrlUnit(u[i])) && IsUrlEnd(u[|u| - 1])
  }

  /** The last index in `lo..hi` that can end a url. */
  function LastEnd(s: Str, lo: nat, hi: nat): (r: Option<nat>)
    requires hi <= |s|
    ensures r.Some? ==> lo <= r.value < hi && IsUrlEnd(s[r.value])
    ensures forall i :: lo <= i < hi && IsUrlEnd(s[i]) ==> r.Some? && i <= r.value
    decreases hi
  {
    if hi <= lo then None
    else if IsUrlEnd(s[hi - 1]) then Some(hi - 1)
    else LastEnd(s, lo, hi - 1)
  }

  /** The end of the longest url `rest` can start with. */
  function UrlEnd(rest: Str): Option<nat> {
    var p := UrlHead(rest);
    if p == 0 then None else LastEnd(rest, p + 1, Run(rest, p, IsUrlUnit))
  }

  /** `URL_RE`: the length of the longest url `rest` starts with. */
  function MatchUrl(rest: Str): (r: Option<nat>)
    ensures r.Some? ==> r.value <= |rest| && UrlForm(rest[..r.value])
    ensures forall n :: 0 <= n <= |rest| && UrlForm(rest[..n]) ==> r.Some? && n <= r.value
  {
    UrlSound(rest);
    UrlLongest(rest);
    if UrlEnd(rest).Some? then Some(UrlEnd(rest).value + 1) else None
  }

  lemma UrlSound(rest: Str)
    ensures UrlEnd(rest).Some? ==> UrlEnd(rest).value < |rest| && UrlForm(rest[..UrlEnd(rest).value + 1])
  {
    var p := UrlHead(rest);
    if UrlEnd(rest).Some? {
      var u := rest[..UrlEnd(rest).value + 1];
      UrlHeadOfPrefix(rest, |u|);
      assert forall i :: p <= i < |u| ==> u[i] == rest[i];
    }
  }

  lemma UrlHeadOfPrefix(rest: Str, n: nat)
    requires n <= |rest|
    ensures UrlHead(rest[..n]) > 0 ==> UrlHead(rest[..n]) == UrlHead(rest)
    ensures 0 < UrlHead(rest) <= n ==> UrlHead(rest[..n]) == UrlHead(rest)
  {
    assert forall k :: 0 <= k <= n ==> rest[..n][..k] == rest[..k];
    assert |HTTPS + COLON_SLASHES| == 8 && |HTTP + COLON_SLASHES| == 7;
    assert (HTTPS + COLON_SLASHES)[4] != (HTTP + COLON_SLASHES)[4];
  }

  lemma UrlLongest(rest: Str)
    ensures forall n :: 0 <= n <= |rest| && UrlForm(rest[..n]) ==>
      UrlEnd(rest).Some? && n <= UrlEnd(rest).value + 1
  {
    forall n | 0 <= n <= |rest| && UrlForm(rest[..n])
      ensures UrlEnd(rest).Some? && n <= UrlEnd(rest).value + 1
    {
      var u := rest[..n];
      UrlHeadOfPrefix(rest, n);
      assert forall i :: UrlHead(u) <= i < n ==> u[i] == rest[i] && IsUrlUnit(rest[i]);
      assert IsUrlEnd(rest[n - 1]);
    }
  }
}
