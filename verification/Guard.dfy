/** What the depth guard measures: the marker tokens that a text opens with, and those that it ends
    with behind them. */
module Guard {
  import opened Wrappers
  import opened Chars
  import opened Tokens
  import opened Document

  /** Markers one after another. */
  function Length(ms: seq<Marker>): nat {
    if ms == [] then 0 else |Open(ms[0])| + Length(ms[1..])
  }

  /** From `i` on the text goes on with these markers, each the longest there, and then with none. */
  ghost predicate OpensWith(text: Str, i: nat, ms: seq<Marker>)
    decreases |ms|
  {
    if ms == [] then forall m :: !StartsWith(text, Open(m), i)
    else
      && StartsWith(text, Open(ms[0]), i)
      && (forall m :: StartsWith(text, Open(m), i) ==> |Open(m)| <= |Open(ms[0])|)
      && OpensWith(text, i + |Open(ms[0])|, ms[1..])
  }

  /** Some marker ends at `j` and begins no earlier than `i`. */
  predicate EndsAt(text: Str, i: nat, j: nat, m: Marker) {
    i + |Open(m)| <= j && StartsWith(text, Open(m), j - |Open(m)|)
  }

  /** Read backward from `j`, down to `i` at most, the text ends with these markers, each the
      longest there, and with none before them. */
  ghost predicate EndsWith(text: Str, i: nat, j: nat, ms: seq<Marker>)
    decreases |ms|
  {
    if ms == [] then forall m :: !EndsAt(text, i, j, m)
    else
      && EndsAt(text, i, j, ms[0])
      && (forall m :: EndsAt(text, i, j, m) ==> |Open(m)| <= |Open(ms[0])|)
      && EndsWith(text, i, j - |Open(ms[0])|, ms[1..])
  }

  lemma SameOpen(text: Str, pos: nat, a: Marker, b: Marker)
    requires StartsWith(text, Open(a), pos) && StartsWith(text, Open(b), pos) && |Open(a)| == |Open(b)|
    ensures a == b
  {
    assert Open(a) == text[pos..pos + |Open(a)|] == Open(b);
  }

  lemma OpenSizes(m: Marker)
    ensures 1 <= |Open(m)| <= 2
  {
  }

  /** The markers at the start are those the guard counts. */
  lemma {:induction false} LeadIs(text: Str, i: nat, ms: seq<Marker>)
    requires i <= |text| && OpensWith(text, i, ms)
    ensures LeadCount(text, i) == |ms| && LeadEnd(text, i) == i + Length(ms)
    decreases |ms|
  {
    hide StartsWith, MatchMarker, Open;
    if i < |text| && ms != [] {
      SameOpen(text, i, ms[0], MatchMarker(text, i).value);
      StartFits(text, Open(ms[0]), i);
      LeadIs(text, i + |Open(ms[0])|, ms[1..]);
    } else if ms != [] {
      NothingAtEnd(text, ms[0]);
      assert false;
    }
  }

  lemma NothingAtEnd(text: Str, m: Marker)
    ensures !StartsWith(text, Open(m), |text|)
  {
  }

  lemma {:induction false} LeadExists(text: Str, i: nat) returns (ms: seq<Marker>)
    requires i <= |text|
    ensures OpensWith(text, i, ms)
    decreases |text| - i
  {
    hide StartsWith, MatchMarker, Open;
    if i == |text| {
      forall m {
        NothingAtEnd(text, m);
      }
      ms := [];
    } else if MatchMarker(text, i).None? {
      ms := [];
    } else {
      var first := MatchMarker(text, i).value;
      StartFits(text, Open(first), i);
      OpenSizes(first);
      var rest := LeadExists(text, i + |Open(first)|);
      ms := [first] + rest;
      assert ms[1..] == rest;
    }
  }

  lemma StartFits(text: Str, open: Str, pos: nat)
    requires StartsWith(text, open, pos)
    ensures pos + |open| <= |text|
  {
  }

  /** The marker found at the end is the longest that ends there. */
  lemma EndingIs(text: Str, i: nat, j: nat)
    requires i <= j <= |text|
    ensures var r := MarkerEndingAt(text, i, j, 0);
      && (r.None? <==> forall m :: !EndsAt(text, i, j, m))
      && (r.Some? ==> EndsAt(text, i, j, r.value) && forall m :: EndsAt(text, i, j, m) ==> |Open(m)| <= |Open(r.value)|)
  {
    hide StartsWith;
    TriesInOrder(text, i, j);
    forall m {
      OpenSizes(m);
    }
  }

  /** The two-unit markers are tried before the others. */
  lemma TriesInOrder(text: Str, i: nat, j: nat)
    requires i <= j <= |text|
    ensures MarkerEndingAt(text, i, j, 0) ==
      if EndsAt(text, i, j, DoubleTilde) then Some(DoubleTilde)
      else if EndsAt(text, i, j, DoublePipe) then Some(DoublePipe)
      else if EndsAt(text, i, j, DoubleStar) then Some(DoubleStar)
      else if EndsAt(text, i, j, Star) then Some(Star)
      else if EndsAt(text, i, j, Underscore) then Some(Underscore)
      else if EndsAt(text, i, j, Backtick) then Some(Backtick)
      else None
  {
    hide StartsWith;
    assert MarkerEndingAt(text, i, j, 6) == None;
    assert MarkerEndingAt(text, i, j, 5) == if EndsAt(text, i, j, Backtick) then Some(Backtick) else None;
    assert MarkerEndingAt(text, i, j, 4) ==
      if EndsAt(text, i, j, Underscore) then Some(Underscore) else MarkerEndingAt(text, i, j, 5);
    assert MarkerEndingAt(text, i, j, 3) ==
      if EndsAt(text, i, j, Star) then Some(Star) else MarkerEndingAt(text, i, j, 4);
    assert MarkerEndingAt(text, i, j, 2) ==
      if EndsAt(text, i, j, DoubleStar) then Some(DoubleStar) else MarkerEndingAt(text, i, j, 3);
    assert MarkerEndingAt(text, i, j, 1) ==
      if EndsAt(text, i, j, DoublePipe) then Some(DoublePipe) else MarkerEndingAt(text, i, j, 2);
  }

  /** The markers at the end are those the guard counts. */
  lemma {:induction false} TrailIs(text: Str, i: nat, j: nat, ms: seq<Marker>)
    requires i <= j <= |text| && EndsWith(text, i, j, ms)
    ensures TrailCount(text, i, j) == |ms|
    decreases |ms|
  {
    hide StartsWith, MarkerEndingAt, Open;
    EndingIs(text, i, j);
    if ms != [] {
      var m := MarkerEndingAt(text, i, j, 0).value;
      SameOpen(text, j - |Open(m)|, ms[0], m);
      TrailIs(text, i, j - |Open(m)|, ms[1..]);
    }
  }

  lemma {:induction false} TrailExists(text: Str, i: nat, j: nat) returns (ms: seq<Marker>)
    requires i <= j <= |text|
    ensures EndsWith(text, i, j, ms)
    decreases j
  {
    hide StartsWith, MarkerEndingAt, Open;
    EndingIs(text, i, j);
    if MarkerEndingAt(text, i, j, 0).None? {
      ms := [];
    } else {
      var first := MarkerEndingAt(text, i, j, 0).value;
      OpenSizes(first);
      var rest := TrailExists(text, i, j - |Open(first)|);
      ms := [first] + rest;
      assert ms[1..] == rest;
    }
  }

  /** The depth is the smaller number of the markers that open the text and of those that end it
      behind them, and there are always such markers. */
  lemma GuardMeasures(text: Str)
    ensures exists opening, closing ::
      OpensWith(text, 0, opening) && EndsWith(text, Length(opening), |text|, closing)
    ensures forall opening, closing ::
      OpensWith(text, 0, opening) && EndsWith(text, Length(opening), |text|, closing) ==>
        GuardDepth(text) == if |opening| <= |closing| then |opening| else |closing|
  {
    hide OpensWith, EndsWith, LeadCount, LeadEnd, TrailCount;
    var first := LeadExists(text, 0);
    LeadIs(text, 0, first);
    var last := TrailExists(text, Length(first), |text|);
    forall opening, closing | OpensWith(text, 0, opening) && EndsWith(text, Length(opening), |text|, closing)
      ensures GuardDepth(text) == if |opening| <= |closing| then |opening| else |closing|
    {
      LeadIs(text, 0, opening);
      TrailIs(text, Length(opening), |text|, closing);
    }
  }
}
