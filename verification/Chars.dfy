/** JavaScript strings as sequences of UTF-16 code units, with the string
    operations the parser uses (`split`, `join`, `trim`, `replace(/\s+/g, ' ')`). */
module Chars {

  /** One UTF-16 code unit. */
  type Unit = c: int | 0 <= c < 0x1_0000
  type Str = seq<Unit>

  const NEWLINE: Unit := 0x0A
  const SPACE: Unit := 0x20

  /** The class `\s`, which is also what `String.prototype.trim` removes. */
  predicate IsSpace(c: Unit) {
    || 0x09 <= c <= 0x0D || c == 0x20 || c == 0xA0 || c == 0x1680 || 0x2000 <= c <= 0x200A
    || c == 0x2028 || c == 0x2029 || c == 0x202F || c == 0x205F || c == 0x3000 || c == 0xFEFF
  }

  /** The code units that `.` does not match. */
  predicate IsTerminator(c: Unit) {
    c == 0x0A || c == 0x0D || c == 0x2028 || c == 0x2029
  }

  predicate IsDigit(c: Unit) { 0x30 <= c <= 0x39 }
  predicate IsLower(c: Unit) { 0x61 <= c <= 0x7A }
  predicate IsUpper(c: Unit) { 0x41 <= c <= 0x5A }

  predicate AllOf(s: Str, p: Unit -> bool) {
    forall i :: 0 <= i < |s| ==> p(s[i])
  }

  /** The end of the longest run of elements satisfying `p` that starts at `from`. */
  function Run<T>(s: seq<T>, from: nat, p: T -> bool): (end: nat)
    requires from <= |s|
    ensures from <= end <= |s|
    ensures forall i :: from <= i < end ==> p(s[i])
    ensures end < |s| ==> !p(s[end])
    decreases |s| - from
  {
    if from < |s| && p(s[from]) then Run(s, from + 1, p) else from
  }

  // ---- sequences ----------------------------------------------------------------

  lemma Assoc<T>(a: seq<T>, b: seq<T>, c: seq<T>)
    ensures (a + b) + c == a + (b + c)
  {
  }

  lemma SliceSplit<T>(s: seq<T>, pos: nat, mid: nat)
    requires pos <= mid <= |s|
    ensures s[pos..] == s[pos..mid] + s[mid..]
  {
  }

  lemma WholeSlice<T>(s: seq<T>)
    ensures s[0..] == s && s[..|s|] == s
  {
  }

  lemma NoneAdded<T>(s: seq<T>)
    ensures [] + s == s && s + [] == s
  {
  }

  lemma TailOfAppend<T>(a: seq<T>, b: seq<T>)
    requires a != []
    ensures (a + b)[0] == a[0] && (a + b)[1..] == a[1..] + b
  {
  }

  // ---- split and join on the newline --------------------------------------

  function Join(lines: seq<Str>, sep: Unit): Str {
    if lines == [] then []
    else if |lines| == 1 then lines[0]
    else lines[0] + [sep] + Join(lines[1..], sep)
  }

  /** `raw.split('\n')`: the pieces are free of newlines and join back to `raw`. */
  function Split(s: Str): (lines: seq<Str>)
    ensures |lines| >= 1
    ensures forall i :: 0 <= i < |lines| ==> NEWLINE !in lines[i]
    ensures Join(lines, NEWLINE) == s
  {
    if s == [] then [[]]
    else
      var rest := Split(s[1..]);
      if s[0] == NEWLINE then
        var lines := [[]] + rest;
        assert lines[1..] == rest;
        lines
      else
        var lines := [[s[0]] + rest[0]] + rest[1..];
        assert lines[1..] == rest[1..];
        lines
  }

  lemma {:induction false} JoinCons(first: Str, rest: seq<Str>, sep: Unit)
    requires rest != []
    ensures Join([first] + rest, sep) == first + [sep] + Join(rest, sep)
  {
    assert ([first] + rest)[1..] == rest;
  }

  /** Joining two non-empty groups of lines separately loses exactly one separator. */
  lemma {:induction false} JoinAppend(a: seq<Str>, b: seq<Str>, sep: Unit)
    requires a != [] && b != []
    ensures Join(a + b, sep) == Join(a, sep) + [sep] + Join(b, sep)
  {
    if |a| == 1 {
      assert a == [a[0]];
      JoinCons(a[0], b, sep);
    } else {
      JoinAppend(a[1..], b, sep);
      assert a + b == [a[0]] + (a[1..] + b);
      JoinCons(a[0], a[1..] + b, sep);
    }
  }

  /** Two newline-free groups of lines with the same text are the same lines, so the
      contract of Split determines it. */
  lemma {:induction false} SplitUnique(a: seq<Str>, b: seq<Str>)
    requires |a| >= 1 && |b| >= 1
    requires forall i :: 0 <= i < |a| ==> NEWLINE !in a[i]
    requires forall i :: 0 <= i < |b| ==> NEWLINE !in b[i]
    requires Join(a, NEWLINE) == Join(b, NEWLINE)
    ensures a == b
  {
    var t := Join(a, NEWLINE);
    assert a[0] <= t && b[0] <= t;
    assert |a| > 1 ==> t[|a[0]|] == NEWLINE;
    assert |b| > 1 ==> t[|b[0]|] == NEWLINE;
    if |a[0]| != |b[0]| {
      assert false;
    }
    assert a[0] == b[0];
    if |a| > 1 && |b| > 1 {
      assert Join(a[1..], NEWLINE) == t[|a[0]| + 1..] == Join(b[1..], NEWLINE);
      SplitUnique(a[1..], b[1..]);
    }
  }

  // ---- trim and collapse ----------------------------------------------------

  function TrimStart(s: Str): Str {
    s[Run(s, 0, IsSpace)..]
  }

  function TrimEnd(s: Str): (r: Str)
    ensures r <= s
    ensures r != [] ==> !IsSpace(r[|r| - 1])
    ensures forall i :: |r| <= i < |s| ==> IsSpace(s[i])
  {
    if s != [] && IsSpace(s[|s| - 1]) then
      var init := s[..|s| - 1];
      assert forall i :: 0 <= i < |init| ==> s[i] == init[i];
      TrimEnd(init)
    else s
  }

  function Trim(s: Str): Str {
    TrimEnd(TrimStart(s))
  }

  /** `s.replace(/\s+/g, ' ')` */
  function Squeeze(s: Str): Str
    decreases |s|
  {
    if s == [] then []
    else if IsSpace(s[0]) then [SPACE] + Squeeze(s[Run(s, 0, IsSpace)..])
    else [s[0]] + Squeeze(s[1..])
  }

  /** `collapsePlain` */
  function Collapse(s: Str): Str {
    Trim(Squeeze(s))
  }

  /** A text without the blanks around it. */
  ghost predicate TrimmedFrom(t: Str, s: Str, lead: nat) {
    && lead + |t| <= |s| && t == s[lead..lead + |t|]
    && (forall i :: 0 <= i < lead || lead + |t| <= i < |s| ==> IsSpace(s[i]))
    && (t != [] ==> !IsSpace(t[0]) && !IsSpace(t[|t| - 1]))
  }

  /** Trimming takes the blanks off both ends and nothing else, so that only blanks leave
      nothing. */
  lemma TrimSpec(s: Str)
    ensures exists lead: nat :: TrimmedFrom(Trim(s), s, lead)
    ensures Trim(s) == [] <==> AllOf(s, IsSpace)
  {
    var lead := Run(s, 0, IsSpace);
    var rest := s[lead..];
    var t := Trim(s);
    forall i | lead + |t| <= i < |s| ensures IsSpace(s[i]) {
      assert rest[i - lead] == s[i];
    }
    assert TrimmedFrom(t, s, lead);
  }

  // ---- what collapsing keeps ------------------------------------------------

  /** The code units that are not blank, in order. */
  function Ink(s: Str): Str {
    if s == [] then [] else (if IsSpace(s[0]) then [] else [s[0]]) + Ink(s[1..])
  }

  /** A blank stands where `n` visible units have gone before. */
  ghost predicate BlankAfter(s: Str, n: int) {
    exists k :: 0 <= k < |s| && BlankAt(s, k, n)
  }

  predicate BlankAt(s: Str, k: nat, n: int)
    requires k < |s|
  {
    IsSpace(s[k]) && |Ink(s[..k])| == n
  }

  /** Every blank is one space, and none stands next to another. */
  predicate SingleSpaces(s: Str) {
    && (forall i :: 0 <= i < |s| && IsSpace(s[i]) ==> s[i] == SPACE)
    && (forall i :: 0 < i < |s| ==> !(IsSpace(s[i - 1]) && IsSpace(s[i])))
  }

  /** `r` has the visible units of `s`, no blank at an end, and between two consecutive visible
      units one space exactly where `s` has any blanks. */
  ghost predicate CollapsedFrom(r: Str, s: Str) {
    && Ink(r) == Ink(s) && SingleSpaces(r)
    && (r != [] ==> !IsSpace(r[0]) && !IsSpace(r[|r| - 1]))
    && (forall n :: 0 < n < |Ink(s)| ==> (BlankAfter(r, n) <==> BlankAfter(s, n)))
  }

  lemma {:induction false} InkAppend(a: Str, b: Str)
    ensures Ink(a + b) == Ink(a) + Ink(b)
  {
    if a == [] {
      assert a + b == b;
    } else {
      assert (a + b)[1..] == a[1..] + b;
      InkAppend(a[1..], b);
    }
  }

  lemma {:induction false} InkOfBlanks(s: Str)
    requires AllOf(s, IsSpace)
    ensures Ink(s) == []
  {
    if s != [] {
      InkOfBlanks(s[1..]);
    }
  }

  lemma BlankShift(a: Str, b: Str, k: nat, n: int)
    requires k < |b|
    ensures BlankAt(a + b, |a| + k, n) <==> BlankAt(b, k, n - |Ink(a)|)
  {
    hide Ink, IsSpace;
    assert (a + b)[..|a| + k] == a + b[..k];
    InkAppend(a, b[..k]);
  }

  lemma BlankAppend(a: Str, b: Str, n: int)
    ensures BlankAfter(a + b, n) <==> BlankAfter(a, n) || BlankAfter(b, n - |Ink(a)|)
  {
    hide Ink, IsSpace;
    forall k | 0 <= k < |a| ensures BlankAt(a + b, k, n) <==> BlankAt(a, k, n) {
      assert (a + b)[..k] == a[..k];
    }
    if k :| 0 <= k < |a + b| && BlankAt(a + b, k, n) {
      if k >= |a| {
        BlankShift(a, b, k - |a|, n);
      }
    }
    var m := n - |Ink(a)|;
    if k :| 0 <= k < |b| && BlankAt(b, k, m) {
      BlankShift(a, b, k, n);
    }
  }

  /** Blanks all stand at one place. */
  lemma BlanksAt(s: Str, n: int)
    requires AllOf(s, IsSpace)
    ensures Ink(s) == [] && (BlankAfter(s, n) <==> s != [] && n == 0)
  {
    hide Ink, IsSpace;
    InkOfBlanks(s);
    forall k | 0 <= k < |s| ensures BlankAt(s, k, n) <==> n == 0 {
      InkOfBlanks(s[..k]);
    }
    if s != [] {
      assert BlankAt(s, 0, n) <==> n == 0;
    }
  }

  lemma OneVisible(c: Unit, n: int)
    requires !IsSpace(c)
    ensures Ink([c]) == [c] && !BlankAfter([c], n)
  {
    hide IsSpace;
    assert [c][1..] == [];
  }

  /** Squeezing takes a text unit by unit; of two blanks together the first goes. */
  lemma SqueezeStep(s: Str)
    requires s != []
    ensures !IsSpace(s[0]) ==> Squeeze(s) == [s[0]] + Squeeze(s[1..])
    ensures IsSpace(s[0]) && (|s| == 1 || !IsSpace(s[1])) ==> Squeeze(s) == [SPACE] + Squeeze(s[1..])
    ensures IsSpace(s[0]) && |s| > 1 && IsSpace(s[1]) ==> Squeeze(s) == Squeeze(s[1..])
  {
    hide IsSpace;
    if IsSpace(s[0]) {
      var k := Run(s, 0, IsSpace);
      if |s| > 1 && IsSpace(s[1]) {
        RunTail(s, 0);
        assert s[1..][k - 1..] == s[k..];
      }
    }
  }

  lemma {:induction false} RunTail(s: Str, from: nat)
    requires from < |s|
    ensures Run(s, from + 1, IsSpace) == Run(s[1..], from, IsSpace) + 1
    decreases |s| - from
  {
    hide IsSpace;
    if from + 1 < |s| {
      RunTail(s, from + 1);
    }
  }

  /** Squeezing changes no visible unit. */
  lemma {:induction false} SqueezeInk(s: Str)
    ensures Ink(Squeeze(s)) == Ink(s)
    decreases |s|
  {
    hide IsSpace, Squeeze;
    if s == [] {
      SqueezeNothing();
    } else {
      SqueezeStep(s);
      SqueezeInk(s[1..]);
      if IsSpace(s[0]) {
        SpaceIsBlank();
      }
      InkAppend([if IsSpace(s[0]) then SPACE else s[0]], Squeeze(s[1..]));
      InkAppend([s[0]], s[1..]);
      assert s == [s[0]] + s[1..];
      assert [s[0]][1..] == [] && [SPACE][1..] == [];
    }
  }

  lemma SqueezeNothing()
    ensures Squeeze([]) == []
  {
  }

  lemma SpaceIsBlank()
    ensures IsSpace(SPACE)
  {
  }

  /** Squeezing leaves single spaces, starting as the text did. */
  lemma {:induction false} SqueezeSingle(s: Str)
    ensures SingleSpaces(Squeeze(s))
    ensures s != [] ==> Squeeze(s) != [] && (IsSpace(Squeeze(s)[0]) <==> IsSpace(s[0]))
    decreases |s|
  {
    hide IsSpace, Squeeze;
    SpaceIsBlank();
    if s == [] {
      SqueezeNothing();
    } else {
      SqueezeStep(s);
      SqueezeSingle(s[1..]);
      if |s| == 1 {
        SqueezeNothing();
      }
    }
  }

  /** Squeezing takes away no blank's place and brings none. */
  lemma {:induction false} SqueezeBlanks(s: Str, n: int)
    ensures BlankAfter(Squeeze(s), n) <==> BlankAfter(s, n)
    decreases |s|
  {
    hide IsSpace, Squeeze, Ink, BlankAfter;
    if s == [] {
      SqueezeNothing();
    } else {
      SqueezeStep(s);
      assert s == [s[0]] + s[1..];
      BlankAppend([s[0]], s[1..], n);
      if !IsSpace(s[0]) {
        OneVisible(s[0], n);
        BlankAppend([s[0]], Squeeze(s[1..]), n);
        SqueezeBlanks(s[1..], n - 1);
      } else {
        SpaceIsBlank();
        BlanksAt([s[0]], n);
        BlanksAt([SPACE], n);
        BlankAppend([SPACE], Squeeze(s[1..]), n);
        SqueezeBlanks(s[1..], n);
        if |s| > 1 && IsSpace(s[1]) {
          FirstBlank(s[1..]);
        }
      }
    }
  }

  lemma FirstBlank(s: Str)
    requires s != [] && IsSpace(s[0])
    ensures BlankAfter(s, 0)
  {
    hide IsSpace;
    assert s[..0] == [] && BlankAt(s, 0, 0);
  }

  /** Blanks taken off both ends leave the visible units and the blanks between them. */
  lemma TrimKeeps(t: Str, s: Str, lead: nat)
    requires TrimmedFrom(t, s, lead)
    ensures Ink(t) == Ink(s)
    ensures forall n :: 0 < n < |Ink(s)| ==> (BlankAfter(t, n) <==> BlankAfter(s, n))
  {
    hide Ink, IsSpace, BlankAfter;
    var left, right := s[..lead], s[lead + |t|..];
    assert s == left + (t + right);
    assert forall i :: 0 <= i < |right| ==> right[i] == s[lead + |t| + i];
    assert AllOf(left, IsSpace) && AllOf(right, IsSpace);
    InkAppend(left, t + right);
    InkAppend(t, right);
    BlanksAt(left, 0);
    BlanksAt(right, 0);
    forall n | 0 < n < |Ink(s)| ensures BlankAfter(t, n) <==> BlankAfter(s, n) {
      BlankAppend(left, t + right, n);
      BlankAppend(t, right, n);
      BlanksAt(left, n);
      BlanksAt(right, n - |Ink(t)|);
    }
  }

  /** Collapsing keeps the visible units and one space wherever blanks stood between two. */
  lemma CollapseKeeps(s: Str)
    ensures CollapsedFrom(Collapse(s), s)
  {
    hide Ink, IsSpace, BlankAfter, Squeeze, Trim;
    var q := Squeeze(s);
    TrimSpec(q);
    var lead: nat :| TrimmedFrom(Trim(q), q, lead);
    SqueezeInk(s);
    SqueezeSingle(s);
    TrimKeeps(Trim(q), q, lead);
    forall n ensures BlankAfter(q, n) <==> BlankAfter(s, n) {
      SqueezeBlanks(s, n);
    }
    assert forall i :: 0 <= i < |Trim(q)| ==> Trim(q)[i] == q[lead + i];
  }

  // ---- text drawn from another text ----------------------------------------

  /** Equal, or both blank. */
  predicate Same(a: Unit, b: Unit) {
    a == b || (IsSpace(a) && IsSpace(b))
  }

  /** `p` can be read off `r` from left to right by skipping code units, where one blank
      may stand for another. */
  ghost predicate Draws(p: Str, r: Str)
    decreases |r|
  {
    || p == []
    || (r != [] && ((Same(p[0], r[0]) && Draws(p[1..], r[1..])) || Draws(p, r[1..])))
  }

  ghost predicate Subsequence(p: Str, r: Str)
    decreases |r|
  {
    || p == []
    || (r != [] && ((p[0] == r[0] && Subsequence(p[1..], r[1..])) || Subsequence(p, r[1..])))
  }

  lemma {:induction false} DrawsSelf(s: Str)
    ensures Draws(s, s)
  {
    if s != [] { DrawsSelf(s[1..]); }
  }

  lemma {:induction false} DrawsPad(p: Str, a: Str, r: Str)
    requires Draws(p, r)
    ensures Draws(p, a + r)
  {
    if a == [] {
      assert a + r == r;
    } else {
      DrawsPad(p, a[1..], r);
      assert (a + r)[1..] == a[1..] + r;
    }
  }

  lemma {:induction false} DrawsConcat(p: Str, r: Str, q: Str, s: Str)
    requires Draws(p, r) && Draws(q, s)
    ensures Draws(p + q, r + s)
    decreases |r|
  {
    if p == [] {
      assert p + q == q;
      DrawsPad(q, r, s);
    } else {
      assert (r + s)[1..] == r[1..] + s;
      if Same(p[0], r[0]) && Draws(p[1..], r[1..]) {
        DrawsConcat(p[1..], r[1..], q, s);
        assert (p + q)[1..] == p[1..] + q;
      } else {
        DrawsConcat(p, r[1..], q, s);
      }
    }
  }

  lemma {:induction false} DrawsTrans(p: Str, q: Str, r: Str)
    requires Draws(p, q) && Draws(q, r)
    ensures Draws(p, r)
    decreases |r|
  {
    if p != [] {
      if Same(q[0], r[0]) && Draws(q[1..], r[1..]) {
        if Same(p[0], q[0]) && Draws(p[1..], q[1..]) {
          DrawsTrans(p[1..], q[1..], r[1..]);
        } else {
          DrawsTrans(p, q[1..], r[1..]);
        }
      } else {
        DrawsTrans(p, q, r[1..]);
      }
    }
  }

  lemma {:induction false} DrawsSuffix(s: Str, k: nat)
    requires k <= |s|
    ensures Draws(s[k..], s)
  {
    DrawsSelf(s[k..]);
    DrawsPad(s[k..], s[..k], s[k..]);
    assert s[..k] + s[k..] == s;
  }

  lemma {:induction false} DrawsPrefix(p: Str, s: Str)
    requires p <= s
    ensures Draws(p, s)
  {
    DrawsSelf(p);
    DrawsConcat(p, p, [], s[|p|..]);
    assert p + s[|p|..] == s && p + [] == p;
  }

  lemma {:induction false} DrawsSqueeze(s: Str)
    ensures Draws(Squeeze(s), s)
    decreases |s|
  {
    if s != [] {
      if IsSpace(s[0]) {
        var k := Run(s, 0, IsSpace);
        DrawsSqueeze(s[k..]);
        DrawsPad(Squeeze(s[k..]), s[1..k], s[k..]);
        assert s[1..k] + s[k..] == s[1..];
      } else {
        DrawsSqueeze(s[1..]);
      }
    }
  }

  /** Collapsing blanks only ever removes text. */
  lemma CollapseDraws(s: Str)
    ensures Draws(Collapse(s), s)
  {
    var q := Squeeze(s);
    var k := Run(q, 0, IsSpace);
    DrawsSuffix(q, k);
    DrawsPrefix(TrimEnd(q[k..]), q[k..]);
    DrawsTrans(TrimEnd(q[k..]), q[k..], q);
    DrawsSqueeze(s);
    DrawsTrans(Collapse(s), q, s);
  }

  /** What can be drawn from `r` is no longer than `r`, and its visible characters are
      visible characters of `r` in the same order. */
  lemma {:induction false} DrawsMeans(p: Str, r: Str)
    requires Draws(p, r)
    ensures |p| <= |r|
    ensures Subsequence(Ink(p), r)
    decreases |r|
  {
    if p != [] {
      if Same(p[0], r[0]) && Draws(p[1..], r[1..]) {
        DrawsMeans(p[1..], r[1..]);
        if !IsSpace(p[0]) {
          assert Ink(p)[1..] == Ink(p[1..]);
        } else {
          assert Ink(p) == Ink(p[1..]);
        }
      } else {
        DrawsMeans(p, r[1..]);
      }
    }
  }
}
