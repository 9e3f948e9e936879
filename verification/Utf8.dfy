/** The byte size of a string in UTF-8: the encoding of section 3 of RFC 3629, and the count
    made without an encoder. */
module Utf8 {
  import opened Chars

  type Byte = b: int | 0 <= b < 0x100
  type CodePoint = c: int | 0 <= c < 0x11_0000

  predicate IsHigh(c: Unit) { 0xD800 <= c <= 0xDBFF }
  predicate IsLow(c: Unit) { 0xDC00 <= c <= 0xDFFF }

  // ---- code points ----------------------------------------------------------------------------

  function Pair(high: Unit, low: Unit): CodePoint
    requires IsHigh(high) && IsLow(low)
  {
    0x1_0000 + (high - 0xD800) * 0x400 + (low - 0xDC00)
  }

  /** How many code units the first character takes. */
  function Width(s: Str): nat
    requires s != []
  {
    if IsHigh(s[0]) && |s| > 1 && IsLow(s[1]) then 2 else 1
  }

  /** The first character; a surrogate on its own counts as U+FFFD. */
  function First(s: Str): CodePoint
    requires s != []
  {
    if Width(s) == 2 then Pair(s[0], s[1])
    else if IsHigh(s[0]) || IsLow(s[0]) then 0xFFFD
    else s[0]
  }

  function Octets(c: CodePoint): (r: seq<Byte>)
    ensures 1 <= |r| <= 4
  {
    if c < 0x80 then [c]
    else if c < 0x800 then [0xC0 + c / 0x40, 0x80 + c % 0x40]
    else if c < 0x1_0000 then [0xE0 + c / 0x1000, 0x80 + c / 0x40 % 0x40, 0x80 + c % 0x40]
    else [0xF0 + c / 0x4_0000, 0x80 + c / 0x1000 % 0x40, 0x80 + c / 0x40 % 0x40, 0x80 + c % 0x40]
  }

  function Encode(s: Str): seq<Byte> {
    if s == [] then [] else Octets(First(s)) + Encode(s[Width(s)..])
  }

  /** No surrogate stands alone. */
  predicate WellFormed(s: Str) {
    s == [] || (!(Width(s) == 1 && (IsHigh(s[0]) || IsLow(s[0]))) && WellFormed(s[Width(s)..]))
  }

  // ---- reading it back --------------------------------------------------------------------------

  function Length(lead: Byte): nat {
    if lead < 0x80 then 1 else if lead < 0xE0 then 2 else if lead < 0xF0 then 3 else 4
  }

  function Units(c: int): Str
    requires 0 <= c
  {
    if c < 0x1_0000 then [c]
    else [0xD800 + (c - 0x1_0000) / 0x400 % 0x400, 0xDC00 + (c - 0x1_0000) % 0x400]
  }

  /** What an octet carries under its tag. */
  function Bits(b: Byte, tag: int): int { b - tag }

  /** The code point of a group of octets, by its lead byte. */
  function Value(b: seq<Byte>): int
    requires b != [] && |b| >= Length(b[0])
  {
    match Length(b[0])
    case 1 => b[0]
    case 2 => Bits(b[0], 0xC0) * 0x40 + Bits(b[1], 0x80)
    case 3 => Bits(b[0], 0xE0) * 0x1000 + Bits(b[1], 0x80) * 0x40 + Bits(b[2], 0x80)
    case _ => Bits(b[0], 0xF0) * 0x4_0000 + Bits(b[1], 0x80) * 0x1000 + Bits(b[2], 0x80) * 0x40 + Bits(b[3], 0x80)
  }

  function Decode(b: seq<Byte>): Str {
    if b == [] || |b| < Length(b[0]) || Value(b) < 0 then []
    else Units(Value(b)) + Decode(b[Length(b[0])..])
  }

  lemma OctetsRead(c: CodePoint, rest: seq<Byte>)
    ensures var b := Octets(c) + rest;
      Length(b[0]) == |Octets(c)| && Value(b) == c && b[|Octets(c)|..] == rest
  {
    assert c == c / 0x40 * 0x40 + c % 0x40;
    assert c / 0x40 == c / 0x1000 * 0x40 + c / 0x40 % 0x40;
    assert c / 0x1000 == c / 0x4_0000 * 0x40 + c / 0x1000 % 0x40;
  }

  lemma UnitsOf(s: Str)
    requires s != [] && !(Width(s) == 1 && (IsHigh(s[0]) || IsLow(s[0])))
    ensures Units(First(s)) == s[..Width(s)]
  {
  }

  /** Encoding loses nothing of a well-formed string. */
  lemma {:induction false} DecodeEncode(s: Str)
    requires WellFormed(s)
    ensures Decode(Encode(s)) == s
    decreases |s|
  {
    hide Octets, Units, Value, First, Length;
    if s != [] {
      var rest := s[Width(s)..];
      OctetsRead(First(s), Encode(rest));
      UnitsOf(s);
      DecodeEncode(rest);
      assert s == s[..Width(s)] + rest;
    }
  }

  // ---- counting without an encoder --------------------------------------------------------------

  function Cost(c: Unit): nat {
    if c < 0x80 then 1 else if c < 0x800 then 2 else if IsHigh(c) then 4 else 3
  }

  /** What the loop counts: after any high surrogate it skips a unit, whatever that is. */
  function Counted(s: Str): nat {
    if s == [] then 0
    else if IsHigh(s[0]) && |s| > 1 then Cost(s[0]) + Counted(s[2..])
    else Cost(s[0]) + Counted(s[1..])
  }

  /** `utf8ByteLength` where there is no encoder. */
  method ByteLength(s: Str) returns (bytes: nat)
    ensures bytes == Counted(s)
    ensures WellFormed(s) ==> bytes == |Encode(s)|
  {
    hide Encode, WellFormed;
    bytes := 0;
    var i := 0;
    while i < |s|
      invariant i <= |s| && bytes + Counted(s[i..]) == Counted(s)
    {
      NextCounted(s, i);
      var c := s[i];
      if c < 0x80 {
        bytes := bytes + 1;
      } else if c < 0x800 {
        bytes := bytes + 2;
      } else if 0xD800 <= c <= 0xDBFF {
        bytes := bytes + 4;
        i := if i + 1 < |s| then i + 1 else i;
      } else {
        bytes := bytes + 3;
      }
      i := i + 1;
    }
    if WellFormed(s) {
      CountedIsEncoded(s);
    }
  }

  lemma NextCounted(s: Str, i: nat)
    requires i < |s|
    ensures Counted(s[i..]) == Cost(s[i]) + Counted(s[if IsHigh(s[i]) && i + 1 < |s| then i + 2 else i + 1..])
  {
    assert s[i..][1..] == s[i + 1..];
    if i + 1 < |s| {
      assert s[i..][2..] == s[i + 2..];
    }
  }

  /** On a well-formed string, which is all that `JSON.stringify` returns, the count is the size
      of the encoding. */
  lemma {:induction false} CountedIsEncoded(s: Str)
    requires WellFormed(s)
    ensures Counted(s) == |Encode(s)|
    decreases |s|
  {
    if s != [] {
      CountedIsEncoded(s[Width(s)..]);
    }
  }

  // ---- on any string ------------------------------------------------------------------------------

  /** What a skipped unit adds to the encoding, `s` beginning with it: its own octets, or the one
      by which a pair is larger than its second half alone. */
  function Skipped(s: Str): nat
    requires s != []
  {
    if Width(s) == 2 then 1 else |Octets(First(s))|
  }

  /** The bytes that go missing at the high surrogates that the loop meets with no low one behind
      them: each is counted as four instead of three, and what follows it is not counted. */
  function Missed(s: Str): int {
    if s == [] then 0
    else if !IsHigh(s[0]) then Missed(s[1..])
    else if |s| == 1 then -1
    else if IsLow(s[1]) then Missed(s[2..])
    else Skipped(s[1..]) - 1 + Missed(s[2..])
  }

  /** On any string the count falls short of the size of the encoding by just those bytes, and so
      exceeds it by one at most, and only when the string ends in a high surrogate. */
  lemma {:induction false} CountExact(s: Str)
    ensures |Encode(s)| - Counted(s) == Missed(s)
    ensures Missed(s) >= if s != [] && IsHigh(s[|s| - 1]) then -1 else 0
    decreases |s|
  {
    hide Octets;
    if s != [] {
      OctetSizes(s[0]);
      if IsHigh(s[0]) && |s| > 1 {
        CountExact(s[2..]);
        if !IsLow(s[1]) {
          SkippedAdds(s);
        }
      } else {
        CountExact(s[1..]);
      }
    }
  }

  lemma OctetSizes(c: Unit)
    ensures |Octets(0xFFFD)| == 3
    ensures !IsHigh(c) && !IsLow(c) ==> |Octets(c)| == Cost(c)
    ensures forall d: CodePoint :: d >= 0x1_0000 ==> |Octets(d)| == 4
  {
  }

  lemma SkippedAdds(s: Str)
    requires |s| > 1 && IsHigh(s[0]) && !IsLow(s[1])
    ensures |Encode(s)| == 3 + Skipped(s[1..]) + |Encode(s[2..])|
  {
    hide Octets;
    OctetSizes(s[0]);
    assert s[1..][1..] == s[2..];
    if Width(s[1..]) == 2 {
      assert s[1..][2..] == s[2..][1..];
    }
  }

  /** A lone high surrogate puts the count right when a single byte follows, short before a longer
      character, and over at the end. */
  lemma LoneHighCounts(high: Unit, next: Unit)
    requires IsHigh(high) && !IsHigh(next) && !IsLow(next)
    ensures Counted([high, next]) == |Encode([high, next])| <==> next < 0x80
    ensures Counted([high]) == |Encode([high])| + 1
  {
    CountExact([high, next]);
    CountExact([high]);
    assert [high, next][1..] == [next] && [high, next][2..] == [];
  }
}
