/**
 * Texts as UTF-16 code units, the scanner that accepts them, and their UTF-8 form
 * (apps/web/lib/e2ee-to-managed-contract.ts; sections 3.8 and 3.9 of the Unicode Standard).
 */
module Utf16 {
  import opened Prelude

  type Unit = u: int | 0 <= u < 0x1_0000
  type Text = seq<Unit>
  type Byte = b: int | 0 <= b < 0x100

  predicate IsHigh(u: Unit) { 0xD800 <= u <= 0xDBFF }
  predicate IsLow(u: Unit) { 0xDC00 <= u <= 0xDFFF }

  /** Every high surrogate stands before a low one and every low one after a high one. */
  ghost predicate WellFormed(text: Text) {
    && (forall i :: 0 <= i < |text| && IsHigh(text[i]) ==> i + 1 < |text| && IsLow(text[i + 1]))
    && (forall i :: 0 <= i < |text| && IsLow(text[i]) ==> i > 0 && IsHigh(text[i - 1]))
  }

  /** Well formed but for one more high surrogate at the end. */
  ghost predicate EndsWithLoneHigh(text: Text) {
    text != [] && IsHigh(text[|text| - 1]) && WellFormed(text[..|text| - 1])
  }

  /** The unit at an index; past the end it compares with nothing, as NaN does. */
  function UnitAt(text: Text, index: nat): Option<Unit> { if index < |text| then Some(text[index]) else None }

  /** The scanner accepts exactly the well-formed texts and those that a lone high surrogate ends. */
  method WellFormedUnicode(text: Text) returns (ok: bool)
    ensures ok <==> WellFormed(text) || EndsWithLoneHigh(text)
  {
    var index := 0;
    while index < |text|
      invariant 0 <= index <= |text| + 1
      invariant index <= |text| ==> WellFormed(text[..index])
      invariant index == |text| + 1 ==> EndsWithLoneHigh(text)
    {
      var code := text[index];
      if 0xD800 <= code <= 0xDBFF {
        var next := UnitAt(text, index + 1);
        if next.Some? && (next.value < 0xDC00 || next.value > 0xDFFF) {
          NotWellFormed(text, index);
          return false;
        }
        if next.Some? { PairKeepsWellFormed(text, index); }
        index := index + 1;
      } else if 0xDC00 <= code <= 0xDFFF {
        LowNeedsHigh(text, index);
        return false;
      } else {
        PlainKeepsWellFormed(text, index);
      }
      index := index + 1;
    }
    if index == |text| {
      assert text[..|text|] == text;
    }
    return true;
  }

  lemma NotWellFormed(text: Text, i: nat)
    requires i + 1 < |text| && IsHigh(text[i]) && !IsLow(text[i + 1])
    ensures !WellFormed(text) && !EndsWithLoneHigh(text)
  {
    assert text[..|text| - 1][i] == text[i];
    assert i + 1 < |text| - 1 ==> text[..|text| - 1][i + 1] == text[i + 1];
  }

  lemma LowNeedsHigh(text: Text, i: nat)
    requires i < |text| && WellFormed(text[..i]) && IsLow(text[i])
    ensures !WellFormed(text) && !EndsWithLoneHigh(text)
  {
    assert i > 0 ==> text[i - 1] == text[..i][i - 1] && !IsHigh(text[i - 1]);
    assert i < |text| - 1 ==> text[..|text| - 1][i] == text[i];
    assert 0 < i < |text| - 1 ==> text[..|text| - 1][i - 1] == text[i - 1];
  }

  lemma PairKeepsWellFormed(text: Text, i: nat)
    requires i + 1 < |text| && WellFormed(text[..i]) && IsHigh(text[i]) && IsLow(text[i + 1])
    ensures WellFormed(text[..i + 2])
  {
    assert forall k :: 0 <= k < i ==> text[..i][k] == text[k] == text[..i + 2][k];
  }

  lemma PlainKeepsWellFormed(text: Text, i: nat)
    requires i < |text| && WellFormed(text[..i]) && !IsHigh(text[i]) && !IsLow(text[i])
    ensures WellFormed(text[..i + 1])
  {
    assert forall k :: 0 <= k < i ==> text[..i][k] == text[k] == text[..i + 1][k];
  }

  // ----------------------------------------------------------------- code points

  predicate IsScalar(c: int) { 0 <= c < 0xD800 || 0xE000 <= c < 0x11_0000 }

  type Scalar = c: int | 0 <= c < 0xD800 || 0xE000 <= c < 0x11_0000

  const REPLACEMENT: Scalar := 0xFFFD

  /** The code point of a surrogate pair. */
  function PairPoint(high: Unit, low: Unit): Scalar
    requires IsHigh(high) && IsLow(low)
  {
    0x1_0000 + (high - 0xD800) * 0x400 + (low - 0xDC00)
  }

  /** The code points of a text; a lone surrogate becomes the replacement character. */
  function CodePoints(text: Text): seq<Scalar>
    decreases |text|
  {
    if text == [] then []
    else if |text| >= 2 && IsHigh(text[0]) && IsLow(text[1]) then
      [PairPoint(text[0], text[1])] + CodePoints(text[2..])
    else if IsHigh(text[0]) || IsLow(text[0]) then [REPLACEMENT] + CodePoints(text[1..])
    else [text[0]] + CodePoints(text[1..])
  }

  function UnitsOf(c: Scalar): Text {
    if c < 0x1_0000 then
      var unit: Unit := c;
      [unit]
    else
      var high: Unit := 0xD800 + (c - 0x1_0000) / 0x400;
      var low: Unit := 0xDC00 + (c - 0x1_0000) % 0x400;
      [high, low]
  }

  function Units(points: seq<Scalar>): Text
    decreases |points|
  {
    if points == [] then [] else UnitsOf(points[0]) + Units(points[1..])
  }

  // ----------------------------------------------------------------------- UTF-8

  /** A byte that continues a code point, with six bits. */
  function Tail(bits: int): Byte
    requires 0 <= bits < 0x40
  {
    0x80 + bits
  }

  function BytesOf(c: Scalar): seq<Byte> {
    if c < 0x80 then
      var only: Byte := c;
      [only]
    else if c < 0x800 then
      var lead: Byte := 0xC0 + c / 0x40;
      [lead, Tail(c % 0x40)]
    else if c < 0x1_0000 then
      var lead: Byte := 0xE0 + c / 0x40 / 0x40;
      [lead, Tail(c / 0x40 % 0x40), Tail(c % 0x40)]
    else
      var lead: Byte := 0xF0 + c / 0x40 / 0x40 / 0x40;
      [lead, Tail(c / 0x40 / 0x40 % 0x40), Tail(c / 0x40 % 0x40), Tail(c % 0x40)]
  }

  function Encode(points: seq<Scalar>): seq<Byte>
    decreases |points|
  {
    if points == [] then [] else BytesOf(points[0]) + Encode(points[1..])
  }

  predicate IsTail(b: Byte) { 0x80 <= b < 0xC0 }

  /** The code point with the given leading bits and the six bits of each continuing byte. */
  function Join(bits: int, tail: seq<Byte>): int
    decreases |tail|
  {
    if tail == [] then bits else Join(bits, tail[..|tail| - 1]) * 0x40 + tail[|tail| - 1] - 0x80
  }

  /** How many bytes a leading byte announces; none when it cannot lead. */
  function Length(lead: Byte): nat {
    if lead < 0x80 then 1
    else if 0xC2 <= lead < 0xE0 then 2
    else if 0xE0 <= lead < 0xF0 then 3
    else if 0xF0 <= lead < 0xF5 then 4
    else 0
  }

  function LeadBits(lead: Byte): int {
    match Length(lead)
    case 1 => lead
    case 2 => lead - 0xC0
    case 3 => lead - 0xE0
    case _ => lead - 0xF0
  }

  /** The least code point that needs so many bytes. */
  function Least(length: nat): int {
    match length
    case 2 => 0x80
    case 3 => 0x800
    case 4 => 0x1_0000
    case _ => 0
  }

  /** The code point that bytes start with and the bytes it takes; nothing when they start no shortest form. */
  function First(bytes: seq<Byte>): Option<(Scalar, nat)> {
    if bytes == [] then None
    else
      var n := Length(bytes[0]);
      if n == 0 || n > |bytes| || exists k :: 1 <= k < n && !IsTail(bytes[k]) then None
      else
        var c := Join(LeadBits(bytes[0]), bytes[1..n]);
        if c >= Least(n) && IsScalar(c) then Some((c, n)) else None
  }

  /** A decoder that refuses every byte sequence that is not UTF-8. */
  function Decode(bytes: seq<Byte>): Option<seq<Scalar>>
    decreases |bytes|
  {
    if bytes == [] then Some([])
    else
      match First(bytes)
      case None => None
      case Some((c, n)) =>
        if n == 0 || n > |bytes| then None
        else
          match Decode(bytes[n..])
          case None => None
          case Some(rest) => Some([c] + rest)
  }

  lemma JoinOne(bits: int, b: Byte)
    ensures Join(bits, [b]) == bits * 0x40 + b - 0x80
  {
    assert [b][..0] == [];
  }

  lemma JoinNext(bits: int, tail: seq<Byte>, b: Byte)
    ensures Join(bits, tail + [b]) == Join(bits, tail) * 0x40 + b - 0x80
  {
    assert (tail + [b])[..|tail|] == tail;
  }

  lemma SixBits(c: int)
    requires c >= 0
    ensures c == c / 0x40 * 0x40 + c % 0x40 && 0 <= c % 0x40 < 0x40
  {
  }

  /** The tail bytes and the leading bits of a code point join to it. */
  lemma EncodedJoins(c: Scalar)
    ensures var bytes := BytesOf(c);
            && 1 <= |bytes| <= 4
            && Length(bytes[0]) == |bytes|
            && Least(|bytes|) <= c
            && (forall k :: 1 <= k < |bytes| ==> IsTail(bytes[k]))
            && Join(LeadBits(bytes[0]), bytes[1..]) == c
  {
    var bytes := BytesOf(c);
    SixBits(c);
    SixBits(c / 0x40);
    SixBits(c / 0x40 / 0x40);
    if c < 0x80 {
      assert bytes[1..] == [];
    } else if c < 0x800 {
      assert bytes[1..] == [Tail(c % 0x40)];
      JoinOne(c / 0x40, Tail(c % 0x40));
    } else if c < 0x1_0000 {
      assert bytes[1..] == [Tail(c / 0x40 % 0x40)] + [Tail(c % 0x40)];
      JoinOne(c / 0x40 / 0x40, Tail(c / 0x40 % 0x40));
      JoinNext(c / 0x40 / 0x40, [Tail(c / 0x40 % 0x40)], Tail(c % 0x40));
    } else {
      assert bytes[1..] == ([Tail(c / 0x40 / 0x40 % 0x40)] + [Tail(c / 0x40 % 0x40)]) + [Tail(c % 0x40)];
      JoinOne(c / 0x40 / 0x40 / 0x40, Tail(c / 0x40 / 0x40 % 0x40));
      JoinNext(c / 0x40 / 0x40 / 0x40, [Tail(c / 0x40 / 0x40 % 0x40)], Tail(c / 0x40 % 0x40));
      JoinNext(c / 0x40 / 0x40 / 0x40, [Tail(c / 0x40 / 0x40 % 0x40)] + [Tail(c / 0x40 % 0x40)], Tail(c % 0x40));
    }
  }

  lemma FirstOfEncoded(c: Scalar, rest: seq<Byte>)
    ensures First(BytesOf(c) + rest) == Some((c, |BytesOf(c)|))
  {
    EncodedJoins(c);
    hide BytesOf, Join, LeadBits, Least, Length, IsTail;
    var bytes := BytesOf(c);
    assert (bytes + rest)[1..|bytes|] == bytes[1..];
  }

  lemma Split(c: int, a: int, b: int)
    requires c == a * 0x40 + b && 0 <= b < 0x40
    ensures c / 0x40 == a && c % 0x40 == b
  {
  }

  lemma TwoBytes(c: Scalar, lead: Byte, x: Byte)
    requires 0xC2 <= lead < 0xE0 && IsTail(x) && c == (lead - 0xC0) * 0x40 + x - 0x80
    ensures BytesOf(c) == [lead, x]
  {
    Split(c, lead - 0xC0, x - 0x80);
  }

  lemma ThreeBytes(c: Scalar, lead: Byte, x: Byte, y: Byte)
    requires 0xE0 <= lead < 0xF0 && IsTail(x) && IsTail(y) && c >= 0x800
    requires c == ((lead - 0xE0) * 0x40 + x - 0x80) * 0x40 + y - 0x80
    ensures BytesOf(c) == [lead, x, y]
  {
    var high := (lead - 0xE0) * 0x40 + x - 0x80;
    Split(c, high, y - 0x80);
    Split(high, lead - 0xE0, x - 0x80);
  }

  lemma FourBytes(c: Scalar, lead: Byte, x: Byte, y: Byte, z: Byte)
    requires 0xF0 <= lead < 0xF5 && IsTail(x) && IsTail(y) && IsTail(z) && c >= 0x1_0000
    requires c == (((lead - 0xF0) * 0x40 + x - 0x80) * 0x40 + y - 0x80) * 0x40 + z - 0x80
    ensures BytesOf(c) == [lead, x, y, z]
  {
    var high := (lead - 0xF0) * 0x40 + x - 0x80;
    var middle := high * 0x40 + y - 0x80;
    Split(c, middle, z - 0x80);
    Split(middle, high, y - 0x80);
    Split(high, lead - 0xF0, x - 0x80);
  }

  /** Only the shortest form of a code point is decoded to it. */
  lemma EncodedFirst(bytes: seq<Byte>)
    requires First(bytes).Some?
    ensures var (c, n) := First(bytes).value;
            0 < n <= |bytes| && BytesOf(c) == bytes[..n]
  {
    var (c, n) := First(bytes).value;
    var bits, tail := LeadBits(bytes[0]), bytes[1..n];
    assert forall k :: 1 <= k < n ==> IsTail(bytes[k]);
    assert c == Join(bits, tail) && c >= Least(n) && n == Length(bytes[0]);
    hide BytesOf, First, Join, IsTail;
    if n == 1 {
      OneByte(c);
      assert tail == [] && bytes[..1] == [bytes[0]];
    } else if n == 2 {
      assert tail == [bytes[1]] && bytes[..2] == [bytes[0], bytes[1]];
      JoinOne(bits, bytes[1]);
      TwoBytes(c, bytes[0], bytes[1]);
    } else if n == 3 {
      assert tail == [bytes[1]] + [bytes[2]] && bytes[..3] == [bytes[0], bytes[1], bytes[2]];
      JoinOne(bits, bytes[1]);
      JoinNext(bits, [bytes[1]], bytes[2]);
      ThreeBytes(c, bytes[0], bytes[1], bytes[2]);
    } else {
      assert tail == ([bytes[1]] + [bytes[2]]) + [bytes[3]] && bytes[..4] == [bytes[0], bytes[1], bytes[2], bytes[3]];
      JoinOne(bits, bytes[1]);
      JoinNext(bits, [bytes[1]], bytes[2]);
      JoinNext(bits, [bytes[1]] + [bytes[2]], bytes[3]);
      FourBytes(c, bytes[0], bytes[1], bytes[2], bytes[3]);
    }
  }

  lemma OneByte(c: Scalar)
    ensures c < 0x80 ==> BytesOf(c) == [c]
  {
  }

  /** Decoding takes back what encoding made. */
  lemma {:induction false} DecodeEncode(points: seq<Scalar>)
    ensures Decode(Encode(points)) == Some(points)
    decreases |points|
  {
    if points != [] {
      hide BytesOf, First;
      var c, rest := points[0], Encode(points[1..]);
      DecodeEncode(points[1..]);
      FirstOfEncoded(c, rest);
      EncodedJoins(c);
      assert (BytesOf(c) + rest)[|BytesOf(c)|..] == rest;
      assert [c] + points[1..] == points;
    }
  }

  lemma EncodeCons(c: Scalar, rest: seq<Scalar>)
    ensures Encode([c] + rest) == BytesOf(c) + Encode(rest)
  {
    assert ([c] + rest)[1..] == rest;
  }

  lemma DecodeParts(bytes: seq<Byte>) returns (c: Scalar, n: nat)
    requires bytes != [] && Decode(bytes).Some?
    ensures First(bytes) == Some((c, n)) && 0 < n <= |bytes|
    ensures Decode(bytes[n..]).Some? && Decode(bytes).value == [c] + Decode(bytes[n..]).value
  {
    hide First;
    c, n := First(bytes).value.0, First(bytes).value.1;
  }

  /** What decodes is what encoding its code points makes: no two byte sequences decode alike. */
  lemma {:induction false} EncodeDecode(bytes: seq<Byte>)
    requires Decode(bytes).Some?
    ensures Encode(Decode(bytes).value) == bytes
    decreases |bytes|
  {
    if bytes == [] {
    } else {
      hide BytesOf, First, Encode, Decode;
      var c, n := DecodeParts(bytes);
      EncodedFirst(bytes);
      EncodeDecode(bytes[n..]);
      EncodeCons(c, Decode(bytes[n..]).value);
      assert bytes[..n] + bytes[n..] == bytes;
    }
  }

  // ------------------------------------------------- texts through UTF-8 and back

  function ToUtf8(text: Text): seq<Byte> { Encode(CodePoints(text)) }

  function FromUtf8(bytes: seq<Byte>): Option<Text> {
    match Decode(bytes)
    case None => None
    case Some(points) => Some(Units(points))
  }

  lemma PairUnits(high: Unit, low: Unit)
    requires IsHigh(high) && IsLow(low)
    ensures UnitsOf(PairPoint(high, low)) == [high, low]
  {
  }

  lemma {:induction false} WellFormedTail(text: Text, n: nat)
    requires WellFormed(text) && n <= |text|
    requires n > 0 ==> !IsHigh(text[n - 1])
    ensures WellFormed(text[n..])
  {
    var rest := text[n..];
    assert forall i :: 0 <= i < |rest| ==> rest[i] == text[n + i];
    forall i | 0 <= i < |rest| && IsLow(rest[i]) ensures i > 0 && IsHigh(rest[i - 1]) {
      assert IsLow(text[n + i]) && IsHigh(text[n + i - 1]);
    }
  }

  /** A well-formed text is the units of its code points. */
  lemma {:induction false} WellFormedComesBack(text: Text)
    requires WellFormed(text)
    ensures Units(CodePoints(text)) == text
    decreases |text|
  {
    if text != [] {
      if IsHigh(text[0]) {
        WellFormedTail(text, 2);
        assert IsLow(text[1]);
        hide WellFormed;
        WellFormedComesBack(text[2..]);
        PairUnits(text[0], text[1]);
        assert text == [text[0], text[1]] + text[2..];
      } else {
        WellFormedTail(text, 1);
        assert !IsLow(text[0]);
        hide WellFormed;
        WellFormedComesBack(text[1..]);
        assert text == [text[0]] + text[1..];
      }
    }
  }

  /** One plain unit or one pair of surrogates. */
  predicate IsOnePoint(units: Text) {
    || (|units| == 1 && !IsHigh(units[0]) && !IsLow(units[0]))
    || (|units| == 2 && IsHigh(units[0]) && IsLow(units[1]))
  }

  lemma PrependWellFormed(units: Text, rest: Text)
    requires WellFormed(rest)
    requires IsOnePoint(units)
    ensures WellFormed(units + rest)
  {
    var all := units + rest;
    forall i | 0 <= i < |all| && IsHigh(all[i]) ensures i + 1 < |all| && IsLow(all[i + 1]) {
      if i >= |units| { assert rest[i - |units|] == all[i]; }
    }
    forall i | 0 <= i < |all| && IsLow(all[i]) ensures i > 0 && IsHigh(all[i - 1]) {
      if i >= |units| { assert rest[i - |units|] == all[i]; }
    }
  }

  lemma UnitsOfIsWellFormed(c: Scalar)
    ensures IsOnePoint(UnitsOf(c))
  {
  }

  /** Units of code points are well formed, whatever the code points. */
  lemma {:induction false} UnitsAreWellFormed(points: seq<Scalar>)
    ensures WellFormed(Units(points))
    decreases |points|
  {
    if points != [] {
      UnitsAreWellFormed(points[1..]);
      UnitsOfIsWellFormed(points[0]);
      hide WellFormed, UnitsOf;
      PrependWellFormed(UnitsOf(points[0]), Units(points[1..]));
    }
  }

  /** The scanner's condition admits D800 alone, and UTF-8 makes FFFD of it. */
  lemma LoneHighIsLost()
    ensures EndsWithLoneHigh([0xD800]) && !WellFormed([0xD800])
    ensures FromUtf8(ToUtf8([0xD800])) == Some([0xFFFD])
  {
    var text: Text := [0xD800];
    assert text[..0] == [];
    assert CodePoints(text) == [REPLACEMENT];
    DecodeEncode([REPLACEMENT]);
    assert Units([REPLACEMENT]) == [0xFFFD];
  }

  /** A text survives UTF-8 exactly when it is well formed. */
  lemma Utf8KeepsTextIff(text: Text)
    ensures FromUtf8(ToUtf8(text)).Some?
    ensures FromUtf8(ToUtf8(text)) == Some(text) <==> WellFormed(text)
  {
    DecodeEncode(CodePoints(text));
    UnitsAreWellFormed(CodePoints(text));
    hide CodePoints, Units, WellFormed;
    if FromUtf8(ToUtf8(text)) != Some(text) {
      if WellFormed(text) { WellFormedComesBack(text); }
    }
  }

  /** The bytes of what comes back are the bytes that were written, so comparing hashes of them finds no difference. */
  lemma Utf8OfComeBack(text: Text)
    ensures FromUtf8(ToUtf8(text)).Some?
    ensures ToUtf8(FromUtf8(ToUtf8(text)).value) == ToUtf8(text)
  {
    DecodeEncode(CodePoints(text));
    PointsOfUnits(CodePoints(text));
  }

  lemma {:induction false} PointsOfUnits(points: seq<Scalar>)
    ensures CodePoints(Units(points)) == points
    decreases |points|
  {
    if points != [] {
      var c, rest := points[0], Units(points[1..]);
      PointsOfUnits(points[1..]);
      UnitsOfIsWellFormed(c);
      var units := UnitsOf(c);
      assert (units + rest)[|units|..] == rest;
      if |units| == 2 { PointOfPair(c); }
      assert [c] + points[1..] == points;
    }
  }

  /** The first and the last code point of every length, and examples of section 7 of RFC 3629. */
  lemma StandardExamples()
    ensures BytesOf(0) == [0x00] && BytesOf(0x7F) == [0x7F]
    ensures BytesOf(0x80) == [0xC2, 0x80] && BytesOf(0x7FF) == [0xDF, 0xBF]
    ensures BytesOf(0x800) == [0xE0, 0xA0, 0x80] && BytesOf(0xFFFF) == [0xEF, 0xBF, 0xBF]
    ensures BytesOf(0x1_0000) == [0xF0, 0x90, 0x80, 0x80] && BytesOf(0x10_FFFF) == [0xF4, 0x8F, 0xBF, 0xBF]
    ensures BytesOf(0x2262) == [0xE2, 0x89, 0xA2] && BytesOf(0x391) == [0xCE, 0x91] && BytesOf(0x2_33B4) == [0xF0, 0xA3, 0x8E, 0xB4]
    ensures UnitsOf(0x2_33B4) == [0xD84C, 0xDFB4] && UnitsOf(0x10_FFFF) == [0xDBFF, 0xDFFF] && UnitsOf(0x1_0000) == [0xD800, 0xDC00]
  {
  }

  lemma PointOfPair(c: Scalar)
    requires c >= 0x1_0000
    ensures var units := UnitsOf(c);
            IsHigh(units[0]) && IsLow(units[1]) && PairPoint(units[0], units[1]) == c
  {
  }

  // ---------------------------------------------------------------- sizes in bytes

  /** The number of bytes of a text's UTF-8 form. */
  function ByteLength(text: Text): (length: nat)
    ensures length == |ToUtf8(text)|
    ensures |text| <= length <= 3 * |text|
    decreases |text|
  {
    if text == [] then 0
    else if |text| >= 2 && IsHigh(text[0]) && IsLow(text[1]) then 4 + ByteLength(text[2..])
    else if text[0] < 0x80 then 1 + ByteLength(text[1..])
    else if text[0] < 0x800 then 2 + ByteLength(text[1..])
    else 3 + ByteLength(text[1..])
  }

  const MAX_TEXT_BYTES: nat := 1_048_576

  /** A text a commit may carry; the error names no more than that it may not. */
  method BoundedText(value: Text) returns (result: Result<Text>)
    ensures result.Ok? <==> value != [] && (WellFormed(value) || EndsWithLoneHigh(value)) && |ToUtf8(value)| <= 1_048_576
    ensures result.Ok? ==> result.value == value
    ensures result.Err? ==> result.error == "INVALID_MIGRATION_TEXT"
    ensures result.Ok? ==> (FromUtf8(ToUtf8(value)) == Some(value) <==> !EndsWithLoneHigh(value))
  {
    if |value| == 0 { return Err("INVALID_MIGRATION_TEXT"); }
    var wellFormed := WellFormedUnicode(value);
    hide FromUtf8, ToUtf8;
    Utf8KeepsTextIff(value);
    LoneHighIsIllFormed(value);
    if !wellFormed { return Err("INVALID_MIGRATION_TEXT"); }
    var bytes := ByteLength(value);
    if bytes < 1 || bytes > MAX_TEXT_BYTES { return Err("INVALID_MIGRATION_TEXT"); }
    return Ok(value);
  }

  lemma LoneHighIsIllFormed(text: Text)
    ensures EndsWithLoneHigh(text) ==> !WellFormed(text)
  {
  }
}
