/**
 * The byte stream whose hash names an encrypted source row (apps/web/lib/e2ee-to-managed-migration.ts).
 * Every field is written as three length-prefixed items: its name, its type and its value.
 */
module SourceDigest {
  import opened Prelude
  import opened Utf16

  const MAX_CIPHERTEXT: nat := 1_048_576
  const MAX_VERSION: int := 32_767
  const ITEM_LIMIT: nat := 0x1_0000_0000

  datatype Role = User | Assistant

  /** A row before validation; the time is its ISO 8601 text. */
  datatype SourceRow = SourceRow(
    id: Text, userId: Text, dedupKey: Text, sessionId: Option<Text>, providerKey: Text, turnRole: Role, ts: Text,
    keyVersion: int, contentOwnerId: Text, contentKeyVersion: int, aadVersion: int,
    wrappedDek: seq<Byte>, dekWrapIv: seq<Byte>, dekWrapAuthTag: seq<Byte>,
    iv: seq<Byte>, ciphertext: seq<Byte>, authTag: seq<Byte>)

  // ------------------------------------------------------------------ validation

  predicate IsDigit(u: Unit) { '0' as int <= u <= '9' as int }

  predicate IsHex(u: Unit) { IsDigit(u) || 'a' as int <= u <= 'f' as int || 'A' as int <= u <= 'F' as int }

  predicate IsUuid(text: Text) {
    && |text| == 36
    && (forall i :: 0 <= i < 36 ==> if i in {8, 13, 18, 23} then text[i] == '-' as int else IsHex(text[i]))
    && '1' as int <= text[14] <= '8' as int
    && text[19] in {'8' as int, '9' as int, 'a' as int, 'b' as int, 'A' as int, 'B' as int}
  }

  function NumberOf(digits: Text): (n: int)
    ensures (forall i :: 0 <= i < |digits| ==> IsDigit(digits[i])) ==> n >= 0
  {
    if digits == [] then 0 else NumberOf(digits[..|digits| - 1]) * 10 + digits[|digits| - 1] - '0' as int
  }

  const MAX_ID: nat := 9_223_372_036_854_775_807

  predicate IsDecimal(text: Text) {
    && text != [] && text[0] != '0' as int
    && (forall i :: 0 <= i < |text| ==> IsDigit(text[i]))
    && NumberOf(text) <= MAX_ID
  }

  predicate IsBounded(text: Text, max: nat) { 0 < |text| <= max }

  predicate IsVersion(n: int) { 1 <= n <= MAX_VERSION }

  /** What validation demands of an encrypted source row. */
  predicate IsValid(row: SourceRow) {
    && IsVersion(row.keyVersion) && row.contentKeyVersion == row.keyVersion && row.aadVersion == 1
    && IsUuid(row.contentOwnerId) && IsUuid(row.userId)
    && IsDecimal(row.id) && IsBounded(row.dedupKey, 255) && IsBounded(row.providerKey, 100)
    && IsBounded(row.ts, 27)
    && (row.sessionId.Some? ==> IsBounded(row.sessionId.value, 255))
    && |row.wrappedDek| == 32 && |row.dekWrapIv| == 12 && |row.dekWrapAuthTag| == 16
    && |row.iv| == 12 && 1 <= |row.ciphertext| <= MAX_CIPHERTEXT && |row.authTag| == 16
  }

  // ------------------------------------------------------------------- the stream

  /** A four-byte big-endian number. */
  function BigEndian(n: nat): (bytes: seq<Byte>)
    requires n < ITEM_LIMIT
    ensures |bytes| == 4
  {
    var a: Byte := n / 0x100 / 0x100 / 0x100;
    var b: Byte := n / 0x100 / 0x100 % 0x100;
    var c: Byte := n / 0x100 % 0x100;
    var d: Byte := n % 0x100;
    [a, b, c, d]
  }

  lemma SplitByte(n: nat)
    ensures n == n / 0x100 * 0x100 + n % 0x100
  {
  }

  lemma BigEndianIsInjective(m: nat, n: nat)
    requires m < ITEM_LIMIT && n < ITEM_LIMIT && BigEndian(m) == BigEndian(n)
    ensures m == n
  {
    var (x, y) := (BigEndian(m), BigEndian(n));
    assert x[0] == y[0] && x[1] == y[1] && x[2] == y[2] && x[3] == y[3];
    SplitByte(m); SplitByte(m / 0x100); SplitByte(m / 0x100 / 0x100);
    SplitByte(n); SplitByte(n / 0x100); SplitByte(n / 0x100 / 0x100);
  }

  predicate Fits(item: seq<Byte>) { |item| < ITEM_LIMIT }

  function Item(item: seq<Byte>): seq<Byte>
    requires Fits(item)
  {
    BigEndian(|item|) + item
  }

  /** An item is its length in four bytes, the most significant first, and then itself. */
  lemma ItemLayout(item: seq<Byte>)
    requires Fits(item)
    ensures var s := Item(item);
            && |s| == 4 + |item| && s[4..] == item
            && (s[0] as int) * 0x1000000 + (s[1] as int) * 0x10000 + (s[2] as int) * 0x100 + (s[3] as int) == |item|
  {
    var n := |item|;
    SplitByte(n);
    SplitByte(n / 0x100);
    SplitByte(n / 0x100 / 0x100);
  }

  /** Two streams that start with an item and agree have that item and the rest in common. */
  lemma ItemIsPrefixFree(a: seq<Byte>, b: seq<Byte>, restA: seq<Byte>, restB: seq<Byte>)
    requires Fits(a) && Fits(b) && Item(a) + restA == Item(b) + restB
    ensures a == b && restA == restB
  {
    var (sa, sb) := (Item(a) + restA, Item(b) + restB);
    assert BigEndian(|a|) == sa[..4] && BigEndian(|b|) == sb[..4];
    BigEndianIsInjective(|a|, |b|);
    hide BigEndian;
    assert a == sa[4..4 + |a|] && b == sb[4..4 + |b|];
    assert restA == sa[4 + |a|..] && restB == sb[4 + |b|..];
  }

  datatype Field = Field(name: seq<Byte>, kind: seq<Byte>, value: seq<Byte>)

  predicate FieldFits(field: Field) { Fits(field.name) && Fits(field.kind) && Fits(field.value) }

  function FieldBytes(field: Field): seq<Byte>
    requires FieldFits(field)
  {
    Item(field.name) + Item(field.kind) + Item(field.value)
  }

  /** A field is its name, its kind and its value, in this order. */
  lemma FieldLayout(field: Field)
    requires FieldFits(field)
    ensures var (s, n, k) := (FieldBytes(field), |field.name|, |field.kind|);
            && |s| == 12 + n + k + |field.value|
            && s[4..4 + n] == field.name && s[8 + n..8 + n + k] == field.kind && s[12 + n + k..] == field.value
  {
    ItemLayout(field.name);
    ItemLayout(field.kind);
    ItemLayout(field.value);
    hide Item;
  }

  ghost predicate AllFit(fields: seq<Field>) { forall k :: 0 <= k < |fields| ==> FieldFits(fields[k]) }

  ghost function Stream(fields: seq<Field>): seq<Byte>
    requires AllFit(fields)
    decreases |fields|
  {
    if fields == [] then [] else FieldBytes(fields[0]) + Stream(fields[1..])
  }

  lemma FieldIsPrefixFree(a: Field, b: Field, restA: seq<Byte>, restB: seq<Byte>)
    requires FieldFits(a) && FieldFits(b) && FieldBytes(a) + restA == FieldBytes(b) + restB
    ensures a == b && restA == restB
  {
    hide Item;
    assert FieldBytes(a) + restA == Item(a.name) + (Item(a.kind) + (Item(a.value) + restA));
    assert FieldBytes(b) + restB == Item(b.name) + (Item(b.kind) + (Item(b.value) + restB));
    ItemIsPrefixFree(a.name, b.name, Item(a.kind) + (Item(a.value) + restA), Item(b.kind) + (Item(b.value) + restB));
    ItemIsPrefixFree(a.kind, b.kind, Item(a.value) + restA, Item(b.value) + restB);
    ItemIsPrefixFree(a.value, b.value, restA, restB);
  }

  lemma EmptyStream(fields: seq<Field>)
    requires AllFit(fields)
    ensures Stream(fields) == [] <==> fields == []
  {
    hide BigEndian;
  }

  /** A stream can be read in one way only. */
  lemma {:induction false} StreamIsInjective(a: seq<Field>, b: seq<Field>)
    requires AllFit(a) && AllFit(b) && Stream(a) == Stream(b)
    ensures a == b
    decreases |a|
  {
    if a == [] || b == [] {
      EmptyStream(a);
      EmptyStream(b);
    } else {
      hide FieldBytes, FieldFits;
      FieldIsPrefixFree(a[0], b[0], Stream(a[1..]), Stream(b[1..]));
      hide Stream;
      StreamIsInjective(a[1..], b[1..]);
      assert a == [a[0]] + a[1..] && b == [b[0]] + b[1..];
    }
  }

  // ---------------------------------------------------------- the fields of a row

  function AsciiByte(c: char): Byte { if c < '\U{0080}' then c as int else 0 }

  function Ascii(text: string): (bytes: seq<Byte>)
    ensures |bytes| == |text|
  {
    seq(|text|, i requires 0 <= i < |text| => AsciiByte(text[i]))
  }

  /** The names and kinds are stored in ASCII. */
  lemma AsciiKeepsCodes(text: string)
    requires forall i :: 0 <= i < |text| ==> text[i] as int < 0x80
    ensures forall i :: 0 <= i < |text| ==> Ascii(text)[i] == text[i] as int
  {
  }

  function DigitUnit(n: nat): Unit
    requires n < 10
  {
    '0' as int + n
  }

  /** A number in decimal digits. */
  function DecimalText(n: nat): Text
    decreases n
  {
    if n < 10 then [DigitUnit(n)] else DecimalText(n / 10) + [DigitUnit(n % 10)]
  }

  lemma {:induction false} DecimalIsRead(n: nat)
    ensures NumberOf(DecimalText(n)) == n
    ensures 1 <= |DecimalText(n)| && (n > 0 ==> |DecimalText(n)| <= n)
    decreases n
  {
    if n < 10 {
      assert [DigitUnit(n)][..0] == [];
    } else {
      DecimalIsRead(n / 10);
      var digits := DecimalText(n / 10) + [DigitUnit(n % 10)];
      assert digits[..|digits| - 1] == DecimalText(n / 10);
    }
  }

  lemma {:induction false} DecimalTextIsDigits(n: nat)
    ensures forall i :: 0 <= i < |DecimalText(n)| ==> IsDigit(DecimalText(n)[i])
    ensures n > 0 ==> DecimalText(n)[0] != '0' as int
    decreases n
  {
    if n >= 10 { DecimalTextIsDigits(n / 10); }
  }

  lemma {:induction false} DigitsComeBack(text: Text)
    requires text != [] && text[0] != '0' as int && forall i :: 0 <= i < |text| ==> IsDigit(text[i])
    ensures NumberOf(text) > 0 && DecimalText(NumberOf(text)) == text
    decreases |text|
  {
    var last := |text| - 1;
    assert text == text[..last] + [text[last]];
    if last == 0 {
      assert text[..0] == [];
    } else {
      DigitsComeBack(text[..last]);
      var n, d := NumberOf(text[..last]), text[last] - '0' as int;
      assert NumberOf(text) == n * 10 + d && (n * 10 + d) / 10 == n && (n * 10 + d) % 10 == d;
    }
  }

  /** A number from one to the largest of 64 bits, in decimal digits. */
  ghost predicate IsNumeral(text: Text) { exists n: nat :: 1 <= n <= 9_223_372_036_854_775_807 && text == DecimalText(n) }

  /** An identifier is such a number, written without leading zeros. */
  lemma DecimalIff(text: Text)
    ensures IsDecimal(text) <==> IsNumeral(text)
  {
    if IsDecimal(text) {
      DigitsComeBack(text);
      assert text == DecimalText(NumberOf(text));
    }
    if IsNumeral(text) {
      var n: nat :| 1 <= n <= 9_223_372_036_854_775_807 && text == DecimalText(n);
      DecimalIsRead(n);
      DecimalTextIsDigits(n);
    }
  }

  function RoleText(role: Role): string { match role case User => "user" case Assistant => "assistant" }

  function TextField(name: string, kind: string, value: Text): Field { Field(Ascii(name), Ascii(kind), ToUtf8(value)) }

  function NumberField(name: string, value: int): Field {
    Field(Ascii(name), Ascii("integer"), ToUtf8(DecimalText(if value < 0 then 0 else value)))
  }

  function ByteField(name: string, value: seq<Byte>): Field { Field(Ascii(name), Ascii("bytes"), value) }

  function SessionField(sessionId: Option<Text>): Field {
    match sessionId
    case None => Field(Ascii("session_id"), Ascii("null"), [])
    case Some(text) => TextField("session_id", "string", text)
  }

  /** Who the row belongs to and what it is about. */
  function Identity(row: SourceRow): seq<Field> {
    [Field(Ascii("schema"), Ascii("string"), Ascii("e2ee-source-v1")),
     TextField("id", "decimal", row.id),
     TextField("user_id", "uuid", row.userId),
     TextField("dedup_key", "string", row.dedupKey),
     SessionField(row.sessionId),
     TextField("provider_key", "string", row.providerKey)]
  }

  /** How and under which key it is encrypted. */
  function Context(row: SourceRow): seq<Field> {
    [Field(Ascii("turn_role"), Ascii("role"), Ascii(RoleText(row.turnRole))),
     TextField("ts", "timestamp", row.ts),
     Field(Ascii("encryption_scheme"), Ascii("string"), Ascii("e2ee_v1")),
     NumberField("key_version", row.keyVersion),
     TextField("content_owner_id", "uuid", row.contentOwnerId),
     NumberField("content_key_version", row.contentKeyVersion),
     NumberField("aad_version", 1)]
  }

  function Buffers(row: SourceRow): seq<Field> {
    [ByteField("wrapped_dek", row.wrappedDek),
     ByteField("dek_wrap_iv", row.dekWrapIv),
     ByteField("dek_wrap_auth_tag", row.dekWrapAuthTag),
     ByteField("iv", row.iv),
     ByteField("ciphertext", row.ciphertext),
     ByteField("auth_tag", row.authTag)]
  }

  function Fields(row: SourceRow): seq<Field> { Identity(row) + Context(row) + Buffers(row) }

  function Pow10(n: nat): nat
    decreases n
  { if n == 0 then 1 else 10 * Pow10(n - 1) }

  lemma {:induction false} Pow10Grows(m: nat, n: nat)
    requires m <= n
    ensures 1 <= Pow10(m) <= Pow10(n)
    decreases n
  {
    if n > 0 { Pow10Grows(if m < n then m else m - 1, n - 1); }
  }

  lemma {:induction false} DigitsAreLarge(text: Text)
    requires text != [] && text[0] != '0' as int && forall i :: 0 <= i < |text| ==> IsDigit(text[i])
    ensures NumberOf(text) >= Pow10(|text| - 1)
    decreases |text|
  {
    if |text| > 1 {
      DigitsAreLarge(text[..|text| - 1]);
    } else {
      assert text[..0] == [];
    }
  }

  lemma TenToTheNineteen()
    ensures Pow10(19) == 10_000_000_000_000_000_000
  {
    assert Pow10(5) == 100_000;
    assert Pow10(10) == 10_000_000_000;
    assert Pow10(15) == 1_000_000_000_000_000;
  }

  /** An identifier has at most nineteen digits. */
  lemma IdIsShort(text: Text)
    requires IsDecimal(text)
    ensures |text| <= 19
  {
    DigitsAreLarge(text);
    TenToTheNineteen();
    Pow10Grows(if |text| > 19 then 19 else 0, |text| - 1);
  }

  lemma TextFits(name: string, kind: string, value: Text)
    requires |name| <= 32 && |kind| <= 32 && |value| <= 0x1000
    ensures FieldFits(TextField(name, kind, value))
  {
    var length := ByteLength(value);
  }

  lemma NumberFits(name: string, value: int)
    requires |name| <= 32 && 0 <= value <= MAX_VERSION
    ensures FieldFits(NumberField(name, value))
  {
    DecimalIsRead(value);
    var length := ByteLength(DecimalText(value));
  }

  lemma AllFitConcat(a: seq<Field>, b: seq<Field>)
    requires AllFit(a) && AllFit(b)
    ensures AllFit(a + b)
  {
  }

  lemma IdentityFits(row: SourceRow)
    requires IsValid(row)
    ensures AllFit(Identity(row))
  {
    IdIsShort(row.id);
    assert |row.userId| == 36;
    hide IsUuid, IsDecimal, FieldFits, TextField, Ascii;
    TextFits("id", "decimal", row.id);
    TextFits("user_id", "uuid", row.userId);
    TextFits("dedup_key", "string", row.dedupKey);
    if row.sessionId.Some? { TextFits("session_id", "string", row.sessionId.value); }
    TextFits("provider_key", "string", row.providerKey);
    ConstantFits("schema", "string", "e2ee-source-v1");
    ConstantFits("session_id", "null", "");
    assert Ascii("") == [];
  }

  lemma ConstantFits(name: string, kind: string, value: string)
    requires |name| <= 32 && |kind| <= 32 && |value| <= 32
    ensures FieldFits(Field(Ascii(name), Ascii(kind), Ascii(value)))
  {
  }

  lemma ContextFits(row: SourceRow)
    requires IsValid(row)
    ensures AllFit(Context(row))
  {
    assert |row.contentOwnerId| == 36;
    hide IsUuid, IsDecimal, FieldFits, TextField, NumberField, Ascii;
    TextFits("ts", "timestamp", row.ts);
    NumberFits("key_version", row.keyVersion);
    TextFits("content_owner_id", "uuid", row.contentOwnerId);
    NumberFits("content_key_version", row.contentKeyVersion);
    NumberFits("aad_version", 1);
    ConstantFits("turn_role", "role", RoleText(row.turnRole));
    ConstantFits("encryption_scheme", "string", "e2ee_v1");
  }

  lemma BuffersFit(row: SourceRow)
    requires IsValid(row)
    ensures AllFit(Buffers(row))
  {
    hide IsUuid, IsDecimal;
  }

  /** No length of a valid row overflows its four bytes. */
  lemma ValidFits(row: SourceRow)
    requires IsValid(row)
    ensures AllFit(Fields(row))
  {
    IdentityFits(row);
    ContextFits(row);
    BuffersFit(row);
    hide AllFit, Identity, Context, Buffers;
    AllFitConcat(Identity(row), Context(row));
    AllFitConcat(Identity(row) + Context(row), Buffers(row));
  }

  // ------------------------------------------------------- what validation lets through

  ghost predicate Hexes(text: Text, length: nat) { |text| == length && forall i :: 0 <= i < length ==> IsHexDigit(text[i]) }

  /** The code units of the hexadecimal digits. */
  predicate IsHexDigit(u: Unit) { 0x30 <= u <= 0x39 || 0x41 <= u <= 0x46 || 0x61 <= u <= 0x66 }

  /** Five groups of hexadecimal digits, a version from 1 to 8 and the variant of RFC 9562, section 4. */
  ghost predicate IsUuidOf(text: Text, a: Text, b: Text, c: Text, d: Text, e: Text) {
    && text == a + [0x2D] + b + [0x2D] + c + [0x2D] + d + [0x2D] + e
    && Hexes(a, 8) && Hexes(b, 4) && Hexes(c, 4) && Hexes(d, 4) && Hexes(e, 12)
    && 0x31 <= c[0] <= 0x38 && d[0] in {0x38, 0x39, 0x41, 0x42, 0x61, 0x62}
  }

  lemma UuidIff(text: Text)
    ensures IsUuid(text) <==> exists a, b, c, d, e :: IsUuidOf(text, a, b, c, d, e)
  {
    if IsUuid(text) {
      UuidIsCut(text);
    }
    if a, b, c, d, e :| IsUuidOf(text, a, b, c, d, e) {
      UuidIsJoined(text, a, b, c, d, e);
    }
  }

  lemma UuidIsCut(text: Text)
    requires IsUuid(text)
    ensures IsUuidOf(text, text[..8], text[9..13], text[14..18], text[19..23], text[24..])
  {
    var a, b, c, d, e := text[..8], text[9..13], text[14..18], text[19..23], text[24..];
    forall i | 0 <= i < 36 && i !in {8, 13, 18, 23} ensures IsHexDigit(text[i]) {
      assert IsHex(text[i]);
    }
    assert text[8] == 0x2D && text[13] == 0x2D && text[18] == 0x2D && text[23] == 0x2D;
    hide IsHexDigit;
    assert text == a + [0x2D] + b + [0x2D] + c + [0x2D] + d + [0x2D] + e;
  }

  lemma UuidIsJoined(text: Text, a: Text, b: Text, c: Text, d: Text, e: Text)
    requires IsUuidOf(text, a, b, c, d, e)
    ensures IsUuid(text)
  {
    assert text[..8] == a && text[9..13] == b && text[14..18] == c && text[19..23] == d && text[24..] == e;
    forall i | 0 <= i < 36 ensures if i in {8, 13, 18, 23} then text[i] == '-' as int else IsHex(text[i]) {
      if i < 8 { assert text[i] == a[i]; }
      else if 8 < i < 13 { assert text[i] == b[i - 9]; }
      else if 13 < i < 18 { assert text[i] == c[i - 14]; }
      else if 18 < i < 23 { assert text[i] == d[i - 19]; }
      else if 23 < i { assert text[i] == e[i - 24]; }
    }
    assert text[14] == c[0] && text[19] == d[0];
  }

  // ---------------------------------------------------------------- main results

  /** Field by field into the hash: the bytes it is fed. */
  method FeedHash(fields: seq<Field>) returns (fed: seq<Byte>)
    requires AllFit(fields)
    ensures fed == Stream(fields)
  {
    fed := [];
    hide FieldBytes;
    for n := 0 to |fields|
      invariant Stream(fields) == fed + Stream(fields[n..])
    {
      assert fields[n..][0] == fields[n] && fields[n..][1..] == fields[n + 1..];
      assert fed + (FieldBytes(fields[n]) + Stream(fields[n + 1..])) == (fed + FieldBytes(fields[n])) + Stream(fields[n + 1..]);
      fed := fed + FieldBytes(fields[n]);
    }
  }

  /** The digest of a valid row; an invalid one is corrupt. */
  method E2eeSourceDigest<T>(row: SourceRow, hash: seq<Byte> -> T) returns (digest: Result<T>)
    ensures digest.Ok? <==> IsValid(row)
    ensures IsValid(row) ==> AllFit(Fields(row)) && digest.value == hash(Stream(Fields(row)))
    ensures digest.Err? ==> digest.error == "E2EE_SOURCE_CORRUPT"
  {
    if !IsValid(row) { return Err("E2EE_SOURCE_CORRUPT"); }
    ValidFits(row);
    hide IsValid, Fields;
    var fed := FeedHash(Fields(row));
    return Ok(hash(fed));
  }

  ghost predicate Injective<T(!new)>(hash: seq<Byte> -> T) { forall a, b :: hash(a) == hash(b) ==> a == b }

  /** What the database can hold: no text with a lone surrogate. */
  ghost predicate Stored(row: SourceRow) {
    && WellFormed(row.id) && WellFormed(row.userId) && WellFormed(row.dedupKey) && WellFormed(row.providerKey)
    && WellFormed(row.ts) && WellFormed(row.contentOwnerId)
    && (row.sessionId.Some? ==> WellFormed(row.sessionId.value))
  }

  lemma SameBytesSameText(a: Text, b: Text)
    requires WellFormed(a) && WellFormed(b) && ToUtf8(a) == ToUtf8(b)
    ensures a == b
  {
    Utf8KeepsTextIff(a);
    Utf8KeepsTextIff(b);
  }

  lemma SameTextField(name: string, kind: string, a: Text, b: Text)
    requires WellFormed(a) && WellFormed(b) && TextField(name, kind, a) == TextField(name, kind, b)
    ensures a == b
  {
    SameBytesSameText(a, b);
  }

  /** A null session differs from every text by its type tag. */
  lemma SameSession(a: Option<Text>, b: Option<Text>)
    requires a.Some? ==> WellFormed(a.value)
    requires b.Some? ==> WellFormed(b.value)
    requires SessionField(a) == SessionField(b)
    ensures a == b
  {
    assert |Ascii("null")| == 4 && |Ascii("string")| == 6;
    if a.Some? && b.Some? { SameBytesSameText(a.value, b.value); }
  }

  lemma SameNumberField(name: string, a: int, b: int)
    requires 0 <= a && 0 <= b && NumberField(name, a) == NumberField(name, b)
    ensures a == b
  {
    DigitsAreWellFormed(a);
    DigitsAreWellFormed(b);
    SameBytesSameText(DecimalText(a), DecimalText(b));
    DecimalIsRead(a);
    DecimalIsRead(b);
  }

  lemma {:induction false} DigitsAreWellFormed(n: nat)
    ensures forall i :: 0 <= i < |DecimalText(n)| ==> IsDigit(DecimalText(n)[i])
    ensures WellFormed(DecimalText(n))
    decreases n
  {
    if n >= 10 { DigitsAreWellFormed(n / 10); }
  }

  lemma SameIdentity(a: SourceRow, b: SourceRow)
    requires Stored(a) && Stored(b) && Identity(a) == Identity(b)
    ensures a.id == b.id && a.userId == b.userId && a.dedupKey == b.dedupKey && a.sessionId == b.sessionId && a.providerKey == b.providerKey
  {
    hide WellFormed, Ascii, TextField, SessionField;
    var (x, y) := (Identity(a), Identity(b));
    assert x[1] == y[1] && x[2] == y[2] && x[3] == y[3] && x[4] == y[4] && x[5] == y[5];
    SameTextField("id", "decimal", a.id, b.id);
    SameTextField("user_id", "uuid", a.userId, b.userId);
    SameTextField("dedup_key", "string", a.dedupKey, b.dedupKey);
    SameSession(a.sessionId, b.sessionId);
    SameTextField("provider_key", "string", a.providerKey, b.providerKey);
  }

  lemma SameContext(a: SourceRow, b: SourceRow)
    requires Stored(a) && Stored(b) && IsValid(a) && IsValid(b) && Context(a) == Context(b)
    ensures a.turnRole == b.turnRole && a.ts == b.ts && a.keyVersion == b.keyVersion
    ensures a.contentOwnerId == b.contentOwnerId && a.contentKeyVersion == b.contentKeyVersion
  {
    hide IsUuid, IsDecimal;
    assert a.keyVersion > 0 && b.keyVersion > 0 && a.contentKeyVersion > 0 && b.contentKeyVersion > 0;
    assert |Ascii("user")| == 4 && |Ascii("assistant")| == 9;
    hide WellFormed, Ascii, TextField, NumberField, IsValid;
    var (x, y) := (Context(a), Context(b));
    assert x[0] == y[0] && x[1] == y[1] && x[3] == y[3] && x[4] == y[4] && x[5] == y[5];
    SameTextField("ts", "timestamp", a.ts, b.ts);
    SameNumberField("key_version", a.keyVersion, b.keyVersion);
    SameTextField("content_owner_id", "uuid", a.contentOwnerId, b.contentOwnerId);
    SameNumberField("content_key_version", a.contentKeyVersion, b.contentKeyVersion);
  }

  lemma SameBuffers(a: SourceRow, b: SourceRow)
    requires Buffers(a) == Buffers(b)
    ensures a.wrappedDek == b.wrappedDek && a.dekWrapIv == b.dekWrapIv && a.dekWrapAuthTag == b.dekWrapAuthTag
    ensures a.iv == b.iv && a.ciphertext == b.ciphertext && a.authTag == b.authTag
  {
    hide Ascii;
    var (x, y) := (Buffers(a), Buffers(b));
    assert x[0] == y[0] && x[1] == y[1] && x[2] == y[2] && x[3] == y[3] && x[4] == y[4] && x[5] == y[5];
  }

  lemma SameParts(a: SourceRow, b: SourceRow)
    requires Fields(a) == Fields(b)
    ensures Identity(a) == Identity(b) && Context(a) == Context(b) && Buffers(a) == Buffers(b)
  {
    PartLengths(a);
    PartLengths(b);
    hide Identity, Context, Buffers;
    var (x, y) := (Fields(a), Fields(b));
    assert Identity(a) == x[..6] && Identity(b) == y[..6];
    assert Context(a) == x[6..13] && Context(b) == y[6..13];
    assert Buffers(a) == x[13..] && Buffers(b) == y[13..];
  }

  lemma PartLengths(row: SourceRow)
    ensures |Identity(row)| == 6 && |Context(row)| == 7 && |Buffers(row)| == 6
  {
  }

  /** Two valid stored rows feed the hash the same bytes only when they are the same row. */
  lemma SameStreamSameRow(a: SourceRow, b: SourceRow)
    requires Stored(a) && Stored(b) && IsValid(a) && IsValid(b)
    ensures AllFit(Fields(a)) && AllFit(Fields(b))
    ensures Stream(Fields(a)) == Stream(Fields(b)) <==> a == b
  {
    assert a.aadVersion == 1 == b.aadVersion;
    hide Identity, Context, Buffers, Stored, IsValid, Fields, AllFit, Stream;
    ValidFits(a);
    ValidFits(b);
    if Stream(Fields(a)) == Stream(Fields(b)) {
      StreamIsInjective(Fields(a), Fields(b));
      SameParts(a, b);
      SameIdentity(a, b);
      SameContext(a, b);
      SameBuffers(a, b);
    }
  }

  /** With a hash that collides nowhere, equal digests name one and the same row. */
  lemma SameDigestSameRow<T(!new)>(a: SourceRow, b: SourceRow, hash: seq<Byte> -> T)
    requires Injective(hash) && Stored(a) && Stored(b) && IsValid(a) && IsValid(b)
    ensures AllFit(Fields(a)) && AllFit(Fields(b))
    ensures hash(Stream(Fields(a))) == hash(Stream(Fields(b))) <==> a == b
  {
    SameStreamSameRow(a, b);
  }
}
