/**
 * How much goes into one message: the packers count bytes as they go, and a page on the server serialises
 * every candidate anew (apps/web/lib/e2ee-legacy-contract.ts, e2ee-legacy-worker.ts,
 * e2ee-to-managed-worker.ts, e2ee-to-managed-migration.ts).
 */
module PayloadPacking {
  import opened Prelude
  import opened Utf16

  type Bytes = seq<Byte>

  const COMMA: Byte := 0x2C
  const MAX_BODY_BYTES: nat := 4_194_304

  /** The elements of a JSON array, with commas between them. */
  function Join(items: seq<Bytes>): Bytes
    decreases |items|
  {
    if items == [] then []
    else Join(items[..|items| - 1]) + (if |items| == 1 then [] else [COMMA]) + items[|items| - 1]
  }

  /** The text around the array of a message: what stands before the elements and after them. */
  datatype Frame = Frame(head: Bytes, tail: Bytes)

  function Body(frame: Frame, items: seq<Bytes>): Bytes { frame.head + Join(items) + frame.tail }

  /** One more element costs its own bytes and a comma unless it is the first. */
  lemma BodyGrows(frame: Frame, items: seq<Bytes>, item: Bytes)
    ensures |Body(frame, items + [item])| == |Body(frame, items)| + (if items == [] then 0 else 1) + |item|
    ensures |Body(frame, [])| == |frame.head| + |frame.tail|
  {
    assert (items + [item])[..|items|] == items;
  }

  lemma JoinNext(items: seq<Bytes>, item: Bytes)
    ensures Join(items + [item]) == if items == [] then item else Join(items) + [0x2C] + item
  {
    assert (items + [item])[..|items|] == items;
    assert items == [] ==> Join(items) + [] + item == item;
  }

  /** Between two elements stands a comma and nothing else. */
  lemma {:induction false} JoinSplits(a: seq<Bytes>, b: seq<Bytes>)
    requires a != [] && b != []
    ensures Join(a + b) == Join(a) + [0x2C] + Join(b)
    ensures Join([b[0]]) == b[0]
    decreases |b|
  {
    var last := |b| - 1;
    var init, item := b[..last], b[last];
    assert b == init + [item];
    assert [] + [b[0]] == [b[0]];
    JoinNext([], b[0]);
    JoinNext(a + init, item);
    JoinNext(init, item);
    hide Join;
    Associate(a, init, [item]);
    if init == [] {
      assert a + init == a;
    } else {
      JoinSplits(a, init);
      Associate(Join(a) + [0x2C], Join(init), [0x2C] + item);
      Associate(Join(init), [0x2C], item);
      Associate(Join(a) + [0x2C] + Join(init), [0x2C], item);
    }
  }

  lemma Associate<T>(x: seq<T>, y: seq<T>, z: seq<T>)
    ensures (x + y) + z == x + (y + z)
  {
  }

  lemma {:induction false} LongerIsLarger(frame: Frame, items: seq<Bytes>, m: nat, n: nat)
    requires m <= n <= |items|
    ensures |Body(frame, items[..m])| <= |Body(frame, items[..n])|
    decreases n
  {
    if m < n {
      assert items[..n] == items[..n - 1] + [items[n - 1]];
      BodyGrows(frame, items[..n - 1], items[n - 1]);
      LongerIsLarger(frame, items, m, n - 1);
    }
  }

  /** The longest non-empty prefix whose message has at most `max` bytes. */
  ghost predicate IsLongest(frame: Frame, items: seq<Bytes>, max: nat, n: nat) {
    && 0 < n <= |items|
    && |Body(frame, items[..n])| <= max
    && forall m :: n < m <= |items| ==> |Body(frame, items[..m])| > max
  }

  lemma NextTooLarge(frame: Frame, items: seq<Bytes>, max: nat, n: nat)
    requires 0 < n <= |items| && |Body(frame, items[..n])| <= max
    requires n < |items| ==> |Body(frame, items[..n + 1])| > max
    ensures IsLongest(frame, items, max, n)
  {
    forall m | n < m <= |items| ensures |Body(frame, items[..m])| > max {
      LongerIsLarger(frame, items, n + 1, m);
    }
  }

  /** There is one longest prefix, and there is one exactly when the first element alone fits. */
  lemma LongestIsUnique(frame: Frame, items: seq<Bytes>, max: nat, m: nat, n: nat)
    requires IsLongest(frame, items, max, m) && IsLongest(frame, items, max, n)
    ensures m == n
    ensures |Body(frame, items[..1])| <= max
  {
    LongerIsLarger(frame, items, 1, m);
  }

  /** Unless told otherwise a message has at most four MiB, and one element more would not fit. */
  lemma FillsFourMiB(frame: Frame, items: seq<Bytes>, n: nat)
    ensures IsLongest(frame, items, MAX_BODY_BYTES, n) <==>
      0 < n <= |items| && |Body(frame, items[..n])| <= 4 * 1024 * 1024 && (n < |items| ==> |Body(frame, items[..n + 1])| > 4 * 1024 * 1024)
  {
    hide Body;
    if 0 < n <= |items| && |Body(frame, items[..n])| <= 4 * 1024 * 1024 && (n < |items| ==> |Body(frame, items[..n + 1])| > 4 * 1024 * 1024) {
      NextTooLarge(frame, items, MAX_BODY_BYTES, n);
    }
  }

  function Serialized<T>(records: seq<T>, serialize: T -> Bytes): (items: seq<Bytes>)
    ensures |items| == |records| && forall k :: 0 <= k < |records| ==> items[k] == serialize(records[k])
  {
    seq(|records|, k requires 0 <= k < |records| => serialize(records[k]))
  }

  lemma SerializedPrefix<T>(records: seq<T>, serialize: T -> Bytes, n: nat)
    requires n <= |records|
    ensures Serialized(records, serialize)[..n] == Serialized(records[..n], serialize)
    ensures n < |records| ==> Serialized(records, serialize)[..n + 1] == Serialized(records[..n], serialize) + [serialize(records[n])]
  {
  }

  /** What both pagers return of a list. */
  ghost predicate IsPage<T>(frame: Frame, records: seq<T>, serialize: T -> Bytes, max: nat, page: seq<T>) {
    && |page| <= |records| && page == records[..|page|]
    && (records != [] ==> IsLongest(frame, Serialized(records, serialize), max, |page|))
  }

  /** The pager that counts as it goes. */
  method BoundLegacyMigrationPage<T>(frame: Frame, records: seq<T>, serialize: T -> Bytes, maxBytes: nat := MAX_BODY_BYTES) returns (result: Result<seq<T>>)
    ensures result.Err? <==> records != [] && |Body(frame, Serialized(records, serialize)[..1])| > maxBytes
    ensures result.Err? ==> result.error == "legacy migration record exceeds response budget"
    ensures result.Ok? ==> IsPage(frame, records, serialize, maxBytes, result.value)
  {
    ghost var items := Serialized(records, serialize);
    var totalBytes := |frame.head| + |frame.tail|;
    var bounded: seq<T> := [];
    BodyGrows(frame, [], []);
    assert items[..0] == [];
    hide Join, Body, Serialized;
    for n := 0 to |records|
      invariant bounded == records[..n] && totalBytes == |Body(frame, items[..n])|
      invariant n > 0 ==> totalBytes <= maxBytes
    {
      var recordBytes := |serialize(records[n])|;
      var separatorBytes := if |bounded| == 0 then 0 else 1;
      SerializedPrefix(records, serialize, n);
      BodyGrows(frame, items[..n], serialize(records[n]));
      if totalBytes + separatorBytes + recordBytes > maxBytes {
        if |bounded| == 0 { return Err("legacy migration record exceeds response budget"); }
        NextTooLarge(frame, items, maxBytes, n);
        LongerIsLarger(frame, items, 1, n);
        return Ok(bounded);
      }
      bounded := bounded + [records[n]];
      totalBytes := totalBytes + separatorBytes + recordBytes;
    }
    if records != [] {
      NextTooLarge(frame, items, maxBytes, |records|);
      LongerIsLarger(frame, items, 1, |records|);
    }
    return Ok(bounded);
  }

  /** The pager that serialises every candidate anew. */
  method ManagedMigrationPage<T>(frame: Frame, rows: seq<T>, serialize: T -> Bytes, maxBytes: nat := MAX_BODY_BYTES) returns (result: Result<seq<T>>)
    ensures result.Err? <==> rows != [] && |Body(frame, Serialized(rows, serialize)[..1])| > maxBytes
    ensures result.Err? ==> result.error == "MIGRATION_PAGE_TOO_LARGE"
    ensures result.Ok? ==> IsPage(frame, rows, serialize, maxBytes, result.value)
  {
    ghost var items := Serialized(rows, serialize);
    var records: seq<T> := [];
    for n := 0 to |rows|
      invariant records == rows[..n]
      invariant n > 0 ==> |Body(frame, items[..n])| <= maxBytes
    {
      var candidate := records + [rows[n]];
      assert candidate == rows[..n + 1];
      SerializedPrefix(rows, serialize, n + 1);
      hide Join, Serialized;
      if |Body(frame, Serialized(candidate, serialize))| > maxBytes {
        if |records| == 0 { return Err("MIGRATION_PAGE_TOO_LARGE"); }
        NextTooLarge(frame, items, maxBytes, n);
        LongerIsLarger(frame, items, 1, n);
        return Ok(records);
      }
      records := candidate;
    }
    if rows != [] {
      NextTooLarge(frame, items, maxBytes, |rows|);
      LongerIsLarger(frame, items, 1, |rows|);
    }
    return Ok(records);
  }

  /** Counting and serialising anew come to the same page. */
  lemma PagersAgree<T>(frame: Frame, records: seq<T>, serialize: T -> Bytes, max: nat, counted: seq<T>, serialized: seq<T>)
    requires IsPage(frame, records, serialize, max, counted) && IsPage(frame, records, serialize, max, serialized)
    ensures counted == serialized
  {
    if records != [] {
      LongestIsUnique(frame, Serialized(records, serialize), max, |counted|, |serialized|);
    }
  }

  // -------------------------------------------------------- the workers' packing loop

  /** The message of a batch: how many sources went in, its bytes, and how many the loop counted. */
  datatype Packed = Packed(count: nat, body: Bytes, payloadBytes: nat)

  /** The first `n` sources can be turned into items. */
  ghost predicate Convertible<S>(sources: seq<S>, convert: S -> Result<Bytes>, n: nat) {
    n <= |sources| && forall k :: 0 <= k < n ==> convert(sources[k]).Ok?
  }

  ghost function Items<S>(sources: seq<S>, convert: S -> Result<Bytes>, n: nat): (items: seq<Bytes>)
    requires Convertible(sources, convert, n)
    ensures |items| == n
  {
    seq(n, k requires 0 <= k < n => convert(sources[k]).value)
  }

  lemma ItemsNext<S>(sources: seq<S>, convert: S -> Result<Bytes>, n: nat)
    requires Convertible(sources, convert, n + 1)
    ensures Items(sources, convert, n + 1) == Items(sources, convert, n) + [convert(sources[n]).value]
  {
  }

  /** The loop cannot go past source `n`: it cannot be turned into an item, or it is the first and too large alone. */
  ghost predicate FailsAt<S>(frame: Frame, sources: seq<S>, convert: S -> Result<Bytes>, max: nat, n: nat) {
    && n < |sources| && Convertible(sources, convert, n)
    && (n > 0 ==> |Body(frame, Items(sources, convert, n))| <= max)
    && if convert(sources[n]).Err? then true else n == 0 && |Body(frame, [convert(sources[0]).value])| > max
  }

  /** Packs the longest prefix that fits; a source that cannot be converted fails the batch if it is reached. */
  method PackBatch<S>(frame: Frame, sources: seq<S>, convert: S -> Result<Bytes>, max: nat := MAX_BODY_BYTES) returns (result: Result<Packed>)
    requires sources != []
    ensures result.Err? <==> exists n :: FailsAt(frame, sources, convert, max, n)
    ensures result.Err? ==>
      exists n: nat :: FailsAt(frame, sources, convert, max, n) &&
        result.error == match convert(sources[n]) case Err(error) => error case Ok(_) => "MIGRATION_ITEM_TOO_LARGE"
    ensures result.Ok? ==>
      && 0 < result.value.count && Convertible(sources, convert, result.value.count)
      && result.value.body == Body(frame, Items(sources, convert, result.value.count))
      && result.value.payloadBytes == |result.value.body| <= max
    ensures result.Ok? && result.value.count < |sources| ==>
      && Convertible(sources, convert, result.value.count + 1)
      && |Body(frame, Items(sources, convert, result.value.count + 1))| > max
  {
    var serialized: seq<Bytes> := [];
    var payloadBytes := |frame.head| + |frame.tail|;
    BodyGrows(frame, [], []);
    hide Join, Body;
    for n := 0 to |sources|
      invariant Convertible(sources, convert, n) && serialized == Items(sources, convert, n)
      invariant payloadBytes == |Body(frame, serialized)|
      invariant n > 0 ==> payloadBytes <= max
    {
      var item := convert(sources[n]);
      if item.Err? {
        assert FailsAt(frame, sources, convert, max, n);
        return Err(item.error);
      }
      var separatorBytes := if |serialized| == 0 then 0 else 1;
      BodyGrows(frame, serialized, item.value);
      ItemsNext(sources, convert, n);
      if payloadBytes + separatorBytes + |item.value| > max {
        if |serialized| == 0 {
          assert serialized + [item.value] == [item.value];
          assert FailsAt(frame, sources, convert, max, n);
          return Err("MIGRATION_ITEM_TOO_LARGE");
        }
        PackedNeverFails(frame, sources, convert, max, n);
        return Ok(Packed(n, Body(frame, serialized), payloadBytes));
      }
      serialized := serialized + [item.value];
      payloadBytes := payloadBytes + separatorBytes + |item.value|;
    }
    PackedNeverFails(frame, sources, convert, max, |sources|);
    return Ok(Packed(|sources|, Body(frame, serialized), payloadBytes));
  }

  /** Where a batch could be packed, the loop fails at no source. */
  lemma PackedNeverFails<S>(frame: Frame, sources: seq<S>, convert: S -> Result<Bytes>, max: nat, count: nat)
    requires 0 < count && Convertible(sources, convert, count) && |Body(frame, Items(sources, convert, count))| <= max
    requires count < |sources| ==> Convertible(sources, convert, count + 1) && |Body(frame, Items(sources, convert, count + 1))| > max
    ensures !exists n :: FailsAt(frame, sources, convert, max, n)
  {
    forall n: nat ensures !FailsAt(frame, sources, convert, max, n) {
      if FailsAt(frame, sources, convert, max, n) {
        hide Join, Body;
        if n > count {
          var items := Items(sources, convert, n);
          assert items[..count + 1] == Items(sources, convert, count + 1) && items[..n] == items;
          LongerIsLarger(frame, items, count + 1, n);
        } else {
          var items := Items(sources, convert, count);
          assert n == 0 && items[..1] == [convert(sources[0]).value] && items[..count] == items;
          LongerIsLarger(frame, items, 1, count);
        }
      }
    }
  }

  /** The loop fails at one source at most: everything before it can be sent. */
  lemma FailsAtOnce<S>(frame: Frame, sources: seq<S>, convert: S -> Result<Bytes>, max: nat, m: nat, n: nat)
    requires FailsAt(frame, sources, convert, max, m) && FailsAt(frame, sources, convert, max, n)
    ensures m == n
  {
    hide Join, Body;
    if m != n {
      var first, later := if m < n then m else n, if m < n then n else m;
      var items := Items(sources, convert, later);
      assert convert(sources[first]).Ok?;
      assert items[..1] == [convert(sources[0]).value] && items[..later] == items;
      LongerIsLarger(frame, items, 1, later);
    }
  }

  /** A packed batch is the longest prefix of the sources that can be sent. */
  lemma {:induction false} PackedIsLongest<S>(frame: Frame, sources: seq<S>, convert: S -> Result<Bytes>, max: nat, count: nat)
    requires Convertible(sources, convert, |sources|) && 0 < count <= |sources|
    requires |Body(frame, Items(sources, convert, count))| <= max
    requires count < |sources| ==> |Body(frame, Items(sources, convert, count + 1))| > max
    ensures IsLongest(frame, Items(sources, convert, |sources|), max, count)
  {
    var items := Items(sources, convert, |sources|);
    assert items[..count] == Items(sources, convert, count);
    assert count < |sources| ==> items[..count + 1] == Items(sources, convert, count + 1);
    NextTooLarge(frame, items, max, count);
  }

  // -------------------------------------------------- what the browser makes of a plaintext

  predicate StartsWithMark(bytes: Bytes) {
    |bytes| >= 3 && bytes[0] == 0xEF && bytes[1] == 0xBB && bytes[2] == 0xBF
  }

  /** The decoder of the browser: refuses what is not UTF-8 and drops one leading byte order mark. */
  function BrowserText(bytes: Bytes): Option<Text> {
    FromUtf8(if StartsWithMark(bytes) then bytes[3..] else bytes)
  }

  /** The plaintext EF BB BF 41 is sent on as 41. */
  lemma MarkIsDropped()
    ensures var bytes: Bytes := [0xEF, 0xBB, 0xBF, 0x41];
            BrowserText(bytes) == Some([0x41]) && ToUtf8([0x41]) == [0x41] && ToUtf8([0x41]) != bytes
  {
    var bytes: Bytes := [0xEF, 0xBB, 0xBF, 0x41];
    assert bytes[3..] == [0x41];
    assert CodePoints([0x41]) == [0x41];
    assert Encode([0x41]) == [0x41];
    DecodeEncode([0x41]);
    assert Units([0x41]) == [0x41];
  }

  /** A plaintext that decodes is sent on unchanged exactly when it does not start with a byte order mark. */
  lemma BrowserKeepsPlaintextIff(bytes: Bytes)
    requires BrowserText(bytes).Some?
    ensures ToUtf8(BrowserText(bytes).value) == bytes <==> !StartsWithMark(bytes)
  {
    var kept := if StartsWithMark(bytes) then bytes[3..] else bytes;
    EncodeDecode(kept);
    PointsOfUnits(Decode(kept).value);
    hide Decode, Encode, Units, CodePoints;
    assert ToUtf8(BrowserText(bytes).value) == kept;
  }
}
