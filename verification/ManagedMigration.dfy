/**
 * Rows encrypted end to end become rows under a managed key, batch by batch
 * (apps/web/lib/e2ee-to-managed-migration.ts; the trigger of migrations/1700000036).
 * Encryption is ideal: what is sealed opens with the same key and context to the same bytes, and not else.
 */
module ManagedMigration {
  import opened Prelude
  import opened Utf16
  import SourceDigest

  type Digest = seq<Byte>
  type Key = seq<Byte>

  datatype Meta = Meta(userId: Text, dedupKey: Text, sessionId: Option<Text>, providerKey: Text, turnRole: SourceDigest.Role,
                       ts: Text, agent: Text)

  datatype Context = Context(installationId: Text, userId: Text, dedupKey: Text, providerKey: Text,
                             turnRole: SourceDigest.Role, ts: Text, keyVersion: int)

  datatype Sealed = Sealed(key: Key, context: Context, plaintext: seq<Byte>)

  function Unseal(sealed: Sealed, key: Key, context: Context): Option<seq<Byte>> {
    if sealed.key == key && sealed.context == context then Some(sealed.plaintext) else None
  }

  datatype Body =
    | E2ee(keyVersion: int, contentOwnerId: Text, contentKeyVersion: int, aadVersion: int, wrappedDek: seq<Byte>,
           dekWrapIv: seq<Byte>, dekWrapAuthTag: seq<Byte>, iv: seq<Byte>, ciphertext: seq<Byte>, authTag: seq<Byte>)
    | Managed(keyVersion: int, content: Sealed)

  datatype Record = Record(meta: Meta, body: Body)

  type Records = map<Text, Record>

  /** The columns of an encrypted row that its digest covers. */
  function SourceOf(id: Text, record: Record): SourceDigest.SourceRow
    requires record.body.E2ee?
  {
    var m, b := record.meta, record.body;
    SourceDigest.SourceRow(id, m.userId, m.dedupKey, m.sessionId, m.providerKey, m.turnRole, m.ts,
                           b.keyVersion, b.contentOwnerId, b.contentKeyVersion, b.aadVersion,
                           b.wrappedDek, b.dekWrapIv, b.dekWrapAuthTag, b.iv, b.ciphertext, b.authTag)
  }

  function ContextOf(meta: Meta, installationId: Text, keyVersion: int): Context {
    Context(installationId, meta.userId, meta.dedupKey, meta.providerKey, meta.turnRole, meta.ts, keyVersion)
  }

  function Encrypted(meta: Meta, text: Text, key: Key, installationId: Text, keyVersion: int): Body {
    Managed(keyVersion, Sealed(key, ContextOf(meta, installationId, keyVersion), ToUtf8(text)))
  }

  function Decrypted(record: Record, key: Key, installationId: Text): Option<Text> {
    if !record.body.Managed? then None
    else
      match Unseal(record.body.content, key, ContextOf(record.meta, installationId, record.body.keyVersion))
      case None => None
      case Some(bytes) => FromUtf8(bytes)
  }

  datatype Item = Item(id: Text, digest: Digest, text: Text)

  /** What a request commits under: the user, the installation, the user's key and its version, and the hash. */
  datatype Commit = Commit(userId: Text, installationId: Text, key: Key, keyVersion: int, hash: seq<Byte> -> Digest)

  // ------------------------------------------------------------------- one item

  ghost function SourceStream(source: SourceDigest.SourceRow): seq<Byte>
    requires SourceDigest.IsValid(source)
  {
    SourceDigest.ValidFits(source);
    SourceDigest.Stream(SourceDigest.Fields(source))
  }

  /** The row of an item is the user's, still encrypted end to end. */
  predicate IsSource(records: Records, id: Text, userId: Text) {
    id in records && records[id].meta.userId == userId && records[id].body.E2ee?
  }

  ghost function ItemError(records: Records, item: Item, commit: Commit): Option<string> {
    if !IsSource(records, item.id, commit.userId) then Some("E2EE_SOURCE_CHANGED")
    else
      var source := SourceOf(item.id, records[item.id]);
      if !SourceDigest.IsValid(source) then Some("E2EE_SOURCE_CORRUPT")
      else if commit.hash(SourceStream(source)) != item.digest then Some("E2EE_SOURCE_CHANGED")
      else if item.text == [] then Some("MANAGED_ROUND_TRIP_FAILED")
      else None
  }

  function Migrated(record: Record, text: Text, commit: Commit): Record {
    record.(body := Encrypted(record.meta, text, commit.key, commit.installationId, commit.keyVersion))
  }

  ghost function ApplyItems(records: Records, items: seq<Item>, commit: Commit): Result<Records>
    decreases |items|
  {
    if items == [] then Ok(records)
    else
      match ApplyItems(records, items[..|items| - 1], commit)
      case Err(error) => Err(error)
      case Ok(before) =>
        var item := items[|items| - 1];
        match ItemError(before, item, commit)
        case Some(error) => Err(error)
        case None => Ok(before[item.id := Migrated(before[item.id], item.text, commit)])
  }

  // -------------------------------------------------------------- whole requests

  datatype State = Pending | Running | Blocked | Complete
  datatype Account = AccountPending | Active | AccountMigrated

  datatype Data = Data(records: Records, migrations: map<Text, State>, accounts: map<Text, Account>)

  datatype Outcome = Outcome(migrated: nat, remaining: nat, complete: bool)

  function Remaining(records: Records, userId: Text): set<Text> {
    set id | id in records && records[id].meta.userId == userId && records[id].body.E2ee?
  }

  predicate InState(migrations: map<Text, State>, userId: Text, states: set<State>) {
    userId in migrations && migrations[userId] in states
  }

  ghost function Committed(data: Data, items: seq<Item>, commit: Commit): Result<(Data, Outcome)> {
    if !(1 <= commit.keyVersion <= SourceDigest.MAX_VERSION && |commit.key| == 32) then Err("MANAGED_KEY_INVALID")
    else if !InState(data.migrations, commit.userId, {Pending, Running}) then Err("MIGRATION_NOT_RUNNABLE")
    else
      match ApplyItems(data.records, items, commit)
      case Err(error) => Err(error)
      case Ok(records) =>
        var left := |Remaining(records, commit.userId)|;
        var running := data.(records := records, migrations := data.migrations[commit.userId := Running]);
        if left > 0 then Ok((running, Outcome(|items|, left, false)))
        else if !(commit.userId in data.accounts && data.accounts[commit.userId] != AccountPending) then
          Err("CONTENT_ACCOUNT_STATE_CHANGED")
        else
          Ok((Data(records, data.migrations[commit.userId := Complete], data.accounts[commit.userId := AccountMigrated]),
              Outcome(|items|, 0, true)))
  }

  function Block(data: Data, userId: Text): Result<Data> {
    if InState(data.migrations, userId, {Pending, Running, Blocked}) then Ok(data.(migrations := data.migrations[userId := Blocked]))
    else Err("MIGRATION_STATE_CHANGED")
  }

  function Resume(data: Data, userId: Text): Result<Data> {
    if InState(data.migrations, userId, {Blocked}) then Ok(data.(migrations := data.migrations[userId := Pending]))
    else Err("MIGRATION_STATE_CHANGED")
  }

  /** Saving an encrypted record; the trigger reopens a complete migration and a migrated account. */
  function Inserted(data: Data, id: Text, meta: Meta, body: Body): Result<Data> {
    if !(meta.userId in data.accounts && data.accounts[meta.userId] != AccountPending) then Err("CONTENT_ACCOUNT_INACTIVE")
    else if !body.E2ee? || id in data.records || exists k :: k in data.records && data.records[k].meta.dedupKey == meta.dedupKey then Ok(data)
    else
      Ok(Data(data.records[id := Record(meta, body)],
              data.migrations[meta.userId :=
                if !InState(data.migrations, meta.userId, {Running, Blocked}) then Pending else data.migrations[meta.userId]],
              if data.accounts[meta.userId] == AccountMigrated then data.accounts[meta.userId := Active] else data.accounts))
  }

  // ------------------------------------------------------------ the database

  /** What a sealed text opens to has the bytes, and so the hash, of the text. */
  lemma RoundTripAgrees(record: Record, text: Text, commit: Commit)
    ensures var roundTrip := Decrypted(Migrated(record, text, commit), commit.key, commit.installationId);
            roundTrip.Some? && ToUtf8(roundTrip.value) == ToUtf8(text)
  {
    hide ToUtf8, FromUtf8;
    Utf8OfComeBack(text);
  }

  method ReplaceSource(records: Records, item: Item, commit: Commit) returns (result: Result<Records>)
    ensures result == match ItemError(records, item, commit)
      case Some(error) => Err(error)
      case None => Ok(records[item.id := Migrated(records[item.id], item.text, commit)])
  {
    if !IsSource(records, item.id, commit.userId) { return Err("E2EE_SOURCE_CHANGED"); }
    hide SourceDigest.IsValid, SourceDigest.Fields, SourceDigest.Stream, ToUtf8, Decrypted, Migrated;
    var source := SourceOf(item.id, records[item.id]);
    var digest := SourceDigest.E2eeSourceDigest(source, commit.hash);
    if digest.Err? { return Err("E2EE_SOURCE_CORRUPT"); }
    if digest.value != item.digest { return Err("E2EE_SOURCE_CHANGED"); }
    if item.text == [] { return Err("MANAGED_ROUND_TRIP_FAILED"); }
    var migrated := Migrated(records[item.id], item.text, commit);
    var roundTrip := Decrypted(migrated, commit.key, commit.installationId);
    RoundTripAgrees(records[item.id], item.text, commit);
    if roundTrip.None? || commit.hash(ToUtf8(roundTrip.value)) != commit.hash(ToUtf8(item.text)) {
      assert false;
    }
    return Ok(records[item.id := migrated]);
  }

  class Database {
    var records: Records
    var migrations: map<Text, State>
    var accounts: map<Text, Account>

    ghost function View(): Data reads this { Data(records, migrations, accounts) }

    constructor (data: Data)
      ensures View() == data
    {
      records, migrations, accounts := data.records, data.migrations, data.accounts;
    }

    /** All items or none: an error anywhere leaves the database as it was. */
    method CommitBatch(items: seq<Item>, commit: Commit) returns (result: Result<Outcome>)
      modifies this
      ensures result.Ok? <==> Committed(old(View()), items, commit).Ok?
      ensures result.Ok? ==> (View(), result.value) == Committed(old(View()), items, commit).value
      ensures result.Err? ==> View() == old(View()) && result.error == Committed(old(View()), items, commit).error
    {
      if !(1 <= commit.keyVersion <= SourceDigest.MAX_VERSION && |commit.key| == 32) { return Err("MANAGED_KEY_INVALID"); }
      if !InState(migrations, commit.userId, {Pending, Running}) { return Err("MIGRATION_NOT_RUNNABLE"); }
      hide ItemError, Migrated;
      var replaced := ReplaceAll(records, items, commit);
      if replaced.Err? { return Err(replaced.error); }
      var left := |Remaining(replaced.value, commit.userId)|;
      if left > 0 {
        records, migrations := replaced.value, migrations[commit.userId := Running];
        return Ok(Outcome(|items|, left, false));
      }
      if !(commit.userId in accounts && accounts[commit.userId] != AccountPending) { return Err("CONTENT_ACCOUNT_STATE_CHANGED"); }
      records, migrations := replaced.value, migrations[commit.userId := Complete];
      accounts := accounts[commit.userId := AccountMigrated];
      return Ok(Outcome(|items|, 0, true));
    }

    method SetMigrationState(userId: Text, block: bool) returns (result: Result<State>)
      modifies this`migrations
      ensures result.Ok? <==> (if block then Block(old(View()), userId) else Resume(old(View()), userId)).Ok?
      ensures result.Ok? ==> View() == (if block then Block(old(View()), userId) else Resume(old(View()), userId)).value
      ensures result.Ok? ==> result.value == (if block then Blocked else Pending)
      ensures result.Err? ==> View() == old(View())
    {
      if block {
        if userId !in migrations || migrations[userId] == Complete { return Err("MIGRATION_STATE_CHANGED"); }
        migrations := migrations[userId := Blocked];
        return Ok(Blocked);
      }
      if userId !in migrations || migrations[userId] != Blocked { return Err("MIGRATION_STATE_CHANGED"); }
      migrations := migrations[userId := Pending];
      return Ok(Pending);
    }

    /** One encrypted record comes in, with what the trigger does after it. */
    method SaveE2eeRecord(id: Text, meta: Meta, body: Body) returns (result: Result<bool>)
      requires body.E2ee? && id !in records
      modifies this
      ensures result.Ok? <==> Inserted(old(View()), id, meta, body).Ok?
      ensures result.Ok? ==> View() == Inserted(old(View()), id, meta, body).value && (result.value <==> View() != old(View()))
      ensures result.Err? ==> View() == old(View())
    {
      if meta.userId !in accounts || accounts[meta.userId] == AccountPending { return Err("CONTENT_ACCOUNT_INACTIVE"); }
      if exists k :: k in records && records[k].meta.dedupKey == meta.dedupKey { return Ok(false); }
      records := records[id := Record(meta, body)];
      if meta.userId !in migrations || migrations[meta.userId] == Complete {
        migrations := migrations[meta.userId := Pending];
      }
      if accounts[meta.userId] == AccountMigrated {
        accounts := accounts[meta.userId := Active];
      }
      assert id in records && records != old(records);
      assert migrations == Inserted(old(View()), id, meta, body).value.migrations;
      return Ok(true);
    }
  }

  // ---------------------------------------------------------- what a request may ask

  const MAX_ITEMS: nat := 25

  /** An item with a decimal id, a whole digest and a text that may be stored. */
  ghost predicate IsAcceptable(item: Item) {
    && SourceDigest.IsDecimal(item.id) && |item.digest| == 32
    && item.text != [] && (WellFormed(item.text) || EndsWithLoneHigh(item.text)) && |ToUtf8(item.text)| <= MAX_TEXT_BYTES
  }

  /** What is wrong with an item of a request: its id, then that id's being a second time there, then its digest, then its text. */
  ghost function ParseError(item: Item, seen: set<Text>): Option<string> {
    if !SourceDigest.IsNumeral(item.id) then Some("INVALID_MIGRATION_ID")
    else if item.id in seen then Some("DUPLICATE_ID")
    else if |item.digest| != 32 then Some("INVALID_SOURCE_DIGEST")
    else if item.text == [] || !(WellFormed(item.text) || EndsWithLoneHigh(item.text)) || |ToUtf8(item.text)| > 1_048_576 then
      Some("INVALID_MIGRATION_TEXT")
    else None
  }

  lemma AcceptableIff(item: Item, seen: set<Text>)
    ensures IsAcceptable(item) && item.id !in seen <==> ParseError(item, seen).None?
  {
    SourceDigest.DecimalIff(item.id);
    hide SourceDigest.IsDecimal, SourceDigest.IsNumeral, WellFormed, EndsWithLoneHigh, ToUtf8;
  }

  method ParseItem(item: Item, seen: set<Text>) returns (error: Option<string>)
    ensures error == ParseError(item, seen)
    ensures error.None? <==> IsAcceptable(item) && item.id !in seen
  {
    AcceptableIff(item, seen);
    SourceDigest.DecimalIff(item.id);
    hide SourceDigest.IsDecimal, SourceDigest.IsNumeral, WellFormed, EndsWithLoneHigh, ToUtf8, FromUtf8;
    if !SourceDigest.IsDecimal(item.id) { return Some("INVALID_MIGRATION_ID"); }
    if item.id in seen { return Some("DUPLICATE_ID"); }
    if |item.digest| != 32 { return Some("INVALID_SOURCE_DIGEST"); }
    var text := BoundedText(item.text);
    return if text.Err? then Some(text.error) else None;
  }

  ghost function IdsOf(items: seq<Item>): set<Text> { set item | item in items :: item.id }

  lemma NoIds()
    ensures IdsOf([]) == {} && DistinctIds([]) && AllAcceptable([])
  {
  }

  ghost predicate AllAcceptable(items: seq<Item>) { forall k :: 0 <= k < |items| ==> IsAcceptable(items[k]) }

  lemma NextAcceptable(items: seq<Item>, n: nat)
    requires n < |items| && AllAcceptable(items[..n])
    ensures AllAcceptable(items[..n + 1]) <==> IsAcceptable(items[n])
    ensures AllAcceptable(items) ==> AllAcceptable(items[..n + 1])
  {
    hide IsAcceptable;
    assert forall k :: 0 <= k < n ==> items[..n + 1][k] == items[..n][k] == items[k];
    assert items[..n + 1][n] == items[n];
  }

  /** One more item repeats no id exactly when its id is new. */
  lemma NextId(items: seq<Item>, n: nat)
    requires n < |items| && DistinctIds(items[..n])
    ensures IdsOf(items[..n + 1]) == IdsOf(items[..n]) + {items[n].id}
    ensures DistinctIds(items[..n + 1]) <==> items[n].id !in IdsOf(items[..n])
    ensures DistinctIds(items) ==> DistinctIds(items[..n + 1])
  {
    var prefix := items[..n];
    assert items[..n + 1] == prefix + [items[n]];
    assert forall k :: 0 <= k < n ==> prefix[k] in prefix && prefix[k] == items[..n + 1][k];
    if items[n].id in IdsOf(prefix) {
      var item :| item in prefix && item.id == items[n].id;
      var k :| 0 <= k < n && prefix[k] == item;
      assert items[..n + 1][k].id == items[..n + 1][n].id;
    }
  }

  /** The first `n` items are acceptable, and `seen` holds their ids, no two alike. */
  ghost predicate Parsed(items: seq<Item>, n: nat, seen: set<Text>)
    requires n <= |items|
  {
    seen == IdsOf(items[..n]) && DistinctIds(items[..n]) && AllAcceptable(items[..n])
  }

  method ParseNext(raw: seq<Item>, n: nat, seen: set<Text>) returns (error: Option<string>)
    requires n < |raw| && Parsed(raw, n, seen)
    ensures error == ParseError(raw[n], seen)
    ensures error.None? ==> Parsed(raw, n + 1, seen + {raw[n].id})
    ensures error.Some? ==> !(DistinctIds(raw) && AllAcceptable(raw))
  {
    hide IsAcceptable, IdsOf, DistinctIds, AllAcceptable, ParseError;
    error := ParseItem(raw[n], seen);
    NextId(raw, n);
    NextAcceptable(raw, n);
  }

  lemma AllParsed(items: seq<Item>, seen: set<Text>)
    ensures Parsed(items, 0, {})
    ensures Parsed(items, |items|, seen) ==> DistinctIds(items) && AllAcceptable(items)
  {
    NoIds();
    assert items[..|items|] == items && items[..0] == [];
  }

  /** The first item that may not be asked for decides the error. */
  ghost predicate FailsToParse(items: seq<Item>, n: nat, error: string) {
    && n < |items| && DistinctIds(items[..n]) && AllAcceptable(items[..n])
    && ParseError(items[n], IdsOf(items[..n])) == Some(error)
  }

  lemma ParsedSeen(items: seq<Item>, n: nat, seen: set<Text>)
    requires n <= |items| && Parsed(items, n, seen)
    ensures seen == IdsOf(items[..n]) && DistinctIds(items[..n]) && AllAcceptable(items[..n])
  {
  }

  /** Between one and twenty-five items, no id twice, each acceptable; nothing else is refused. */
  method ParseE2eeManagedCommit(raw: seq<Item>) returns (result: Result<seq<Item>>)
    ensures result.Ok? <==> 1 <= |raw| <= 25 && DistinctIds(raw) && AllAcceptable(raw)
    ensures result.Ok? ==> result.value == raw
    ensures result.Err? && !(1 <= |raw| <= 25) ==> result.error == "MIGRATION_ITEMS_MUST_BE_1~25"
    ensures result.Err? && 1 <= |raw| <= 25 ==> exists n: nat :: FailsToParse(raw, n, result.error)
  {
    if |raw| < 1 || |raw| > MAX_ITEMS { return Err("MIGRATION_ITEMS_MUST_BE_1~25"); }
    hide DistinctIds, AllAcceptable, Parsed, ParseError, IdsOf;
    var seen: set<Text> := {};
    AllParsed(raw, seen);
    for n := 0 to |raw|
      invariant Parsed(raw, n, seen)
    {
      var error := ParseNext(raw, n, seen);
      if error.Some? {
        ParsedSeen(raw, n, seen);
        assert FailsToParse(raw, n, error.value);
        return Err(error.value);
      }
      seen := seen + {raw[n].id};
    }
    AllParsed(raw, seen);
    return Ok(raw);
  }

  method ReplaceAll(records: Records, items: seq<Item>, commit: Commit) returns (result: Result<Records>)
    ensures result == ApplyItems(records, items, commit)
  {
    hide ItemError, Migrated;
    var current := records;
    for n := 0 to |items|
      invariant ApplyItems(records, items[..n], commit) == Ok(current)
    {
      assert items[..n + 1][..n] == items[..n];
      var replaced := ReplaceSource(current, items[n], commit);
      if replaced.Err? {
        FirstErrorStays(records, items, n + 1, commit);
        return replaced;
      }
      current := replaced.value;
    }
    assert items[..|items|] == items;
    return Ok(current);
  }

  lemma {:induction false} FirstErrorStays(records: Records, items: seq<Item>, n: nat, commit: Commit)
    requires n <= |items| && ApplyItems(records, items[..n], commit).Err?
    ensures ApplyItems(records, items, commit) == ApplyItems(records, items[..n], commit)
    decreases |items|
  {
    hide ItemError, Migrated;
    if n < |items| {
      assert items[..|items| - 1][..n] == items[..n];
      FirstErrorStays(records, items[..|items| - 1], n, commit);
    } else {
      assert items[..n] == items;
    }
  }

  // ------------------------------------------------------- what a commit changes

  /** The item names a row of the user that was encrypted end to end and has exactly the digest supplied. */
  ghost predicate Matches(records: Records, item: Item, commit: Commit) {
    item.id in records && MatchesRow(records[item.id], item, commit)
  }

  ghost predicate MatchesRow(record: Record, item: Item, commit: Commit) {
    && record.meta.userId == commit.userId && record.body.E2ee?
    && SourceDigest.IsValid(SourceOf(item.id, record))
    && commit.hash(SourceStream(SourceOf(item.id, record))) == item.digest
    && item.text != []
  }

  /** The item for a row. */
  function ItemOf(items: seq<Item>, id: Text): Option<Item> {
    if items == [] then None
    else if items[|items| - 1].id == id then Some(items[|items| - 1])
    else ItemOf(items[..|items| - 1], id)
  }

  function RowAfter(record: Record, item: Option<Item>, commit: Commit): Record {
    if item.None? then record else Migrated(record, item.value.text, commit)
  }

  /** Every item's row is replaced, its metadata kept; nothing else changes. */
  ghost predicate Effect(records: Records, items: seq<Item>, commit: Commit, after: Records) {
    && after.Keys == records.Keys
    && (forall id | id in records :: after[id] == RowAfter(records[id], ItemOf(items, id), commit))
    && (forall id: Text :: ItemOf(items, id).Some? ==> Matches(records, ItemOf(items, id).value, commit))
  }

  lemma EffectNext(records: Records, items: seq<Item>, commit: Commit, before: Records, item: Item)
    requires Effect(records, items, commit, before) && Matches(before, item, commit)
    ensures Effect(records, items + [item], commit, before[item.id := Migrated(before[item.id], item.text, commit)])
    ensures ItemOf(items, item.id).None?
  {
    hide MatchesRow, Migrated, ItemOf;
    StaysEncrypted(records[item.id], ItemOf(items, item.id), before[item.id], item, commit);
    var all, after := items + [item], before[item.id := Migrated(before[item.id], item.text, commit)];
    forall id: Text
      ensures id in records ==> after[id] == RowAfter(records[id], ItemOf(all, id), commit)
      ensures ItemOf(all, id).Some? ==> Matches(records, ItemOf(all, id).value, commit)
    {
      ItemOfLast(items, item, id);
    }
  }

  lemma ItemOfLast(items: seq<Item>, item: Item, id: Text)
    ensures ItemOf(items + [item], id) == if item.id == id then Some(item) else ItemOf(items, id)
  {
    assert (items + [item])[..|items|] == items;
  }

  lemma StaysEncrypted(record: Record, earlier: Option<Item>, before: Record, item: Item, commit: Commit)
    requires before == RowAfter(record, earlier, commit) && MatchesRow(before, item, commit)
    ensures earlier.None? && MatchesRow(record, item, commit)
  {
    hide SourceDigest.IsValid, SourceStream;
  }

  ghost predicate DistinctIds(items: seq<Item>) {
    forall i, j :: 0 <= i < j < |items| ==> items[i].id != items[j].id
  }

  lemma {:induction false} ItemOfIn(items: seq<Item>, item: Item)
    requires item in items
    ensures ItemOf(items, item.id).Some?
    decreases |items|
  {
    var last := |items| - 1;
    if items[last].id != item.id {
      assert items == items[..last] + [items[last]];
      ItemOfIn(items[..last], item);
    }
  }

  /** A commit that goes through names no row twice. */
  lemma {:induction false} ApplyItemsEffect(records: Records, items: seq<Item>, commit: Commit)
    requires ApplyItems(records, items, commit).Ok?
    ensures Effect(records, items, commit, ApplyItems(records, items, commit).value)
    ensures DistinctIds(items)
    decreases |items|
  {
    hide ItemError, Matches, Effect, Migrated, ItemOf;
    if items == [] {
      NoEffect(records, commit);
    } else {
      var earlier, item := items[..|items| - 1], items[|items| - 1];
      ApplyItemsEffect(records, earlier, commit);
      var before := ApplyItems(records, earlier, commit).value;
      NoErrorMatches(before, item, commit);
      EffectNext(records, earlier, commit, before, item);
      assert items == earlier + [item];
      forall i | 0 <= i < |earlier| ensures items[i].id != item.id {
        if items[i].id == item.id { ItemOfIn(earlier, items[i]); }
      }
    }
  }

  lemma NoEffect(records: Records, commit: Commit)
    ensures Effect(records, [], commit, records)
  {
  }

  lemma NoErrorMatches(records: Records, item: Item, commit: Commit)
    ensures ItemError(records, item, commit).None? <==> Matches(records, item, commit)
  {
    hide SourceDigest.IsValid, SourceStream;
  }

  /** A replaced row opens, under the key it was sealed with, to the supplied text exactly when that is well formed. */
  lemma MigratedDecryptsIff(record: Record, text: Text, commit: Commit)
    ensures var decrypted := Decrypted(Migrated(record, text, commit), commit.key, commit.installationId);
            decrypted.Some? && (decrypted == Some(text) <==> WellFormed(text))
  {
    hide FromUtf8, ToUtf8, WellFormed;
    Utf8KeepsTextIff(text);
  }

  // ---------------------------------------------------------- which columns are digested

  /** What an encrypted row must look like for a digest to be taken of it. */
  lemma RowIsWholeIff(id: Text, record: Record)
    requires record.body.E2ee?
    ensures var (m, b) := (record.meta, record.body);
            SourceDigest.IsValid(SourceOf(id, record)) <==>
              && SourceDigest.IsNumeral(id) && SourceDigest.IsUuid(m.userId) && SourceDigest.IsUuid(b.contentOwnerId)
              && 1 <= |m.dedupKey| <= 255 && 1 <= |m.providerKey| <= 100 && 1 <= |m.ts| <= 27
              && (m.sessionId.Some? ==> 1 <= |m.sessionId.value| <= 255)
              && 1 <= b.keyVersion <= 32_767 && b.contentKeyVersion == b.keyVersion && b.aadVersion == 1
              && |b.wrappedDek| == 32 && |b.dekWrapIv| == 12 && |b.dekWrapAuthTag| == 16
              && |b.iv| == 12 && |b.authTag| == 16 && 1 <= |b.ciphertext| <= 1_048_576
  {
    SourceDigest.DecimalIff(id);
    hide SourceDigest.IsDecimal, SourceDigest.IsNumeral, SourceDigest.IsUuid;
  }

  function Digested(name: string, kind: string, value: seq<Byte>): SourceDigest.Field {
    SourceDigest.Field(SourceDigest.Ascii(name), SourceDigest.Ascii(kind), value)
  }

  function Digits(n: int): seq<Byte> { ToUtf8(SourceDigest.DecimalText(if n < 0 then 0 else n)) }

  /** The digest covers every column but the agent, each under its own name and type, in this order. */
  lemma ColumnsAreDigested(id: Text, record: Record)
    requires record.body.E2ee?
    ensures var (m, b, f) := (record.meta, record.body, SourceDigest.Fields(SourceOf(id, record)));
            && |f| == 19
            && f[0] == Digested("schema", "string", SourceDigest.Ascii("e2ee-source-v1"))
            && f[1] == Digested("id", "decimal", ToUtf8(id))
            && f[2] == Digested("user_id", "uuid", ToUtf8(m.userId))
            && f[3] == Digested("dedup_key", "string", ToUtf8(m.dedupKey))
            && f[4] == (if m.sessionId.None? then Digested("session_id", "null", [])
                        else Digested("session_id", "string", ToUtf8(m.sessionId.value)))
            && f[5] == Digested("provider_key", "string", ToUtf8(m.providerKey))
            && f[6] == Digested("turn_role", "role", SourceDigest.Ascii(if m.turnRole.User? then "user" else "assistant"))
            && f[7] == Digested("ts", "timestamp", ToUtf8(m.ts))
            && f[8] == Digested("encryption_scheme", "string", SourceDigest.Ascii("e2ee_v1"))
            && f[9] == Digested("key_version", "integer", Digits(b.keyVersion))
            && f[10] == Digested("content_owner_id", "uuid", ToUtf8(b.contentOwnerId))
            && f[11] == Digested("content_key_version", "integer", Digits(b.contentKeyVersion))
            && f[12] == Digested("aad_version", "integer", Digits(1))
            && f[13] == Digested("wrapped_dek", "bytes", b.wrappedDek)
            && f[14] == Digested("dek_wrap_iv", "bytes", b.dekWrapIv)
            && f[15] == Digested("dek_wrap_auth_tag", "bytes", b.dekWrapAuthTag)
            && f[16] == Digested("iv", "bytes", b.iv)
            && f[17] == Digested("ciphertext", "bytes", b.ciphertext)
            && f[18] == Digested("auth_tag", "bytes", b.authTag)
  {
    hide ToUtf8, SourceDigest.Ascii, SourceDigest.DecimalText;
  }

  // ----------------------------------------------------------- when a commit goes through

  /** A row no earlier item named is still what it was, and one that was named is encrypted end to end no more. */
  lemma NextMatchesIff(records: Records, items: seq<Item>, commit: Commit, before: Records, item: Item)
    requires Effect(records, items, commit, before)
    ensures Matches(before, item, commit) <==> Matches(records, item, commit) && ItemOf(items, item.id).None?
  {
    hide SourceDigest.IsValid, SourceStream, ToUtf8, ItemOf;
  }

  lemma {:induction false} ItemOfIff(items: seq<Item>, id: Text)
    ensures ItemOf(items, id).None? <==> forall k :: 0 <= k < |items| ==> items[k].id != id
    ensures ItemOf(items, id).Some? ==> ItemOf(items, id).value in items && ItemOf(items, id).value.id == id
    decreases |items|
  {
    if items != [] { ItemOfIff(items[..|items| - 1], id); }
  }

  /** All items match the rows as they were, and none names a row twice. */
  ghost predicate AllMatch(records: Records, items: seq<Item>, commit: Commit) {
    DistinctIds(items) && forall k :: 0 <= k < |items| ==> Matches(records, items[k], commit)
  }

  lemma AllMatchNext(records: Records, items: seq<Item>, commit: Commit)
    requires items != []
    ensures var (earlier, item) := (items[..|items| - 1], items[|items| - 1]);
            AllMatch(records, items, commit) <==>
              AllMatch(records, earlier, commit) && Matches(records, item, commit) && ItemOf(earlier, item.id).None?
  {
    hide Matches, ItemOf;
    var last := |items| - 1;
    ItemOfIff(items[..last], items[last].id);
    assert forall k :: 0 <= k < last ==> items[..last][k] == items[k];
  }

  /** One item after the other goes through exactly when all match the rows as they were and none names a row twice. */
  lemma {:induction false} ItemsApplyIff(records: Records, items: seq<Item>, commit: Commit)
    ensures ApplyItems(records, items, commit).Ok? <==> AllMatch(records, items, commit)
    decreases |items|
  {
    if items != [] {
      var earlier, item := items[..|items| - 1], items[|items| - 1];
      hide ItemError, Matches, Effect, Migrated, ItemOf, AllMatch, DistinctIds;
      ItemsApplyIff(records, earlier, commit);
      AllMatchNext(records, items, commit);
      if ApplyItems(records, earlier, commit).Ok? {
        var before := ApplyItems(records, earlier, commit).value;
        ApplyItemsEffect(records, earlier, commit);
        NoErrorMatches(before, item, commit);
        NextMatchesIff(records, earlier, commit, before, item);
      }
    }
  }

  /** Every row of the user that is encrypted end to end has an item. */
  ghost predicate NamesAll(records: Records, items: seq<Item>, userId: Text) {
    forall id | id in records && records[id].meta.userId == userId && records[id].body.E2ee? :: id in IdsOf(items)
  }

  lemma IdsAreItems(items: seq<Item>, id: Text)
    ensures id in IdsOf(items) <==> ItemOf(items, id).Some?
  {
    ItemOfIff(items, id);
    hide ItemOf;
    if exists k :: 0 <= k < |items| && items[k].id == id {
      var k :| 0 <= k < |items| && items[k].id == id;
      assert items[k] in items;
    }
  }

  lemma {:induction false} IdsCount(items: seq<Item>)
    requires DistinctIds(items)
    ensures |IdsOf(items)| == |items|
    decreases |items|
  {
    if items == [] {
      NoIds();
    } else {
      var last := |items| - 1;
      IdsCount(items[..last]);
      NextId(items, last);
      assert items[..last + 1] == items;
    }
  }

  /** What remains is what remained before without the rows named, all of which were among them. */
  lemma RemainingAfter(records: Records, items: seq<Item>, commit: Commit, after: Records)
    requires Effect(records, items, commit, after)
    ensures Remaining(after, commit.userId) == Remaining(records, commit.userId) - IdsOf(items)
    ensures IdsOf(items) <= Remaining(records, commit.userId)
    ensures NamesAll(records, items, commit.userId) <==> Remaining(after, commit.userId) == {}
  {
    hide SourceDigest.IsValid, SourceStream, ToUtf8, ItemOf, IdsOf;
    forall id: Text
      ensures id in Remaining(after, commit.userId) <==> id in Remaining(records, commit.userId) && id !in IdsOf(items)
      ensures id in IdsOf(items) ==> id in Remaining(records, commit.userId)
    {
      IdsAreItems(items, id);
      ItemOfIff(items, id);
      if id in records { assert after[id] == RowAfter(records[id], ItemOf(items, id), commit); }
    }
    if Remaining(after, commit.userId) == {} {
      forall id | id in Remaining(records, commit.userId) ensures id in IdsOf(items) {
        assert id !in Remaining(after, commit.userId);
      }
    }
  }

  /**
   * Exactly when a commit goes through, told from the database as it was: a key of 32 bytes with a version that fits,
   * a migration that is pending or running, distinct rows of the user encrypted end to end under the digests
   * supplied, and an account that can be closed in case no row is left.
   */
  lemma CommitGoesThroughIff(data: Data, items: seq<Item>, commit: Commit)
    ensures Committed(data, items, commit).Ok? <==>
      && 1 <= commit.keyVersion <= 32_767 && |commit.key| == 32
      && commit.userId in data.migrations && (data.migrations[commit.userId] == Pending || data.migrations[commit.userId] == Running)
      && AllMatch(data.records, items, commit)
      && (NamesAll(data.records, items, commit.userId) ==>
            commit.userId in data.accounts && data.accounts[commit.userId] != AccountPending)
  {
    hide ApplyItems, AllMatch, Effect, Remaining, NamesAll;
    ItemsApplyIff(data.records, items, commit);
    if ApplyItems(data.records, items, commit).Ok? {
      ApplyItemsEffect(data.records, items, commit);
      RemainingAfter(data.records, items, commit, ApplyItems(data.records, items, commit).value);
    }
  }

  /** The database after a commit that went through, and the answer. */
  lemma CommitLeaves(data: Data, items: seq<Item>, commit: Commit)
    requires Committed(data, items, commit).Ok?
    ensures var ((after, outcome), user, all) :=
              (Committed(data, items, commit).value, commit.userId, NamesAll(data.records, items, commit.userId));
            && after.records.Keys == data.records.Keys
            && (forall item | item in items ::
                  item.id in data.records && after.records[item.id] == SealedRow(data.records[item.id].meta, item.text, commit))
            && (forall id | id in data.records && id !in IdsOf(items) :: after.records[id] == data.records[id])
            && after.migrations == data.migrations[user := if all then Complete else Running]
            && after.accounts == (if all then data.accounts[user := AccountMigrated] else data.accounts)
            && outcome.migrated == |items| && outcome.complete == all
            && outcome.remaining == |Remaining(data.records, user)| - |items|
  {
    CommitConserves(data, items, commit);
    var (after, outcome) := Committed(data, items, commit).value;
    hide ApplyItems, ToUtf8, Remaining, NamesAll, DistinctIds, Matches, IdsOf, Effect;
    RemainingAfter(data.records, items, commit, after.records);
    IdsCount(items);
    LeftWithout(Remaining(data.records, commit.userId), IdsOf(items));
    assert outcome.migrated == |items|;
    RowsAfter(data.records, items, commit, after.records);
    hide Committed;
  }

  /** The row sealed over the text under its own metadata. */
  function SealedRow(meta: Meta, text: Text, commit: Commit): Record {
    Record(meta, Managed(commit.keyVersion, Sealed(commit.key, Context(
      installationId := commit.installationId, userId := meta.userId, dedupKey := meta.dedupKey, providerKey := meta.providerKey,
      turnRole := meta.turnRole, ts := meta.ts, keyVersion := commit.keyVersion), ToUtf8(text))))
  }

  lemma RowsAfter(records: Records, items: seq<Item>, commit: Commit, after: Records)
    requires Effect(records, items, commit, after) && DistinctIds(items)
    ensures after.Keys == records.Keys
    ensures forall item | item in items :: item.id in records && after[item.id] == SealedRow(records[item.id].meta, item.text, commit)
    ensures forall id | id in records && id !in IdsOf(items) :: after[id] == records[id]
  {
    hide ToUtf8, Matches, DistinctIds, ItemOf;
    forall id | id in records && id !in IdsOf(items) ensures after[id] == records[id] {
      IdsAreItems(items, id);
    }
    forall item | item in items ensures item.id in records && ItemOf(items, item.id) == Some(item) {
      ItemIsItsOwn(items, item);
      MatchedIsThere(records, item, commit);
    }
  }

  lemma MatchedIsThere(records: Records, item: Item, commit: Commit)
    ensures Matches(records, item, commit) ==> item.id in records
  {
    hide MatchesRow;
  }

  lemma {:induction false} ItemIsItsOwn(items: seq<Item>, item: Item)
    requires item in items && DistinctIds(items)
    ensures ItemOf(items, item.id) == Some(item)
  {
    var k :| 0 <= k < |items| && items[k] == item;
    ItemOfIff(items, item.id);
    hide ItemOf;
  }

  lemma LeftWithout(all: set<Text>, some: set<Text>)
    requires some <= all
    ensures |all - some| == |all| - |some|
  {
    assert all == (all - some) + some;
  }

  /** The first item that cannot be applied decides the error. */
  ghost predicate FailsFirst(records: Records, items: seq<Item>, commit: Commit, n: nat) {
    && n < |items| && AllMatch(records, items[..n], commit)
    && (items[n].id in IdsOf(items[..n]) || !Matches(records, items[n], commit))
  }

  ghost predicate IsUsersRow(records: Records, id: Text, userId: Text) {
    id in records && records[id].meta.userId == userId && records[id].body.E2ee?
  }

  /** What is wrong with an item that cannot be applied to the rows as they were; `named` says that an earlier one has its id. */
  ghost function Refusal(records: Records, item: Item, commit: Commit, named: bool): string {
    if !IsUsersRow(records, item.id, commit.userId) || named then "E2EE_SOURCE_CHANGED"
    else if !SourceDigest.IsValid(SourceOf(item.id, records[item.id])) then "E2EE_SOURCE_CORRUPT"
    else if commit.hash(SourceStream(SourceOf(item.id, records[item.id]))) != item.digest then "E2EE_SOURCE_CHANGED"
    else "MANAGED_ROUND_TRIP_FAILED"
  }

  lemma ItemFails(records: Records, items: seq<Item>, commit: Commit, n: nat)
    requires FailsFirst(records, items, commit, n)
    ensures ApplyItems(records, items, commit).Err?
    ensures ApplyItems(records, items, commit).error == Refusal(records, items[n], commit, items[n].id in IdsOf(items[..n]))
  {
    hide Refusal, Migrated, ItemError, ItemOf, Matches, Effect, DistinctIds, ApplyItems, IdsOf, AllMatch;
    ItemsApplyIff(records, items[..n], commit);
    var before := ApplyItems(records, items[..n], commit).value;
    ApplyItemsEffect(records, items[..n], commit);
    IdsAreItems(items[..n], items[n].id);
    ItemFailsThere(records, items[..n], commit, before, items[n]);
    LastFails(records, items, commit, n, before);
  }

  lemma LastFails(records: Records, items: seq<Item>, commit: Commit, n: nat, before: Records)
    requires n < |items| && ApplyItems(records, items[..n], commit) == Ok(before) && ItemError(before, items[n], commit).Some?
    ensures ApplyItems(records, items, commit) == Err(ItemError(before, items[n], commit).value)
  {
    hide ItemError, Migrated;
    assert items[..n + 1][..n] == items[..n];
    FirstErrorStays(records, items, n + 1, commit);
  }

  lemma ItemFailsThere(records: Records, earlier: seq<Item>, commit: Commit, before: Records, item: Item)
    requires Effect(records, earlier, commit, before)
    requires ItemOf(earlier, item.id).Some? || !Matches(records, item, commit)
    ensures ItemError(before, item, commit) == Some(Refusal(records, item, commit, ItemOf(earlier, item.id).Some?))
  {
    hide SourceDigest.IsValid, SourceStream, ToUtf8, SourceOf, ItemOf;
  }

  /** What a refused commit says: the key and the migration are looked at first, then the items in order, then the account. */
  lemma CommitFails(data: Data, items: seq<Item>, commit: Commit)
    requires Committed(data, items, commit).Err?
    ensures var error := Committed(data, items, commit).error;
            if !(1 <= commit.keyVersion <= 32_767) || |commit.key| != 32 then error == "MANAGED_KEY_INVALID"
            else if commit.userId !in data.migrations || data.migrations[commit.userId] == Blocked || data.migrations[commit.userId] == Complete then
              error == "MIGRATION_NOT_RUNNABLE"
            else if AllMatch(data.records, items, commit) then error == "CONTENT_ACCOUNT_STATE_CHANGED"
            else exists n: nat :: FailsFirst(data.records, items, commit, n)
                   && error == Refusal(data.records, items[n], commit, items[n].id in IdsOf(items[..n]))
  {
    hide ApplyItems, FailsFirst, Remaining, Refusal, IdsOf, AllMatch;
    ItemsApplyIff(data.records, items, commit);
    if ApplyItems(data.records, items, commit).Err? {
      assert items[..|items|] == items;
      FirstToFail(data.records, items, commit, |items|);
      var n: nat :| FailsFirst(data.records, items, commit, n);
      ItemFails(data.records, items, commit, n);
    }
  }

  lemma {:induction false} FirstToFail(records: Records, items: seq<Item>, commit: Commit, upTo: nat)
    requires upTo <= |items| && ApplyItems(records, items[..upTo], commit).Err?
    ensures exists n: nat :: FailsFirst(records, items, commit, n)
    decreases upTo
  {
    hide ItemError, Matches, Migrated, IdsOf, AllMatch, ItemOf;
    ItemsApplyIff(records, items[..upTo], commit);
    var n := upTo - 1;
    if ApplyItems(records, items[..n], commit).Err? {
      FirstToFail(records, items, commit, n);
    } else {
      hide ApplyItems;
      ItemsApplyIff(records, items[..n], commit);
      AllMatchNext(records, items[..upTo], commit);
      assert items[..upTo][..n] == items[..n] && items[..upTo][n] == items[n];
      IdsAreItems(items[..n], items[n].id);
      assert FailsFirst(records, items, commit, n);
    }
  }

  /** Sealed content opens only under its key and installation and in a row of the same owner, keys, role, time and version. */
  lemma OpensOnlyInItsPlace(meta: Meta, text: Text, key: Key, installationId: Text, keyVersion: int, place: Record, other: Key, there: Text)
    requires place.body.Managed? && place.body.content == Encrypted(meta, text, key, installationId, keyVersion).content
    ensures Decrypted(place, other, there).Some? <==>
      && other == key && there == installationId && place.body.keyVersion == keyVersion
      && place.meta.userId == meta.userId && place.meta.dedupKey == meta.dedupKey && place.meta.providerKey == meta.providerKey
      && place.meta.turnRole == meta.turnRole && place.meta.ts == meta.ts
  {
    hide ToUtf8, FromUtf8;
    Utf8OfComeBack(text);
  }

  /** With a hash that collides nowhere, the row replaced is the very row the client read. */
  lemma CommittedRowIsRowRead(records: Records, item: Item, commit: Commit, read: SourceDigest.SourceRow)
    requires SourceDigest.Injective(commit.hash) && Matches(records, item, commit)
    requires SourceDigest.IsValid(read) && SourceDigest.Stored(read)
    requires SourceDigest.Stored(SourceOf(item.id, records[item.id]))
    requires item.digest == commit.hash(SourceStream(read))
    ensures SourceOf(item.id, records[item.id]) == read
  {
    hide SourceDigest.IsValid, SourceDigest.Stored, SourceDigest.Fields, SourceDigest.Stream;
    SourceDigest.SameDigestSameRow(SourceOf(item.id, records[item.id]), read, commit.hash);
  }

  /** A commit keeps every record and its metadata, and is complete exactly when the user has no row left to replace. */
  lemma CommitConserves(data: Data, items: seq<Item>, commit: Commit)
    requires Committed(data, items, commit).Ok?
    ensures var (after, outcome) := Committed(data, items, commit).value;
            && Effect(data.records, items, commit, after.records)
            && DistinctIds(items)
            && (forall id | id in data.records :: id in after.records && after.records[id].meta == data.records[id].meta)
            && outcome.remaining == |Remaining(after.records, commit.userId)|
            && (outcome.complete <==> Remaining(after.records, commit.userId) == {})
            && (outcome.complete ==> after.migrations[commit.userId] == Complete && after.accounts[commit.userId] == AccountMigrated)
            && (forall other | other in data.migrations && other != commit.userId :: after.migrations[other] == data.migrations[other])
  {
    hide Matches, ApplyItems, Encrypted;
    ApplyItemsEffect(data.records, items, commit);
  }

  // ------------------------------------------------------------------ whole runs

  datatype Tx =
    | CommitTx(items: seq<Item>, commit: Commit)
    | BlockTx(userId: Text)
    | ResumeTx(userId: Text)
    | InsertTx(id: Text, meta: Meta, body: Body)

  /** A failed transaction changes nothing. */
  ghost function Step(data: Data, tx: Tx): Data {
    match tx
    case CommitTx(items, commit) => (match Committed(data, items, commit) case Ok((after, _)) => after case Err(_) => data)
    case BlockTx(userId) => (match Block(data, userId) case Ok(after) => after case Err(_) => data)
    case ResumeTx(userId) => (match Resume(data, userId) case Ok(after) => after case Err(_) => data)
    case InsertTx(id, meta, body) => (match Inserted(data, id, meta, body) case Ok(after) => after case Err(_) => data)
  }

  ghost function Run(data: Data, txs: seq<Tx>): Data
    decreases |txs|
  {
    if txs == [] then data else Step(Run(data, txs[..|txs| - 1]), txs[|txs| - 1])
  }

  /** A complete migration leaves its user no row encrypted end to end, and a migrated account has a complete migration. */
  ghost predicate Consistent(data: Data) {
    && (forall u | u in data.migrations && data.migrations[u] == Complete :: Remaining(data.records, u) == {})
    && (forall u | u in data.accounts && data.accounts[u] == AccountMigrated :: InState(data.migrations, u, {Complete}))
  }

  lemma OthersRemain(records: Records, items: seq<Item>, commit: Commit, after: Records, other: Text)
    requires Effect(records, items, commit, after) && other != commit.userId
    ensures Remaining(after, other) <= Remaining(records, other)
  {
    hide SourceDigest.IsValid, SourceStream, ToUtf8;
    forall id | id in Remaining(after, other) ensures id in Remaining(records, other) {
      assert after[id] == RowAfter(records[id], ItemOf(items, id), commit);
      assert ItemOf(items, id).None?;
    }
  }

  lemma CommitKeepsConsistent(data: Data, items: seq<Item>, commit: Commit)
    requires Consistent(data) && Committed(data, items, commit).Ok?
    ensures Consistent(Committed(data, items, commit).value.0)
  {
    CommitConserves(data, items, commit);
    hide Effect, ApplyItems, Remaining;
    var after := Committed(data, items, commit).value.0;
    forall u | u in after.migrations && after.migrations[u] == Complete ensures Remaining(after.records, u) == {} {
      if u != commit.userId {
        OthersRemain(data.records, items, commit, after.records, u);
        assert Remaining(data.records, u) == {};
      }
    }
  }

  lemma StepKeepsConsistent(data: Data, tx: Tx)
    requires Consistent(data)
    ensures Consistent(Step(data, tx))
  {
    hide Committed;
    match tx
    case CommitTx(items, commit) => if Committed(data, items, commit).Ok? { CommitKeepsConsistent(data, items, commit); }
    case InsertTx(id, meta, body) => if Inserted(data, id, meta, body).Ok? { InsertKeepsConsistent(data, id, meta, body); }
    case _ =>
  }

  lemma InsertKeepsConsistent(data: Data, id: Text, meta: Meta, body: Body)
    requires Consistent(data) && Inserted(data, id, meta, body).Ok?
    ensures Consistent(Inserted(data, id, meta, body).value)
  {
    var after := Inserted(data, id, meta, body).value;
    forall u | u in after.migrations && after.migrations[u] == Complete ensures Remaining(after.records, u) == {} {
      assert after == data || u != meta.userId;
      assert Remaining(after.records, u) <= Remaining(data.records, u);
    }
  }

  /** In every run of commits, blocks, resumes and new encrypted rows the completion mark means what it says. */
  lemma {:induction false} RunKeepsConsistent(data: Data, txs: seq<Tx>)
    requires Consistent(data)
    ensures Consistent(Run(data, txs))
    decreases |txs|
  {
    if txs != [] {
      RunKeepsConsistent(data, txs[..|txs| - 1]);
      StepKeepsConsistent(Run(data, txs[..|txs| - 1]), txs[|txs| - 1]);
    }
  }

  /** A migration that is not complete can be blocked, and a blocked one is pending again when it is resumed. */
  lemma BlockAndResume(data: Data, userId: Text)
    ensures var (blocked, resumed) := (Block(data, userId), Resume(data, userId));
            && (blocked.Ok? <==> userId in data.migrations && data.migrations[userId] != Complete)
            && (blocked.Ok? ==> blocked.value == Data(data.records, data.migrations[userId := Blocked], data.accounts))
            && (blocked.Ok? ==> Resume(blocked.value, userId) == Ok(Data(data.records, data.migrations[userId := Pending], data.accounts)))
            && (resumed.Ok? <==> userId in data.migrations && data.migrations[userId] == Blocked)
            && (resumed.Ok? ==> resumed.value == Data(data.records, data.migrations[userId := Pending], data.accounts))
            && (blocked.Err? ==> blocked.error == "MIGRATION_STATE_CHANGED") && (resumed.Err? ==> resumed.error == "MIGRATION_STATE_CHANGED")
  {
    if userId in data.migrations {
      var state := data.migrations[userId];
      assert state == Pending || state == Running || state == Blocked || state == Complete;
      assert data.migrations[userId := Blocked][userId := Pending] == data.migrations[userId := Pending];
    }
  }

  /** What saving an encrypted record leaves. A known deduplication key changes nothing; a new row reopens what was closed. */
  lemma InsertLeaves(data: Data, id: Text, meta: Meta, body: Body)
    requires body.E2ee? && id !in data.records
    ensures var (saved, user) := (Inserted(data, id, meta, body), meta.userId);
            && (saved.Err? <==> user !in data.accounts || data.accounts[user] == AccountPending)
            && (saved.Err? ==> saved.error == "CONTENT_ACCOUNT_INACTIVE")
            && (saved.Ok? && (exists k :: k in data.records && data.records[k].meta.dedupKey == meta.dedupKey) ==> saved.value == data)
            && (saved.Ok? && !(exists k :: k in data.records && data.records[k].meta.dedupKey == meta.dedupKey) ==>
                  && saved.value.records == data.records[id := Record(meta, body)]
                  && saved.value.accounts == data.accounts[user := Active]
                  && saved.value.migrations == data.migrations[user :=
                       if user in data.migrations && data.migrations[user] in {Running, Blocked} then data.migrations[user] else Pending])
  {
    if user :| user == meta.userId && user in data.accounts && data.accounts[user] != AccountPending {
      assert data.accounts[user] == Active || data.accounts[user] == AccountMigrated;
      assert data.accounts[user] == Active ==> data.accounts[user := Active] == data.accounts;
    }
  }

  /** Every row still encrypted end to end has an open migration and an active account. */
  ghost predicate Tracked(data: Data) {
    forall id | id in data.records && data.records[id].body.E2ee? ::
      IsOpen(data, data.records[id].meta.userId)
  }

  ghost predicate IsOpen(data: Data, userId: Text) {
    && userId in data.migrations && data.migrations[userId] != Complete
    && userId in data.accounts && data.accounts[userId] == Active
  }

  lemma CommitKeepsTracked(data: Data, items: seq<Item>, commit: Commit)
    requires Tracked(data) && Committed(data, items, commit).Ok?
    ensures Tracked(Committed(data, items, commit).value.0)
  {
    CommitLeaves(data, items, commit);
    var after := Committed(data, items, commit).value.0;
    hide Committed, AllMatch, IdsOf;
    forall id | id in after.records && after.records[id].body.E2ee? ensures IsOpen(after, after.records[id].meta.userId) {
      if id in IdsOf(items) {
        NamedIsItem(items, id);
      } else {
        assert after.records[id] == data.records[id];
        assert IsOpen(data, data.records[id].meta.userId);
      }
    }
  }

  lemma NamedIsItem(items: seq<Item>, id: Text)
    requires id in IdsOf(items)
    ensures exists item :: item in items && item.id == id
  {
  }

  lemma StepKeepsTracked(data: Data, tx: Tx)
    requires Tracked(data)
    ensures Tracked(Step(data, tx))
  {
    hide Committed;
    match tx
    case CommitTx(items, commit) =>
      hide Tracked;
      if Committed(data, items, commit).Ok? { CommitKeepsTracked(data, items, commit); }
    case InsertTx(id, meta, body) => if body.E2ee? && id !in data.records { InsertKeepsTracked(data, id, meta, body); }
    case _ =>
  }

  lemma InsertKeepsTracked(data: Data, id: Text, meta: Meta, body: Body)
    requires Tracked(data) && body.E2ee? && id !in data.records
    ensures Inserted(data, id, meta, body).Ok? ==> Tracked(Inserted(data, id, meta, body).value)
  {
    InsertLeaves(data, id, meta, body);
    var saved := Inserted(data, id, meta, body);
    hide Inserted;
    if saved.Ok? && saved.value != data {
      forall k | k in saved.value.records && saved.value.records[k].body.E2ee? ensures IsOpen(saved.value, saved.value.records[k].meta.userId) {
        assert k != id ==> IsOpen(data, data.records[k].meta.userId);
      }
    }
  }

  /** In every run no row is forgotten: its user's migration is open and the account active until the row is replaced. */
  lemma {:induction false} RunKeepsTracked(data: Data, txs: seq<Tx>)
    requires Tracked(data)
    ensures Tracked(Run(data, txs))
    decreases |txs|
  {
    if txs != [] {
      hide Step, Tracked;
      RunKeepsTracked(data, txs[..|txs| - 1]);
      StepKeepsTracked(Run(data, txs[..|txs| - 1]), txs[|txs| - 1]);
    }
  }

  /**
   * From every reachable state a user's migration can be finished: unless it is blocked, a commit of all the rows that
   * are left, each under its digest, goes through and completes it.
   */
  lemma LastRowsComplete(data: Data, items: seq<Item>, commit: Commit)
    requires Tracked(data) && Remaining(data.records, commit.userId) != {} && !InState(data.migrations, commit.userId, {Blocked})
    requires 1 <= commit.keyVersion <= 32_767 && |commit.key| == 32
    requires AllMatch(data.records, items, commit) && NamesAll(data.records, items, commit.userId)
    ensures var committed := Committed(data, items, commit);
            && committed.Ok? && committed.value.1 == Outcome(|items|, 0, true)
            && committed.value.0.migrations == data.migrations[commit.userId := Complete]
            && committed.value.0.accounts == data.accounts[commit.userId := AccountMigrated]
  {
    var id :| id in Remaining(data.records, commit.userId);
    assert IsOpen(data, commit.userId);
    var state := data.migrations[commit.userId];
    assert state == Pending || state == Running || state == Blocked || state == Complete;
    CommitGoesThroughIff(data, items, commit);
    hide Tracked, AllMatch, NamesAll, Remaining;
    CommitLeaves(data, items, commit);
    CommitConserves(data, items, commit);
  }

  /** While a migration is blocked nothing of it moves: until it is resumed it stays blocked, and its rows stay as they are. */
  lemma {:induction false} BlockedStaysBlocked(data: Data, txs: seq<Tx>, userId: Text)
    requires userId in data.migrations && data.migrations[userId] == Blocked
    requires forall k :: 0 <= k < |txs| ==> txs[k] != ResumeTx(userId)
    ensures var after := Run(data, txs);
            && userId in after.migrations && after.migrations[userId] == Blocked
            && forall id | id in data.records && data.records[id].meta.userId == userId ::
                 id in after.records && after.records[id] == data.records[id]
    decreases |txs|
  {
    if txs != [] {
      var last := |txs| - 1;
      assert forall k :: 0 <= k < last ==> txs[..last][k] == txs[k];
      hide Step;
      BlockedStaysBlocked(data, txs[..last], userId);
      StepKeepsBlocked(Run(data, txs[..last]), txs[last], userId);
    }
  }

  lemma StepKeepsBlocked(data: Data, tx: Tx, userId: Text)
    requires userId in data.migrations && data.migrations[userId] == Blocked && tx != ResumeTx(userId)
    ensures var after := Step(data, tx);
            && userId in after.migrations && after.migrations[userId] == Blocked
            && forall id | id in data.records && data.records[id].meta.userId == userId ::
                 id in after.records && after.records[id] == data.records[id]
  {
    match tx
    case CommitTx(items, commit) =>
      hide Committed;
      if Committed(data, items, commit).Ok? { CommitSparesBlocked(data, items, commit, userId); }
    case _ =>
  }

  lemma CommitSparesBlocked(data: Data, items: seq<Item>, commit: Commit, userId: Text)
    requires userId in data.migrations && data.migrations[userId] == Blocked && Committed(data, items, commit).Ok?
    ensures var after := Committed(data, items, commit).value.0;
            && userId in after.migrations && after.migrations[userId] == Blocked
            && forall id | id in data.records && data.records[id].meta.userId == userId ::
                 id in after.records && after.records[id] == data.records[id]
  {
    CommitGoesThroughIff(data, items, commit);
    CommitLeaves(data, items, commit);
    var after := Committed(data, items, commit).value.0;
    forall id | id in data.records && data.records[id].meta.userId == userId ensures id !in IdsOf(items) {
      if id in IdsOf(items) { NamedMatches(data.records, items, commit, id); }
    }
    hide Committed, AllMatch, NamesAll, Remaining, IdsOf;
  }

  lemma NamedMatches(records: Records, items: seq<Item>, commit: Commit, id: Text)
    requires AllMatch(records, items, commit) && id in IdsOf(items)
    ensures id in records && records[id].meta.userId == commit.userId
  {
    hide SourceDigest.IsValid, SourceStream;
    var item :| item in items && item.id == id;
    var k :| 0 <= k < |items| && items[k] == item;
    assert Matches(records, items[k], commit);
  }

  /** The transaction is a commit that goes through and has an item for the row. */
  ghost predicate Commits(data: Data, tx: Tx, id: Text) {
    tx.CommitTx? && Committed(data, tx.items, tx.commit).Ok? && ItemOf(tx.items, id).Some?
  }

  lemma {:induction false} ItemOfHasId(items: seq<Item>, id: Text)
    ensures ItemOf(items, id).Some? ==> ItemOf(items, id).value.id == id
    decreases |items|
  {
    if items != [] { ItemOfHasId(items[..|items| - 1], id); }
  }

  lemma MatchedIsE2ee(records: Records, item: Item, commit: Commit)
    requires Matches(records, item, commit)
    ensures records[item.id].body.E2ee?
  {
    hide SourceDigest.IsValid, SourceStream;
  }

  lemma CommitKeepsRow(data: Data, items: seq<Item>, commit: Commit, id: Text)
    requires id in data.records && Committed(data, items, commit).Ok?
    ensures var (after, item) := (Committed(data, items, commit).value.0.records, ItemOf(items, id));
            && id in after
            && (item.Some? ==> data.records[id].body.E2ee? && after[id] == Migrated(data.records[id], item.value.text, commit))
            && (item.None? ==> after[id] == data.records[id])
  {
    CommitConserves(data, items, commit);
    hide Migrated, ItemOf, Committed, Matches;
    ItemOfHasId(items, id);
    if ItemOf(items, id).Some? { MatchedIsE2ee(data.records, ItemOf(items, id).value, commit); }
  }

  lemma StepKeepsRow(data: Data, tx: Tx, id: Text)
    requires id in data.records
    ensures var after := Step(data, tx).records;
            && id in after
            && (Commits(data, tx, id) ==>
                  data.records[id].body.E2ee? && after[id] == Migrated(data.records[id], ItemOf(tx.items, id).value.text, tx.commit))
            && (!Commits(data, tx, id) ==> after[id] == data.records[id])
  {
    hide Migrated, ItemOf, Committed;
    if tx.CommitTx? && Committed(data, tx.items, tx.commit).Ok? { CommitKeepsRow(data, tx.items, tx.commit, id); }
  }

  /** The step of a run at which a row was replaced, if one did. */
  ghost function CommitStep(data: Data, txs: seq<Tx>, id: Text): Option<nat>
    decreases |txs|
  {
    if txs == [] then None
    else
      var earlier := CommitStep(data, txs[..|txs| - 1], id);
      if earlier.Some? then earlier
      else if Commits(Run(data, txs[..|txs| - 1]), txs[|txs| - 1], id) then Some(|txs| - 1)
      else None
  }

  /** The row as a run leaves it: untouched, or replaced once and never again. */
  ghost predicate RowKept(data: Data, txs: seq<Tx>, id: Text)
    requires id in data.records
  {
    var (after, at) := (Run(data, txs).records, CommitStep(data, txs, id));
    && id in after
    && (at.None? ==> after[id] == data.records[id])
    && (at.Some? ==>
          && at.value < |txs| && txs[at.value].CommitTx? && ItemOf(txs[at.value].items, id).Some?
          && data.records[id].body.E2ee?
          && after[id] == Migrated(data.records[id], ItemOf(txs[at.value].items, id).value.text, txs[at.value].commit))
  }

  /**
   * In every run a row is kept as it was, or replaced by exactly one commit and then sealed over the text of
   * that commit's item under its own metadata; no row is lost and none is replaced twice.
   */
  lemma {:induction false} RunKeepsRows(data: Data, txs: seq<Tx>, id: Text)
    requires id in data.records
    ensures RowKept(data, txs, id)
    decreases |txs|
  {
    if txs != [] {
      var last := |txs| - 1;
      var earlier := txs[..last];
      hide Committed;
      RunKeepsRows(data, earlier, id);
      var before := Run(data, earlier);
      StepKeepsRow(before, txs[last], id);
      MigratedIsManaged();
      hide Migrated, ItemOf, Step, Commits;
      assert forall k :: 0 <= k < last ==> earlier[k] == txs[k];
    }
  }

  lemma MigratedIsManaged()
    ensures forall record: Record, text: Text, commit: Commit :: Migrated(record, text, commit).body.Managed?
  {
    hide ToUtf8;
  }
}
