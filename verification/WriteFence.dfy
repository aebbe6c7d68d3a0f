/**
 * Moving every user's key wrapper from one key provider to another while new keys are being made
 * (apps/web/lib/managed-user-keys.ts, apps/web/lib/managed-key-distribution.ts, apps/web/lib/provider-rewrap.ts,
 * scripts/toard-admin.ts; migrations/1700000035, 1700000039 and 1700000040). Every transaction that writes a
 * wrapper holds the distribution lock, so transactions are taken one after the other.
 */
module WriteFence {
  import opened Prelude

  datatype Identity = Identity(provider: string, fingerprint: string)

  datatype KeyState = Active | Pending | Retiring

  datatype RowKey = RowKey(userId: string, keyVersion: nat, fingerprint: string)

  /** A user key under a provider's key; `sealed` stands for the ciphertext. */
  datatype Wrapper = Wrapper(provider: string, sealed: nat, state: KeyState)

  type Rows = map<RowKey, Wrapper>

  /** What the distribution counts together. */
  datatype Group = Group(identity: Identity, state: KeyState)

  type Distribution = map<Group, nat>

  datatype Event = Created(userId: string) | Started(target: Identity) | Rewrapped(userId: string) | Completed(target: Identity)

  datatype Data = Data(rows: Rows, distribution: Distribution, events: seq<Event>)

  // -------------------------------------------------- the distribution's trigger

  function GroupOf(key: RowKey, wrapper: Wrapper): Group {
    Group(Identity(wrapper.provider, key.fingerprint), wrapper.state)
  }

  function Increased(distribution: Distribution, group: Group): Distribution {
    distribution[group := if group in distribution then distribution[group] + 1 else 1]
  }

  function Decreased(distribution: Distribution, group: Group): Distribution {
    if group !in distribution then distribution
    else if distribution[group] <= 1 then distribution - {group}
    else distribution[group := distribution[group] - 1]
  }

  /** Writing a row and what the trigger does to the counts. */
  function Put(data: Data, key: RowKey, wrapper: Wrapper): Data {
    var kept := if key in data.rows then Decreased(data.distribution, GroupOf(key, data.rows[key])) else data.distribution;
    var same := key in data.rows && GroupOf(key, data.rows[key]) == GroupOf(key, wrapper);
    data.(rows := data.rows[key := wrapper],
          distribution := if same then data.distribution else Increased(kept, GroupOf(key, wrapper)))
  }

  ghost function Members(rows: Rows, group: Group): set<RowKey> {
    set key | key in rows && GroupOf(key, rows[key]) == group
  }

  function CountIn(distribution: Distribution, group: Group): nat {
    if group in distribution then distribution[group] else 0
  }

  /** The counts are those of counting the rows anew; groups without rows are not listed. */
  ghost predicate Exact(data: Data) {
    forall group: Group ::
      CountIn(data.distribution, group) == |Members(data.rows, group)| && (group in data.distribution ==> data.distribution[group] > 0)
  }

  lemma MembersButOne(rows: Rows, key: RowKey, wrapper: Wrapper, group: Group)
    ensures Members(rows[key := wrapper], group) - {key} == Members(rows, group) - {key}
    ensures key in Members(rows, group) <==> key in rows && GroupOf(key, rows[key]) == group
    ensures key in Members(rows[key := wrapper], group) <==> GroupOf(key, wrapper) == group
  {
    hide GroupOf;
  }

  /** Writing a row takes it from its group and puts it into another, which may be the same. */
  lemma MembersAfter(rows: Rows, key: RowKey, wrapper: Wrapper, group: Group)
    ensures |Members(rows[key := wrapper], group)| ==
      |Members(rows, group)| - (if key in rows && GroupOf(key, rows[key]) == group then 1 else 0)
      + (if GroupOf(key, wrapper) == group then 1 else 0)
    ensures key in rows && GroupOf(key, rows[key]) == group ==> |Members(rows, group)| > 0
  {
    MembersButOne(rows, key, wrapper, group);
    hide Members, GroupOf;
    SizeWithout(Members(rows, group), key);
    SizeWithout(Members(rows[key := wrapper], group), key);
  }

  lemma SizeWithout(keys: set<RowKey>, key: RowKey)
    ensures |keys| == |keys - {key}| + if key in keys then 1 else 0
  {
    if key in keys { assert keys == (keys - {key}) + {key}; } else { assert keys - {key} == keys; }
  }

  lemma PutKeepsExact(data: Data, key: RowKey, wrapper: Wrapper)
    requires Exact(data)
    ensures Exact(Put(data, key, wrapper))
  {
    hide Members, GroupOf;
    var after := Put(data, key, wrapper);
    forall group: Group
      ensures CountIn(after.distribution, group) == |Members(after.rows, group)|
      ensures group in after.distribution ==> after.distribution[group] > 0
    {
      MembersAfter(data.rows, key, wrapper, group);
      assert CountIn(data.distribution, group) == |Members(data.rows, group)|;
    }
  }

  // ---------------------------------------------------------------- transactions

  /** The target of the latest start; completions do not lift the fence. */
  function Fence(events: seq<Event>): Option<Identity> {
    if events == [] then None
    else if events[|events| - 1].Started? then Some(events[|events| - 1].target)
    else Fence(events[..|events| - 1])
  }

  predicate IsActiveRow(rows: Rows, key: RowKey, userId: string) {
    key in rows && key.userId == userId && rows[key].state == Active
  }

  predicate HasActive(rows: Rows, userId: string) { exists key :: key in rows && IsActiveRow(rows, key, userId) }

  /** A new key is wrapped by the fence's target, or by the process's own provider when there is no fence. */
  function NewKeyIdentity(data: Data, own: Identity): Identity {
    var fence := Fence(data.events);
    if fence.Some? then fence.value else own
  }

  /** The user has no active key, and the place of the new one is free. */
  predicate CanCreate(data: Data, userId: string, own: Identity) {
    !HasActive(data.rows, userId) && RowKey(userId, 1, NewKeyIdentity(data, own).fingerprint) !in data.rows
  }

  function CreateKey(data: Data, userId: string, own: Identity, sealed: nat): Data {
    var identity := NewKeyIdentity(data, own);
    var key := RowKey(userId, 1, identity.fingerprint);
    if !CanCreate(data, userId, own) then data
    else
      var put := Put(data, key, Wrapper(identity.provider, sealed, Active));
      put.(events := put.events + [Created(userId)])
  }

  function StartMigration(data: Data, target: Identity): Data { data.(events := data.events + [Started(target)]) }

  /** No other row of the user is pending. */
  predicate PendingFree(rows: Rows, key: RowKey) {
    forall other :: other in rows && other != key && other.userId == key.userId ==> rows[other].state != Pending
  }

  /** The wrapper read before is still the user's active one, and the target's row can take its place. */
  predicate CanRewrap(rows: Rows, row: RowKey, snapshot: Wrapper, target: Identity) {
    var key := RowKey(row.userId, row.keyVersion, target.fingerprint);
    && row.fingerprint != target.fingerprint
    && row in rows && rows[row] == snapshot && snapshot.state == Active
    && (key in rows ==> rows[key].state != Active) && PendingFree(rows, key)
  }

  /** The target's wrapper is stored as pending, the old one retires, and the target's becomes active. */
  function Rewrap(data: Data, row: RowKey, snapshot: Wrapper, target: Identity, sealed: nat): Data {
    if !CanRewrap(data.rows, row, snapshot, target) then data
    else
      var key := RowKey(row.userId, row.keyVersion, target.fingerprint);
      var pending := Put(data, key, Wrapper(target.provider, sealed, Pending));
      var retired := Put(pending, row, snapshot.(state := Retiring));
      var activated := Put(retired, key, Wrapper(target.provider, sealed, Active));
      activated.(events := activated.events + [Rewrapped(row.userId)])
  }

  /** Nothing is pending and every active wrapper is the target's. */
  predicate RemovalReady(distribution: Distribution, from: Identity, target: Identity) {
    && from.fingerprint != target.fingerprint
    && forall group :: group in distribution ==>
         group.state != Pending && (group.state == Active ==> group.identity == target)
  }

  function CompleteMigration(data: Data, from: Identity, target: Identity): Data {
    if RemovalReady(data.distribution, from, target) then data.(events := data.events + [Completed(target)]) else data
  }

  // ------------------------------------------------------------------ whole runs

  datatype Tx =
    | CreateTx(userId: string, own: Identity, sealed: nat)
    | StartTx(target: Identity)
    | RewrapTx(row: RowKey, snapshot: Wrapper, target: Identity, sealed: nat)
    | CompleteTx(from: Identity, target: Identity)

  function Step(data: Data, tx: Tx): Data {
    match tx
    case CreateTx(userId, own, sealed) => CreateKey(data, userId, own, sealed)
    case StartTx(target) => StartMigration(data, target)
    case RewrapTx(row, snapshot, target, sealed) => Rewrap(data, row, snapshot, target, sealed)
    case CompleteTx(from, target) => CompleteMigration(data, from, target)
  }

  function Run(data: Data, txs: seq<Tx>): Data
    decreases |txs|
  {
    if txs == [] then data else Step(Run(data, txs[..|txs| - 1]), txs[|txs| - 1])
  }

  lemma StepKeepsExact(data: Data, tx: Tx)
    requires Exact(data)
    ensures Exact(Step(data, tx))
  {
    hide Exact, Put, CanRewrap, RemovalReady, HasActive, Fence;
    match tx
    case CreateTx(userId, own, sealed) =>
      var fence := Fence(data.events);
      var identity := if fence.Some? then fence.value else own;
      PutKeepsExact(data, RowKey(userId, 1, identity.fingerprint), Wrapper(identity.provider, sealed, Active));
      EventsKeepExact(Put(data, RowKey(userId, 1, identity.fingerprint), Wrapper(identity.provider, sealed, Active)), [Created(userId)]);
    case StartTx(target) => EventsKeepExact(data, [Started(target)]);
    case RewrapTx(row, snapshot, target, sealed) =>
      var key := RowKey(row.userId, row.keyVersion, target.fingerprint);
      var pending := Put(data, key, Wrapper(target.provider, sealed, Pending));
      var retired := Put(pending, row, snapshot.(state := Retiring));
      PutKeepsExact(data, key, Wrapper(target.provider, sealed, Pending));
      PutKeepsExact(pending, row, snapshot.(state := Retiring));
      PutKeepsExact(retired, key, Wrapper(target.provider, sealed, Active));
      EventsKeepExact(Put(retired, key, Wrapper(target.provider, sealed, Active)), [Rewrapped(row.userId)]);
    case CompleteTx(from, target) => EventsKeepExact(data, [Completed(target)]);
  }

  lemma EventsKeepExact(data: Data, events: seq<Event>)
    requires Exact(data)
    ensures Exact(data.(events := data.events + events))
  {
  }

  /** In every run the distribution the triggers keep is the one counting the rows would give. */
  lemma {:induction false} RunKeepsExact(data: Data, txs: seq<Tx>)
    requires Exact(data)
    ensures Exact(Run(data, txs))
    decreases |txs|
  {
    if txs != [] {
      RunKeepsExact(data, txs[..|txs| - 1]);
      hide Step, Exact;
      StepKeepsExact(Run(data, txs[..|txs| - 1]), txs[|txs| - 1]);
    }
  }

  /** The number of active wrappers under a provider's key. */
  ghost function ActiveCount(rows: Rows, identity: Identity): nat { |Members(rows, Group(identity, Active))| }

  lemma PutActiveCount(data: Data, key: RowKey, wrapper: Wrapper, identity: Identity)
    ensures ActiveCount(Put(data, key, wrapper).rows, identity) ==
      ActiveCount(data.rows, identity)
      - (if key in data.rows && GroupOf(key, data.rows[key]) == Group(identity, Active) then 1 else 0)
      + (if GroupOf(key, wrapper) == Group(identity, Active) then 1 else 0)
  {
    hide Members, GroupOf, Increased, Decreased;
    MembersAfter(data.rows, key, wrapper, Group(identity, Active));
  }

  /** A rewrap takes one active wrapper from the old provider and gives one to the target. */
  lemma RewrapActiveCount(data: Data, row: RowKey, snapshot: Wrapper, target: Identity, sealed: nat, identity: Identity)
    requires CanRewrap(data.rows, row, snapshot, target)
    ensures ActiveCount(Rewrap(data, row, snapshot, target, sealed).rows, identity) ==
      ActiveCount(data.rows, identity)
      - (if Identity(snapshot.provider, row.fingerprint) == identity then 1 else 0)
      + (if target == identity then 1 else 0)
  {
    var key := RowKey(row.userId, row.keyVersion, target.fingerprint);
    var pending := Put(data, key, Wrapper(target.provider, sealed, Pending));
    var retired := Put(pending, row, snapshot.(state := Retiring));
    assert row in pending.rows && pending.rows[row] == snapshot;
    assert key in retired.rows && retired.rows[key].state == Pending;
    hide Put, ActiveCount, PendingFree;
    PutActiveCount(data, key, Wrapper(target.provider, sealed, Pending), identity);
    PutActiveCount(pending, row, snapshot.(state := Retiring), identity);
    PutActiveCount(retired, key, Wrapper(target.provider, sealed, Active), identity);
  }

  /** A rewrap to the provider that goes through. */
  predicate Returns(data: Data, tx: Tx, identity: Identity) {
    tx.RewrapTx? && tx.target == identity && CanRewrap(data.rows, tx.row, tx.snapshot, tx.target)
  }

  /** A new key that is made under the provider. */
  predicate CreatesUnder(data: Data, tx: Tx, identity: Identity) {
    tx.CreateTx? && NewKeyIdentity(data, tx.own) == identity && CanCreate(data, tx.userId, tx.own)
  }

  /** A step adds an active wrapper under a provider exactly when it is a rewrap or a new key that goes there. */
  lemma StepAddsActiveIff(data: Data, tx: Tx, identity: Identity)
    ensures ActiveCount(Step(data, tx).rows, identity) > ActiveCount(data.rows, identity) <==>
      Returns(data, tx, identity) || CreatesUnder(data, tx, identity)
  {
    hide ActiveCount, Put, HasActive, RemovalReady, Fence;
    match tx
    case CreateTx(userId, own, sealed) =>
      var chosen := NewKeyIdentity(data, own);
      PutActiveCount(data, RowKey(userId, 1, chosen.fingerprint), Wrapper(chosen.provider, sealed, Active), identity);
    case RewrapTx(row, snapshot, target, sealed) =>
      if CanRewrap(data.rows, row, snapshot, target) {
        RewrapActiveCount(data, row, snapshot, target, sealed, identity);
        hide Rewrap;
      }
    case _ =>
  }

  lemma StepMovesFence(data: Data, tx: Tx)
    ensures Fence(Step(data, tx).events) == if tx.StartTx? then Some(tx.target) else Fence(data.events)
  {
    hide HasActive, CanRewrap, RemovalReady, GroupOf, Increased, Decreased;
    var added := Step(data, tx).events;
    assert tx.StartTx? ==> added[..|data.events|] == data.events;
    assert added == data.events || added[..|added| - 1] == data.events;
  }

  /** No start of the run names the provider. */
  ghost predicate StartsElsewhere(txs: seq<Tx>, identity: Identity) {
    forall k :: 0 <= k < |txs| ==> !(txs[k].StartTx? && txs[k].target == identity)
  }

  ghost predicate NeverReturns(data: Data, txs: seq<Tx>, identity: Identity) {
    forall k :: 0 <= k < |txs| ==> !Returns(Run(data, txs[..k]), txs[k], identity)
  }

  ghost predicate NeverCreates(data: Data, txs: seq<Tx>, identity: Identity) {
    forall k :: 0 <= k < |txs| ==> !CreatesUnder(Run(data, txs[..k]), txs[k], identity)
  }

  lemma {:induction false} FenceStaysAway(data: Data, txs: seq<Tx>, identity: Identity)
    requires Fence(data.events).Some? && Fence(data.events).value != identity && StartsElsewhere(txs, identity)
    ensures Fence(Run(data, txs).events).Some? && Fence(Run(data, txs).events).value != identity
    decreases |txs|
  {
    if txs != [] {
      var last := |txs| - 1;
      assert StartsElsewhere(txs[..last], identity);
      FenceStaysAway(data, txs[..last], identity);
      hide Fence, Step;
      StepMovesFence(Run(data, txs[..last]), txs[last]);
    }
  }

  /** With the latest start naming another provider, new keys stay away from this one. */
  lemma FencedNeverCreates(data: Data, txs: seq<Tx>, identity: Identity)
    requires Fence(data.events).Some? && Fence(data.events).value != identity && StartsElsewhere(txs, identity)
    ensures NeverCreates(data, txs, identity)
  {
    forall k | 0 <= k < |txs| ensures !CreatesUnder(Run(data, txs[..k]), txs[k], identity) {
      assert StartsElsewhere(txs[..k], identity);
      hide Run, Fence, CanCreate;
      FenceStaysAway(data, txs[..k], identity);
    }
  }

  lemma RunAddsActiveIff(data: Data, txs: seq<Tx>, identity: Identity, k: nat)
    requires k < |txs|
    ensures Run(data, txs[..k + 1]) == Step(Run(data, txs[..k]), txs[k])
    ensures ActiveCount(Run(data, txs[..k + 1]).rows, identity) > ActiveCount(Run(data, txs[..k]).rows, identity) <==>
      Returns(Run(data, txs[..k]), txs[k], identity) || CreatesUnder(Run(data, txs[..k]), txs[k], identity)
  {
    assert txs[..k + 1][..k] == txs[..k];
    hide Step, ActiveCount, Returns, CreatesUnder;
    StepAddsActiveIff(Run(data, txs[..k]), txs[k], identity);
  }

  /** The number of active wrappers under the provider grows at no step of the run. */
  ghost predicate NeverGrows(data: Data, txs: seq<Tx>, identity: Identity) {
    forall k :: 0 <= k < |txs| ==>
      ActiveCount(Run(data, txs[..k + 1]).rows, identity) <= ActiveCount(Run(data, txs[..k]).rows, identity)
  }

  /**
   * In every interleaving of new keys, starts, rewraps and completions the number of active wrappers under a provider
   * grows at no step exactly when no rewrap to it goes through and no new key is made under it.
   */
  lemma CountNeverGrowsIff(data: Data, txs: seq<Tx>, identity: Identity)
    ensures NeverGrows(data, txs, identity) <==> NeverReturns(data, txs, identity) && NeverCreates(data, txs, identity)
  {
    hide Run, ActiveCount, Returns, CreatesUnder;
    if k :| 0 <= k < |txs| && (Returns(Run(data, txs[..k]), txs[k], identity) || CreatesUnder(Run(data, txs[..k]), txs[k], identity)) {
      RunAddsActiveIff(data, txs, identity, k);
    } else {
      forall k | 0 <= k < |txs|
        ensures ActiveCount(Run(data, txs[..k + 1]).rows, identity) <= ActiveCount(Run(data, txs[..k]).rows, identity)
      {
        RunAddsActiveIff(data, txs, identity, k);
      }
    }
  }

  /** So after a start to another provider, and until one names this one again, only a rewrap back lets it grow. */
  lemma OldCountNeverGrowsIff(data: Data, txs: seq<Tx>, identity: Identity)
    requires Fence(data.events).Some? && Fence(data.events).value != identity && StartsElsewhere(txs, identity)
    ensures NeverGrows(data, txs, identity) <==> NeverReturns(data, txs, identity)
  {
    hide NeverGrows, NeverReturns, NeverCreates, Fence, StartsElsewhere;
    FencedNeverCreates(data, txs, identity);
    CountNeverGrowsIff(data, txs, identity);
  }

  lemma NeverGrowsPrefix(data: Data, txs: seq<Tx>, identity: Identity, n: nat)
    requires NeverGrows(data, txs, identity) && n <= |txs|
    ensures NeverGrows(data, txs[..n], identity)
  {
    hide Run, ActiveCount;
    forall k | 0 <= k < n
      ensures ActiveCount(Run(data, txs[..n][..k + 1]).rows, identity) <= ActiveCount(Run(data, txs[..n][..k]).rows, identity)
    {
      assert txs[..n][..k] == txs[..k] && txs[..n][..k + 1] == txs[..k + 1];
    }
  }

  lemma {:induction false} NeverGrowsBeyond(data: Data, txs: seq<Tx>, identity: Identity)
    requires NeverGrows(data, txs, identity)
    ensures ActiveCount(Run(data, txs).rows, identity) <= ActiveCount(data.rows, identity)
    decreases |txs|
  {
    if txs != [] {
      var last := |txs| - 1;
      assert txs[..last + 1] == txs;
      NeverGrowsPrefix(data, txs, identity, last);
      hide ActiveCount, Step;
      NeverGrowsBeyond(data, txs[..last], identity);
    }
  }

  /** When completion is recorded no active wrapper is left under the old provider, and all are the target's. */
  lemma CompletionFindsNoOld(data: Data, from: Identity, target: Identity)
    requires Exact(data) && CompleteMigration(data, from, target) != data
    ensures ActiveCount(data.rows, from) == 0
    ensures forall key | key in data.rows && data.rows[key].state == Active :: GroupOf(key, data.rows[key]).identity == target
    ensures forall key | key in data.rows :: data.rows[key].state != Pending
  {
    hide Members;
    assert CountIn(data.distribution, Group(from, Active)) == 0;
    forall key | key in data.rows ensures GroupOf(key, data.rows[key]) in data.distribution {
      OwnGroup(data.rows, key);
      assert CountIn(data.distribution, GroupOf(key, data.rows[key])) > 0;
    }
  }

  lemma OwnGroup(rows: Rows, key: RowKey)
    requires key in rows
    ensures |Members(rows, GroupOf(key, rows[key]))| > 0
  {
    assert key in Members(rows, GroupOf(key, rows[key]));
  }

  /** No active wrapper is under the provider at any time of the run. */
  ghost predicate StaysZero(data: Data, txs: seq<Tx>, identity: Identity) {
    forall k :: 0 <= k <= |txs| ==> ActiveCount(Run(data, txs[..k]).rows, identity) == 0
  }

  lemma StaysZeroIff(data: Data, txs: seq<Tx>, identity: Identity)
    requires ActiveCount(data.rows, identity) == 0
    ensures StaysZero(data, txs, identity) <==> NeverGrows(data, txs, identity)
  {
    hide ActiveCount;
    if NeverGrows(data, txs, identity) {
      forall k: nat | k <= |txs| ensures ActiveCount(Run(data, txs[..k]).rows, identity) == 0 {
        NeverGrowsPrefix(data, txs, identity, k);
        hide Run, NeverGrows;
        NeverGrowsBeyond(data, txs[..k], identity);
      }
    }
  }

  /**
   * From a recorded completion on, the old provider's count stays zero exactly as long as no rewrap back to it goes
   * through and no new key is made under it. Completion does not look at the fence, so a start back to the old
   * provider may be in force by then.
   */
  lemma ZeroAfterCompletionIff(data: Data, from: Identity, target: Identity, txs: seq<Tx>)
    requires Exact(data) && CompleteMigration(data, from, target) != data
    ensures var completed := CompleteMigration(data, from, target);
            StaysZero(completed, txs, from) <==> NeverReturns(completed, txs, from) && NeverCreates(completed, txs, from)
  {
    var completed := CompleteMigration(data, from, target);
    CompletionFindsNoOld(data, from, target);
    assert completed.rows == data.rows;
    hide ActiveCount, CompleteMigration, Exact, StaysZero, NeverGrows, NeverReturns, NeverCreates;
    StaysZeroIff(completed, txs, from);
    CountNeverGrowsIff(completed, txs, from);
  }

  /** With the latest start naming another provider at completion and later, only a rewrap back ends it. */
  lemma FencedZeroAfterCompletionIff(data: Data, from: Identity, target: Identity, txs: seq<Tx>)
    requires Exact(data) && CompleteMigration(data, from, target) != data
    requires Fence(data.events).Some? && Fence(data.events).value != from && StartsElsewhere(txs, from)
    ensures var completed := CompleteMigration(data, from, target);
            StaysZero(completed, txs, from) <==> NeverReturns(completed, txs, from)
  {
    var completed := CompleteMigration(data, from, target);
    StepMovesFence(data, CompleteTx(from, target));
    ZeroAfterCompletionIff(data, from, target, txs);
    hide Fence, Exact, StaysZero, NeverReturns, NeverCreates, CompleteMigration, StartsElsewhere;
    FencedNeverCreates(completed, txs, from);
  }

  /**
   * A completion does not look at the fence: with a start back to the old provider in force it goes through, and the
   * next user's key is made under the old provider, without a new start or a rewrap.
   */
  lemma NewKeyAfterCompletion(first: nat, second: nat)
    ensures var (from, target) := (Identity("local", "local:old"), Identity("aws-kms", "aws-kms:new"));
            var before := Run(Data(map[], map[], []), [CreateTx("u", target, first), StartTx(target), StartTx(from)]);
            var completed := CompleteMigration(before, from, target);
            var next := CreateTx("v", target, second);
            && completed != before && ActiveCount(completed.rows, from) == 0
            && ActiveCount(Step(completed, next).rows, from) == 1
            && NeverReturns(completed, [next], from) && StartsElsewhere([next], from)
  {
    var (from, target) := (Identity("local", "local:old"), Identity("aws-kms", "aws-kms:new"));
    assert from.fingerprint[0] != target.fingerprint[0];
    var empty, start := Data(map[], map[], []), CreateTx("u", target, first);
    OneKeyIsListed("u", target, first, from);
    RunThree(empty, start, StartTx(target), StartTx(from));
    var before := Run(empty, [start, StartTx(target), StartTx(from)]);
    var completed := CompleteMigration(before, from, target);
    assert completed.events[..3] == before.events && before.events[..2] == [Created("u"), Started(target)];
    var next := CreateTx("v", target, second);
    hide Run, CreateKey, RemovalReady, Members, Put;
    assert Fence(completed.events) == Some(from);
    assert CanCreate(completed, "v", target);
    PutActiveCount(completed, RowKey("v", 1, from.fingerprint), Wrapper(from.provider, second, Active), from);
  }

  /**
   * A rewrap does not look at the fence: a migration to the old provider is begun and reads the user's wrapper,
   * one to the new provider is begun and completed, and then the first one's rewrap goes through.
   */
  lemma StaleRewrapReturns(first: nat, sealed: nat)
    ensures var (from, target) := (Identity("local", "local:old"), Identity("aws-kms", "aws-kms:new"));
            var row, read := RowKey("u", 1, target.fingerprint), Wrapper("aws-kms", first, Active);
            var completed := Run(Data(map[], map[], []), [CreateTx("u", target, first), StartTx(from), StartTx(target), CompleteTx(from, target)]);
            && Run(Data(map[], map[], []), [CreateTx("u", target, first), StartTx(from)]).rows == map[row := read]
            && completed.events == [Created("u"), Started(from), Started(target), Completed(target)]
            && Fence(completed.events) == Some(target)
            && completed.rows == map[row := read] && ActiveCount(completed.rows, from) == 0
            && ActiveCount(Step(completed, RewrapTx(row, read, from, sealed)).rows, from) == 1
  {
    var (from, target) := (Identity("local", "local:old"), Identity("aws-kms", "aws-kms:new"));
    assert from.fingerprint[0] != target.fingerprint[0];
    OneKeyCompletes("u", target, first, from);
    FirstKey("u", target, first);
    RunTwo(Data(map[], map[], []), CreateTx("u", target, first), StartTx(from));
    hide CreateKey;
    var row, read := RowKey("u", 1, target.fingerprint), Wrapper("aws-kms", first, Active);
    var completed := Run(Data(map[], map[], []), [CreateTx("u", target, first), StartTx(from), StartTx(target), CompleteTx(from, target)]);
    hide Run, Rewrap, Members;
    assert completed.events[..3] == [Created("u"), Started(from), Started(target)];
    RewrapActiveCount(completed, row, read, from, sealed, from);
  }

  /** One user's key under the target: a start to another provider and one back complete at once. */
  lemma OneKeyCompletes(userId: string, target: Identity, sealed: nat, from: Identity)
    requires from.fingerprint != target.fingerprint
    ensures var rows := map[RowKey(userId, 1, target.fingerprint) := Wrapper(target.provider, sealed, Active)];
            var completed := Run(Data(map[], map[], []), [CreateTx(userId, target, sealed), StartTx(from), StartTx(target), CompleteTx(from, target)]);
            && completed.rows == rows && ActiveCount(rows, from) == 0
            && completed.events == [Created(userId), Started(from), Started(target), Completed(target)]
  {
    FirstKey(userId, target, sealed);
    hide CreateKey, Run;
    RunFour(Data(map[], map[], []), CreateTx(userId, target, sealed), StartTx(from), StartTx(target), CompleteTx(from, target));
    assert Members(map[RowKey(userId, 1, target.fingerprint) := Wrapper(target.provider, sealed, Active)], Group(from, Active)) == {};
  }

  /** One user's key under the target, whatever starts follow: nothing else is listed, and removal is ready. */
  lemma OneKeyIsListed(userId: string, target: Identity, sealed: nat, from: Identity)
    requires from.fingerprint != target.fingerprint
    ensures var data := CreateKey(Data(map[], map[], []), userId, target, sealed);
            && data.rows == map[RowKey(userId, 1, target.fingerprint) := Wrapper(target.provider, sealed, Active)]
            && data.events == [Created(userId)]
            && RemovalReady(data.distribution, from, target) && ActiveCount(data.rows, from) == 0
  {
    FirstKey(userId, target, sealed);
    hide CreateKey;
    assert Members(map[RowKey(userId, 1, target.fingerprint) := Wrapper(target.provider, sealed, Active)], Group(from, Active)) == {};
  }

  lemma FirstKey(userId: string, own: Identity, sealed: nat)
    ensures CreateKey(Data(map[], map[], []), userId, own, sealed) ==
      Data(map[RowKey(userId, 1, own.fingerprint) := Wrapper(own.provider, sealed, Active)], map[Group(own, Active) := 1], [Created(userId)])
  {
  }

  lemma RunThree(data: Data, a: Tx, b: Tx, c: Tx)
    ensures Run(data, [a, b, c]) == Step(Step(Step(data, a), b), c)
  {
    hide Step;
    RunTwo(data, a, b);
    assert [a, b, c][..2] == [a, b];
  }

  lemma RunTwo(data: Data, a: Tx, b: Tx)
    ensures Run(data, [a, b]) == Step(Step(data, a), b)
  {
    hide Step;
    assert [a, b][..1] == [a] && [a][..0] == [];
    assert Run(data, []) == data;
    assert Run(data, [a]) == Step(data, a);
  }

  lemma RunFour(data: Data, a: Tx, b: Tx, c: Tx, d: Tx)
    ensures Run(data, [a, b, c, d]) == Step(Step(Step(Step(data, a), b), c), d)
  {
    hide Step;
    RunThree(data, a, b, c);
    assert [a, b, c, d][..3] == [a, b, c];
  }

  /** A user has at most one active wrapper. */
  ghost predicate OneActive(rows: Rows) {
    forall a, b :: a in rows && b in rows && a.userId == b.userId && rows[a].state == Active && rows[b].state == Active ==> a == b
  }

  lemma RewrapRows(data: Data, row: RowKey, snapshot: Wrapper, target: Identity, sealed: nat)
    requires CanRewrap(data.rows, row, snapshot, target)
    ensures Rewrap(data, row, snapshot, target, sealed).rows ==
      data.rows[RowKey(row.userId, row.keyVersion, target.fingerprint) := Wrapper(target.provider, sealed, Active)][row := snapshot.(state := Retiring)]
  {
    hide GroupOf, Increased, Decreased;
  }

  lemma StepKeepsOneActive(data: Data, tx: Tx)
    requires OneActive(data.rows)
    ensures OneActive(Step(data, tx).rows)
  {
    hide GroupOf, Increased, Decreased, RemovalReady, Fence;
    if tx.RewrapTx? && CanRewrap(data.rows, tx.row, tx.snapshot, tx.target) {
      RewrapRows(data, tx.row, tx.snapshot, tx.target, tx.sealed);
      hide Rewrap;
    }
  }

  /** The user has an active wrapper under the provider. */
  ghost predicate Holds(rows: Rows, userId: string, identity: Identity) {
    exists key :: key in rows && key.userId == userId && GroupOf(key, rows[key]) == Group(identity, Active)
  }

  /** The user's rewrap goes through. */
  predicate Moves(data: Data, tx: Tx, userId: string) {
    tx.RewrapTx? && tx.row.userId == userId && CanRewrap(data.rows, tx.row, tx.snapshot, tx.target)
  }

  lemma StepHandsNothingBack(data: Data, tx: Tx, identity: Identity, userId: string)
    requires OneActive(data.rows) && !Returns(data, tx, identity) && !CreatesUnder(data, tx, identity)
    requires !Holds(data.rows, userId, identity) || Moves(data, tx, userId)
    ensures !Holds(Step(data, tx).rows, userId, identity)
  {
    hide Increased, Decreased, RemovalReady, Fence;
    if tx.RewrapTx? && CanRewrap(data.rows, tx.row, tx.snapshot, tx.target) {
      RewrapRows(data, tx.row, tx.snapshot, tx.target, tx.sealed);
      hide Rewrap, PendingFree;
    }
  }

  /**
   * When the rewrap of every user with an active wrapper under the old provider goes through at some time, that
   * provider has none left, whatever other transactions come between, unless a rewrap or a new key
   * goes to it.
   */
  lemma {:induction false} RewrapsEmptyOld(data: Data, txs: seq<Tx>, identity: Identity)
    requires OneActive(data.rows) && NeverReturns(data, txs, identity) && NeverCreates(data, txs, identity)
    requires forall userId | Holds(data.rows, userId, identity) :: exists k :: 0 <= k < |txs| && Moves(Run(data, txs[..k]), txs[k], userId)
    ensures ActiveCount(Run(data, txs).rows, identity) == 0
  {
    var rows := Run(data, txs).rows;
    forall userId: string ensures !Holds(rows, userId, identity) {
      if Holds(data.rows, userId, identity) {
        var k :| 0 <= k < |txs| && Moves(Run(data, txs[..k]), txs[k], userId);
        MovedStaysAway(data, txs, identity, userId, k);
      } else {
        MovedStaysAway(data, txs, identity, userId, |txs|);
      }
    }
    forall key | key in Members(rows, Group(identity, Active)) ensures false {
      assert Holds(rows, key.userId, identity);
    }
    assert Members(rows, Group(identity, Active)) == {};
  }

  lemma NeverAddsPrefix(data: Data, txs: seq<Tx>, identity: Identity, n: nat)
    requires NeverReturns(data, txs, identity) && NeverCreates(data, txs, identity) && n <= |txs|
    ensures NeverReturns(data, txs[..n], identity) && NeverCreates(data, txs[..n], identity)
  {
    hide Run, Returns, CreatesUnder;
    forall k | 0 <= k < n
      ensures !Returns(Run(data, txs[..n][..k]), txs[..n][k], identity) && !CreatesUnder(Run(data, txs[..n][..k]), txs[..n][k], identity)
    {
      assert txs[..n][..k] == txs[..k];
    }
  }

  /** From the user's move on, or all along if there was nothing to move, nothing is under the old provider. */
  lemma {:induction false} MovedStaysAway(data: Data, txs: seq<Tx>, identity: Identity, userId: string, k: nat)
    requires OneActive(data.rows) && NeverReturns(data, txs, identity) && NeverCreates(data, txs, identity)
    requires k <= |txs| && (if k < |txs| then Moves(Run(data, txs[..k]), txs[k], userId) else !Holds(data.rows, userId, identity))
    ensures !Holds(Run(data, txs).rows, userId, identity)
    decreases |txs|
  {
    hide Step, Holds, Moves, Fence, OneActive, ActiveCount;
    if txs != [] {
      var last := |txs| - 1;
      var earlier := txs[..last];
      NeverAddsPrefix(data, txs, identity, last);
      RunKeepsOneActive(data, earlier);
      if k < last {
        assert earlier[..k] == txs[..k];
        MovedStaysAway(data, earlier, identity, userId, k);
      } else if k == |txs| {
        MovedStaysAway(data, earlier, identity, userId, last);
      }
      StepHandsNothingBack(Run(data, earlier), txs[last], identity, userId);
    }
  }

  lemma {:induction false} RunKeepsOneActive(data: Data, txs: seq<Tx>)
    requires OneActive(data.rows)
    ensures OneActive(Run(data, txs).rows)
    decreases |txs|
  {
    if txs != [] {
      RunKeepsOneActive(data, txs[..|txs| - 1]);
      hide Step, OneActive;
      StepKeepsOneActive(Run(data, txs[..|txs| - 1]), txs[|txs| - 1]);
    }
  }

  // ------------------------------------------------------- the readiness of removal

  datatype Entry = Entry(identity: Identity, state: KeyState, count: nat)

  const MAX_SAFE: nat := 9_007_199_254_740_991

  datatype Share = AllActive | OfOld | OfTarget | Unexpected | AllPending

  /** What an entry adds to a counter. */
  function Part(entry: Entry, share: Share, from: Option<Identity>, target: Option<Identity>): nat {
    var counts := match share
      case AllPending => entry.state == Pending
      case AllActive => entry.state == Active
      case OfOld => entry.state == Active && Some(entry.identity) == from
      case OfTarget => entry.state == Active && Some(entry.identity) != from && Some(entry.identity) == target
      case Unexpected => entry.state == Active && Some(entry.identity) != from && Some(entry.identity) != target;
    if counts then entry.count else 0
  }

  function Sum(entries: seq<Entry>, share: Share, from: Option<Identity>, target: Option<Identity>): nat {
    if entries == [] then 0
    else Sum(entries[..|entries| - 1], share, from, target) + Part(entries[|entries| - 1], share, from, target)
  }

  datatype Readiness = Readiness(total: nat, fromOld: nat, toTarget: nat, pending: nat, unexpected: nat, removalReady: bool)

  /** A sum beyond the safe integers is refused. */
  function SafeAdd(left: nat, right: nat): Option<nat> { if left + right > MAX_SAFE then None else Some(left + right) }

  method EvaluateReadiness(entries: seq<Entry>, from: Option<Identity>, target: Option<Identity>) returns (result: Result<Readiness>)
    ensures result.Ok? <==>
      Sum(entries, AllActive, from, target) <= 9_007_199_254_740_991 && Sum(entries, AllPending, from, target) <= 9_007_199_254_740_991
    ensures result.Err? ==> result.error == "MANAGED_KEY_DISTRIBUTION_INVALID"
    ensures result.Ok? ==> result.value == Counted(entries, from, target)
    ensures result.Ok? && AllCounted(entries) ==> (result.value.removalReady <==> ListedReady(entries, from, target))
  {
    hide Sum, ListedReady, Part, AllCounted;
    var total, left, moved, pending, unexpected := 0, 0, 0, 0, 0;
    NoSums(from, target);
    for n := 0 to |entries|
      invariant total == Sum(entries[..n], AllActive, from, target) <= MAX_SAFE
      invariant pending == Sum(entries[..n], AllPending, from, target) <= MAX_SAFE
      invariant left == Sum(entries[..n], OfOld, from, target) && moved == Sum(entries[..n], OfTarget, from, target)
      invariant unexpected == Sum(entries[..n], Unexpected, from, target)
      invariant left + moved + unexpected == total
    {
      var entry := entries[n];
      NextSums(entries, n, from, target);
      if entry.state == Pending {
        var sum := SafeAdd(pending, entry.count);
        if sum.None? { return Err("MANAGED_KEY_DISTRIBUTION_INVALID"); }
        pending := sum.value;
      }
      if entry.state != Active { continue; }
      var sum := SafeAdd(total, entry.count);
      if sum.None? { return Err("MANAGED_KEY_DISTRIBUTION_INVALID"); }
      total := sum.value;
      if Some(entry.identity) == from { left := SafeAdd(left, entry.count).value; }
      else if Some(entry.identity) == target { moved := SafeAdd(moved, entry.count).value; }
      else { unexpected := SafeAdd(unexpected, entry.count).value; }
    }
    assert entries[..|entries|] == entries;
    CountedDecides(entries, from, target);
    result := Ok(Readiness(total, left, moved, pending, unexpected, IsReady(total, left, moved, pending, unexpected, from, target)));
  }

  predicate IsReady(total: nat, left: nat, moved: nat, pending: nat, unexpected: nat, from: Option<Identity>, target: Option<Identity>) {
    && from.Some? && target.Some? && from.value.fingerprint != target.value.fingerprint
    && left == 0 && moved == total && pending == 0 && unexpected == 0
  }

  /** The five sums over a listing and the verdict they give. */
  ghost function Counted(entries: seq<Entry>, from: Option<Identity>, target: Option<Identity>): Readiness {
    var total, left, moved := Sum(entries, AllActive, from, target), Sum(entries, OfOld, from, target), Sum(entries, OfTarget, from, target);
    var pending, unexpected := Sum(entries, AllPending, from, target), Sum(entries, Unexpected, from, target);
    Readiness(total, left, moved, pending, unexpected, IsReady(total, left, moved, pending, unexpected, from, target))
  }

  /** The counters decide what the entries themselves say. */
  lemma CountedDecides(entries: seq<Entry>, from: Option<Identity>, target: Option<Identity>)
    ensures AllCounted(entries) ==> (Counted(entries, from, target).removalReady <==> ListedReady(entries, from, target))
  {
    SumsAreZero(entries, from, target);
    SharesAddUp(entries, from, target);
    hide Sum, AllCounted;
  }

  /** Every active entry is in one of three shares. */
  lemma {:induction false} SharesAddUp(entries: seq<Entry>, from: Option<Identity>, target: Option<Identity>)
    ensures Sum(entries, AllActive, from, target) ==
      Sum(entries, OfOld, from, target) + Sum(entries, OfTarget, from, target) + Sum(entries, Unexpected, from, target)
    decreases |entries|
  {
    if entries != [] { SharesAddUp(entries[..|entries| - 1], from, target); }
  }

  /** A listing has no empty groups. */
  ghost predicate AllCounted(entries: seq<Entry>) { forall k :: 0 <= k < |entries| ==> entries[k].count > 0 }

  /** What removal waits for, entry by entry. */
  ghost predicate ListedReady(entries: seq<Entry>, from: Option<Identity>, target: Option<Identity>) {
    && from.Some? && target.Some? && from.value.fingerprint != target.value.fingerprint
    && forall k :: 0 <= k < |entries| ==>
         entries[k].state != Pending && (entries[k].state == Active ==> entries[k].identity == target.value)
  }

  lemma {:induction false} LongerSums(entries: seq<Entry>, n: nat, share: Share, from: Option<Identity>, target: Option<Identity>)
    requires n <= |entries|
    ensures Sum(entries[..n], share, from, target) <= Sum(entries, share, from, target)
    decreases |entries|
  {
    if n < |entries| {
      var last := |entries| - 1;
      assert entries[..last][..n] == entries[..n];
      LongerSums(entries[..last], n, share, from, target);
    } else {
      assert entries[..n] == entries;
    }
  }

  lemma NoSums(from: Option<Identity>, target: Option<Identity>)
    ensures forall share :: Sum([], share, from, target) == 0
  {
  }

  lemma NextSum(entries: seq<Entry>, n: nat, share: Share, from: Option<Identity>, target: Option<Identity>)
    requires n < |entries|
    ensures Sum(entries[..n + 1], share, from, target) == Sum(entries[..n], share, from, target) + Part(entries[n], share, from, target)
    ensures Sum(entries[..n + 1], share, from, target) <= Sum(entries, share, from, target)
  {
    assert entries[..n + 1][..n] == entries[..n];
    LongerSums(entries, n + 1, share, from, target);
  }

  /** What the next entry adds to the five counters. */
  lemma NextSums(entries: seq<Entry>, n: nat, from: Option<Identity>, target: Option<Identity>)
    requires n < |entries|
    ensures var e, before, after := entries[n], entries[..n], entries[..n + 1];
            var active, isOld, isNew := e.state == Active, Some(e.identity) == from, Some(e.identity) == target;
            && Sum(after, AllPending, from, target) == Sum(before, AllPending, from, target) + (if e.state == Pending then e.count else 0)
            && Sum(after, AllActive, from, target) == Sum(before, AllActive, from, target) + (if active then e.count else 0)
            && Sum(after, OfOld, from, target) == Sum(before, OfOld, from, target) + (if active && isOld then e.count else 0)
            && Sum(after, OfTarget, from, target) == Sum(before, OfTarget, from, target) + (if active && !isOld && isNew then e.count else 0)
            && Sum(after, Unexpected, from, target) == Sum(before, Unexpected, from, target) + (if active && !isOld && !isNew then e.count else 0)
            && Sum(after, AllPending, from, target) <= Sum(entries, AllPending, from, target)
            && Sum(after, AllActive, from, target) <= Sum(entries, AllActive, from, target)
  {
    hide Sum;
    NextSum(entries, n, AllPending, from, target);
    NextSum(entries, n, AllActive, from, target);
    NextSum(entries, n, OfOld, from, target);
    NextSum(entries, n, OfTarget, from, target);
    NextSum(entries, n, Unexpected, from, target);
  }

  lemma {:induction false} ZeroSum(entries: seq<Entry>, share: Share, from: Option<Identity>, target: Option<Identity>)
    ensures Sum(entries, share, from, target) == 0 <==> forall k :: 0 <= k < |entries| ==> Part(entries[k], share, from, target) == 0
    decreases |entries|
  {
    hide Part;
    if entries != [] {
      ZeroSum(entries[..|entries| - 1], share, from, target);
    }
  }

  /** The counters are zero exactly when no entry is old, unexpected or pending. */
  lemma SumsAreZero(entries: seq<Entry>, from: Option<Identity>, target: Option<Identity>)
    ensures AllCounted(entries) && from.Some? && target.Some? && from.value.fingerprint != target.value.fingerprint ==>
      (Sum(entries, OfOld, from, target) == 0 && Sum(entries, AllPending, from, target) == 0 && Sum(entries, Unexpected, from, target) == 0
       <==> ListedReady(entries, from, target))
    ensures ListedReady(entries, from, target) ==> from.Some? && target.Some? && from.value.fingerprint != target.value.fingerprint
  {
    ZeroSum(entries, OfOld, from, target);
    ZeroSum(entries, AllPending, from, target);
    ZeroSum(entries, Unexpected, from, target);
    hide Sum;
  }

  /** The entries list every group of the distribution with its count. */
  ghost predicate Lists(entries: seq<Entry>, distribution: Distribution) {
    && (forall k :: 0 <= k < |entries| ==>
          Group(entries[k].identity, entries[k].state) in distribution
          && distribution[Group(entries[k].identity, entries[k].state)] == entries[k].count)
    && (forall group | group in distribution :: exists k :: 0 <= k < |entries| && Group(entries[k].identity, entries[k].state) == group)
  }

  /** The counters of any listing decide what the groups themselves say. */
  lemma ListingDecides(entries: seq<Entry>, distribution: Distribution, from: Identity, target: Identity)
    requires Lists(entries, distribution)
    ensures ListedReady(entries, Some(from), Some(target)) <==> RemovalReady(distribution, from, target)
  {
    if ListedReady(entries, Some(from), Some(target)) {
      forall group | group in distribution
        ensures group.state != Pending && (group.state == Active ==> group.identity == target)
      {
        var k :| 0 <= k < |entries| && Group(entries[k].identity, entries[k].state) == group;
      }
    }
  }

  /** The counts add up to safe integers. */
  ghost predicate Safe(entries: seq<Entry>, from: Identity, target: Identity) {
    Sum(entries, AllActive, Some(from), Some(target)) <= MAX_SAFE && Sum(entries, AllPending, Some(from), Some(target)) <= MAX_SAFE
  }

  // ------------------------------------------------- what the counters say about the rows

  /** No group is listed twice. */
  ghost predicate ListedOnce(entries: seq<Entry>) {
    forall i, j :: 0 <= i < j < |entries| ==>
      Group(entries[i].identity, entries[i].state) != Group(entries[j].identity, entries[j].state)
  }

  function IdentityOf(key: RowKey, wrapper: Wrapper): Identity { Identity(wrapper.provider, key.fingerprint) }

  /** The rows a counter is about. */
  ghost function RowsOf(rows: Rows, share: Share, from: Identity, target: Identity): set<RowKey> {
    match share
    case AllPending => set key | key in rows && rows[key].state == Pending
    case AllActive => set key | key in rows && rows[key].state == Active
    case OfOld => set key | key in rows && rows[key].state == Active && IdentityOf(key, rows[key]) == from
    case OfTarget => set key | key in rows && rows[key].state == Active && IdentityOf(key, rows[key]) == target && target != from
    case Unexpected => set key | key in rows && rows[key].state == Active && IdentityOf(key, rows[key]) != from && IdentityOf(key, rows[key]) != target
  }

  /** Those of them in the groups listed first. */
  ghost function RowsListed(rows: Rows, share: Share, from: Identity, target: Identity, entries: seq<Entry>): set<RowKey> {
    set key | key in RowsOf(rows, share, from, target) && exists k :: 0 <= k < |entries| && Group(entries[k].identity, entries[k].state) == GroupOf(key, rows[key])
  }

  lemma {:induction false} SumCountsListed(data: Data, entries: seq<Entry>, share: Share, from: Identity, target: Identity)
    requires Exact(data) && ListedOnce(entries)
    requires forall k :: 0 <= k < |entries| ==> CountIn(data.distribution, Group(entries[k].identity, entries[k].state)) == entries[k].count
    ensures Sum(entries, share, Some(from), Some(target)) == |RowsListed(data.rows, share, from, target, entries)|
    decreases |entries|
  {
    if entries == [] {
      assert RowsListed(data.rows, share, from, target, entries) == {};
    } else {
      var last := |entries| - 1;
      var earlier, entry := entries[..last], entries[last];
      SumCountsListed(data, earlier, share, from, target);
      OneMoreListed(data.rows, share, from, target, earlier, entry);
      var group := Group(entry.identity, entry.state);
      assert entries == earlier + [entry];
      assert CountIn(data.distribution, group) == |Members(data.rows, group)|;
      hide Exact, RowsListed, Members, RowsOf;
    }
  }

  /** An entry adds its group's rows if the counter is about them, and else none. */
  lemma OneMoreListed(rows: Rows, share: Share, from: Identity, target: Identity, earlier: seq<Entry>, entry: Entry)
    requires forall k :: 0 <= k < |earlier| ==>
      Group(earlier[k].identity, earlier[k].state) != Group(entry.identity, entry.state)
    requires entry.count == |Members(rows, Group(entry.identity, entry.state))|
    ensures |RowsListed(rows, share, from, target, earlier + [entry])| ==
      |RowsListed(rows, share, from, target, earlier)| + Part(entry, share, Some(from), Some(target))
  {
    var group := Group(entry.identity, entry.state);
    var before, own := RowsListed(rows, share, from, target, earlier), OfGroup(rows, share, from, target, group);
    ListedSplits(rows, share, from, target, earlier, entry);
    OwnIsGroup(rows, share, from, target, entry);
    NotListedBefore(rows, share, from, target, earlier, entry);
    hide RowsListed, OfGroup, Members, RowsOf;
    assert |before + own| == |before| + |own|;
  }

  /** The counter's rows in one group. */
  ghost function OfGroup(rows: Rows, share: Share, from: Identity, target: Identity, group: Group): set<RowKey> {
    set key | key in RowsOf(rows, share, from, target) && GroupOf(key, rows[key]) == group
  }

  lemma OwnIsGroup(rows: Rows, share: Share, from: Identity, target: Identity, entry: Entry)
    requires entry.count == |Members(rows, Group(entry.identity, entry.state))|
    ensures |OfGroup(rows, share, from, target, Group(entry.identity, entry.state))| == Part(entry, share, Some(from), Some(target))
  {
    var group := Group(entry.identity, entry.state);
    var own := OfGroup(rows, share, from, target, group);
    assert own == Members(rows, group) || own == {};
    if Members(rows, group) != {} {
      var key :| key in Members(rows, group);
      assert Part(entry, share, Some(from), Some(target)) > 0 <==> key in own;
    }
  }

  lemma NotListedBefore(rows: Rows, share: Share, from: Identity, target: Identity, earlier: seq<Entry>, entry: Entry)
    requires forall k :: 0 <= k < |earlier| ==>
      Group(earlier[k].identity, earlier[k].state) != Group(entry.identity, entry.state)
    ensures RowsListed(rows, share, from, target, earlier) !! OfGroup(rows, share, from, target, Group(entry.identity, entry.state))
  {
    hide RowsOf, GroupOf;
  }

  lemma ListedSplits(rows: Rows, share: Share, from: Identity, target: Identity, earlier: seq<Entry>, entry: Entry)
    ensures RowsListed(rows, share, from, target, earlier + [entry]) ==
      RowsListed(rows, share, from, target, earlier) + OfGroup(rows, share, from, target, Group(entry.identity, entry.state))
  {
    assert forall key :: key in RowsOf(rows, share, from, target) ==> key in rows;
    hide RowsOf, GroupOf;
    var all, group := earlier + [entry], Group(entry.identity, entry.state);
    forall key | key in RowsOf(rows, share, from, target) && key in rows
      ensures (exists k :: 0 <= k < |all| && Group(all[k].identity, all[k].state) == GroupOf(key, rows[key])) <==>
        (exists k :: 0 <= k < |earlier| && Group(earlier[k].identity, earlier[k].state) == GroupOf(key, rows[key])) || GroupOf(key, rows[key]) == group
    {
      if k :| 0 <= k < |earlier| && Group(earlier[k].identity, earlier[k].state) == GroupOf(key, rows[key]) {
        assert all[k] == earlier[k];
      }
      if GroupOf(key, rows[key]) == group { assert all[|earlier|] == entry; }
    }
  }

  /** Over a listing of the distribution the counters are the numbers of rows they are about. */
  lemma CountersCountRows(data: Data, entries: seq<Entry>, from: Identity, target: Identity)
    requires Exact(data) && Lists(entries, data.distribution) && ListedOnce(entries)
    ensures var (counted, rows) := (Counted(entries, Some(from), Some(target)), data.rows);
            && counted.total == |RowsOf(rows, AllActive, from, target)| && counted.pending == |RowsOf(rows, AllPending, from, target)|
            && counted.fromOld == |RowsOf(rows, OfOld, from, target)| && counted.toTarget == |RowsOf(rows, OfTarget, from, target)|
            && counted.unexpected == |RowsOf(rows, Unexpected, from, target)|
    ensures forall share :: Sum(entries, share, Some(from), Some(target)) == |RowsOf(data.rows, share, from, target)|
  {
    forall share ensures Sum(entries, share, Some(from), Some(target)) == |RowsOf(data.rows, share, from, target)| {
      AllListedRows(data, entries, share, from, target);
      hide Exact, Lists, RowsOf, Sum;
      SumCountsListed(data, entries, share, from, target);
    }
    hide Sum, RowsOf, Exact, Lists;
  }

  lemma AllListedRows(data: Data, entries: seq<Entry>, share: Share, from: Identity, target: Identity)
    requires Exact(data) && Lists(entries, data.distribution)
    ensures RowsListed(data.rows, share, from, target, entries) == RowsOf(data.rows, share, from, target)
    ensures forall k :: 0 <= k < |entries| ==> CountIn(data.distribution, Group(entries[k].identity, entries[k].state)) == entries[k].count
  {
    forall key | key in data.rows
      ensures exists k :: 0 <= k < |entries| && Group(entries[k].identity, entries[k].state) == GroupOf(key, data.rows[key])
    {
      GroupIsListed(data, key);
    }
    hide Exact, GroupOf;
  }

  lemma GroupIsListed(data: Data, key: RowKey)
    requires Exact(data) && key in data.rows
    ensures GroupOf(key, data.rows[key]) in data.distribution
  {
    var group := GroupOf(key, data.rows[key]);
    assert key in Members(data.rows, group);
    assert CountIn(data.distribution, group) == |Members(data.rows, group)|;
  }

  /** No row is pending, and every active row is the target's. */
  ghost predicate RowsReady(rows: Rows, from: Identity, target: Identity) {
    && from.fingerprint != target.fingerprint
    && forall key | key in rows :: rows[key].state != Pending && (rows[key].state == Active ==> IdentityOf(key, rows[key]) == target)
  }

  /** The distribution is ready for removal exactly when the rows are. */
  lemma ReadyIffRowsReady(data: Data, from: Identity, target: Identity)
    requires Exact(data)
    ensures RemovalReady(data.distribution, from, target) <==> RowsReady(data.rows, from, target)
  {
    forall key | key in data.rows ensures GroupOf(key, data.rows[key]) in data.distribution {
      GroupIsListed(data, key);
    }
    forall group | group in data.distribution ensures exists key :: key in data.rows && GroupOf(key, data.rows[key]) == group {
      assert CountIn(data.distribution, group) == |Members(data.rows, group)|;
      var key :| key in Members(data.rows, group);
    }
    hide Exact;
  }

  // ------------------------------------------------------------------ the key store

  class KeyStore {
    var rows: Rows
    var distribution: Distribution
    var events: seq<Event>

    ghost function View(): Data reads this { Data(rows, distribution, events) }

    constructor ()
      ensures View() == Data(map[], map[], [])
    {
      rows, distribution, events := map[], map[], [];
    }

    /** A write and the trigger's count. */
    method Write(key: RowKey, wrapper: Wrapper)
      modifies this`rows, this`distribution
      ensures View() == Put(old(View()), key, wrapper)
    {
      hide GroupOf;
      var group := GroupOf(key, wrapper);
      if key in rows && GroupOf(key, rows[key]) == group {
        rows := rows[key := wrapper];
        return;
      }
      if key in rows { distribution := Decreased(distribution, GroupOf(key, rows[key])); }
      distribution := Increased(distribution, group);
      rows := rows[key := wrapper];
    }

    /** The latest start, looked for from the end of the log. */
    method LatestMigrationTarget() returns (target: Option<Identity>)
      ensures target == Fence(events)
    {
      var n := |events|;
      assert events[..n] == events;
      while n > 0
        invariant 0 <= n <= |events| && Fence(events) == Fence(events[..n])
      {
        assert events[..n][..n - 1] == events[..n - 1];
        if events[n - 1].Started? { return Some(events[n - 1].target); }
        n := n - 1;
      }
      return None;
    }

    /** The user's active key, made if there is none; an error if the place is taken by a row that is not active. */
    method LoadOrCreateActive(userId: string, own: Identity, sealed: nat) returns (result: Result<RowKey>)
      modifies this
      ensures View() == CreateKey(old(View()), userId, own, sealed)
      ensures result.Ok? <==> HasActive(rows, userId)
      ensures result.Ok? ==> IsActiveRow(rows, result.value, userId)
      ensures result.Err? ==> result.error == "MANAGED_USER_KEY_CREATE_RACE_LOST" && View() == old(View())
    {
      var fence := LatestMigrationTarget();
      if key :| key in rows && IsActiveRow(rows, key, userId) { return Ok(key); }
      var identity := if fence.Some? then fence.value else own;
      var key := RowKey(userId, 1, identity.fingerprint);
      if key in rows { return Err("MANAGED_USER_KEY_CREATE_RACE_LOST"); }
      hide Fence, GroupOf, Increased, Decreased;
      Write(key, Wrapper(identity.provider, sealed, Active));
      events := events + [Created(userId)];
      assert IsActiveRow(rows, key, userId);
      return Ok(key);
    }

    method RecordMigrationStarted(target: Identity)
      modifies this`events
      ensures View() == StartMigration(old(View()), target)
    {
      events := events + [Started(target)];
    }

    /** Swaps the wrapper read before for the target's, if it is still the active one. */
    method PromotePendingWrapper(row: RowKey, snapshot: Wrapper, target: Identity, sealed: nat) returns (promoted: bool)
      modifies this
      ensures promoted == CanRewrap(old(rows), row, snapshot, target)
      ensures View() == Rewrap(old(View()), row, snapshot, target, sealed)
    {
      if !CanRewrap(rows, row, snapshot, target) { return false; }
      hide Put, CanRewrap;
      var key := RowKey(row.userId, row.keyVersion, target.fingerprint);
      Write(key, Wrapper(target.provider, sealed, Pending));
      Write(row, snapshot.(state := Retiring));
      Write(key, Wrapper(target.provider, sealed, Active));
      events := events + [Rewrapped(row.userId)];
      return true;
    }

    /** Reads the distribution anew under the lock, in any listing, and records completion if nothing is left. */
    method CompleteProviderMigration(entries: seq<Entry>, from: Identity, target: Identity) returns (completed: bool)
      requires Lists(entries, distribution) && Exact(View())
      modifies this`events
      ensures View() == if completed then CompleteMigration(old(View()), from, target) else old(View())
      ensures completed <==> RemovalReady(distribution, from, target) && Safe(entries, from, target)
      ensures ListedOnce(entries) ==>
        (completed <==> RowsReady(rows, from, target) && |RowsOf(rows, AllActive, from, target)| <= 9_007_199_254_740_991)
    {
      ReadyIffRowsReady(View(), from, target);
      if ListedOnce(entries) { CountersCountRows(View(), entries, from, target); }
      if RowsReady(rows, from, target) { assert RowsOf(rows, AllPending, from, target) == {}; }
      var readiness := EvaluateReadiness(entries, Some(from), Some(target));
      ListingDecides(entries, distribution, from, target);
      forall k | 0 <= k < |entries| ensures entries[k].count > 0 {
        assert CountIn(distribution, Group(entries[k].identity, entries[k].state)) == entries[k].count;
      }
      hide Sum, ListedReady, RemovalReady, Exact, Lists, RowsReady, RowsOf, ListedOnce;
      if readiness.Err? || !readiness.value.removalReady { return false; }
      events := events + [Completed(target)];
      return true;
    }

    /**
     * One user's wrapper goes to the target, unless it is there already, there is none, or another wrapper of the
     * user is pending. No other user's rows change.
     */
    method RewrapUser(userId: string, target: Identity, sealed: nat) returns (outcome: Outcome)
      requires OneActive(rows)
      modifies this
      ensures OneActive(rows)
      ensures outcome == AlreadyCurrent <==> IsCurrent(old(rows), userId, target)
      ensures outcome == Migrated <==> IsMovable(old(rows), userId, target)
      ensures outcome == Migrated ==> events == old(events) + [Rewrapped(userId)] && IsMove(old(rows), rows, userId, target, sealed)
      ensures outcome != Failed ==> IsCurrent(rows, userId, target)
      ensures Exact(old(View())) ==> Exact(View())
      ensures OthersSame(old(rows), rows, [userId])
      ensures outcome != Migrated ==> View() == old(View())
    {
      if key :| key in rows && IsActiveRow(rows, key, userId) {
        if key.fingerprint == target.fingerprint { return AlreadyCurrent; }
        var snapshot := rows[key];
        StepKeepsOneActive(View(), RewrapTx(key, snapshot, target, sealed));
        if Exact(View()) { StepKeepsExact(View(), RewrapTx(key, snapshot, target, sealed)); }
        if CanRewrap(rows, key, snapshot, target) { RewrapRows(View(), key, snapshot, target, sealed); }
        OnlyActiveDecides(rows, key, target);
        hide Put, OneActive, PendingFree, Exact;
        var promoted := PromotePendingWrapper(key, snapshot, target, sealed);
        outcome := if promoted then Migrated else Failed;
        if promoted {
          OnlyTargetIsActive(old(rows), key, snapshot, target, sealed);
        }
      } else {
        outcome := Failed;
      }
    }

    /**
     * The rewrap of every listed user. It moves exactly the users who could be moved before the first rewrap, and
     * the failures are the entries of the list whose user could neither be moved nor was at the target.
     */
    method RewrapUsers(users: seq<string>, from: Identity, target: Identity, seal: string -> nat) returns (migrated: nat, failures: nat)
      requires OneActive(rows) && from.fingerprint != target.fingerprint
      modifies this
      ensures OneActive(rows)
      ensures migrated == |Movable(old(rows), users, target)| && failures == |Stuck(old(rows), users, target)|
      ensures forall user | user in users && IsMovable(old(rows), user, target) :: IsCurrent(rows, user, target)
      ensures OthersSame(old(rows), rows, users)
      ensures AllListed(old(rows), users, from) && failures == 0 ==> ActiveCount(rows, from) == 0
    {
      migrated, failures := 0, 0;
      assert users[..0] == [];
      ghost var before := rows;
      NobodyYet(rows, target);
      hide *;
      for n := 0 to |users|
        invariant OneActive(rows) && Standings(before, rows, users[..n], target)
        invariant migrated == |Movable(before, users[..n], target)| && failures == |Stuck(before, users[..n], target)|
        invariant OthersSame(before, rows, users)
      {
        ghost var between := rows;
        var outcome := RewrapUser(users[n], target, seal(users[n]));
        NextUser(before, between, rows, users, n, target);
        if outcome == Migrated { migrated := migrated + 1; }
        if outcome == Failed { failures := failures + 1; }
      }
      assert users[..|users|] == users;
      NoneStuckNoneLeft(before, rows, users, from, target);
      AllCurrent(before, rows, users, target);
    }
  }

  lemma NobodyYet(rows: Rows, target: Identity)
    ensures Standings(rows, rows, [], target) && Movable(rows, [], target) == {} && Stuck(rows, [], target) == {}
  {
  }

  lemma AllCurrent(before: Rows, after: Rows, users: seq<string>, target: Identity)
    requires Standings(before, after, users, target)
    ensures forall user | user in users && IsMovable(before, user, target) :: IsCurrent(after, user, target)
  {
    hide IsMovable, IsCurrent;
  }

  predicate SameRow(before: Rows, after: Rows, key: RowKey) {
    (key in after <==> key in before) && (key in after ==> after[key] == before[key])
  }

  /** Only the users' rows have changed. */
  ghost predicate OthersSame(before: Rows, after: Rows, users: seq<string>) {
    forall key: RowKey | key.userId !in users :: SameRow(before, after, key)
  }

  datatype Outcome = AlreadyCurrent | Migrated | Failed

  /** The user's active wrapper is the target's. */
  ghost predicate IsCurrent(rows: Rows, userId: string, target: Identity) {
    exists key :: IsActiveRow(rows, key, userId) && key.fingerprint == target.fingerprint
  }

  /** The user's active wrapper is elsewhere, and no wrapper of the user is pending except in the place it would go to. */
  ghost predicate IsMovable(rows: Rows, userId: string, target: Identity) {
    exists key ::
      && IsActiveRow(rows, key, userId) && key.fingerprint != target.fingerprint
      && forall other | other in rows && other.userId == userId && rows[other].state == Pending ::
           other == RowKey(userId, key.keyVersion, target.fingerprint)
  }

  /** Every user with an active wrapper under the provider is listed. */
  ghost predicate AllListed(rows: Rows, users: seq<string>, from: Identity) {
    forall key | key in rows && GroupOf(key, rows[key]) == Group(from, Active) :: key.userId in users
  }

  /** The user's active wrapper retired in favour of a new one under the target, of the same key version. */
  ghost predicate IsMove(before: Rows, after: Rows, userId: string, target: Identity, sealed: nat) {
    exists key ::
      && IsActiveRow(before, key, userId)
      && after == before[RowKey(userId, key.keyVersion, target.fingerprint) := Wrapper(target.provider, sealed, Active)]
                        [key := before[key].(state := Retiring)]
  }

  ghost function Movable(rows: Rows, users: seq<string>, target: Identity): set<string> {
    set user | user in users && IsMovable(rows, user, target)
  }

  ghost function Stuck(rows: Rows, users: seq<string>, target: Identity): set<int> {
    set n | 0 <= n < |users| && !IsMovable(rows, users[n], target) && !IsCurrent(rows, users[n], target)
  }

  /** Of the users dealt with, those at the target and those who could be moved are there; the others are as they were. */
  ghost predicate Standings(before: Rows, after: Rows, users: seq<string>, target: Identity) {
    forall user: string ::
      && (IsCurrent(after, user, target) <==> IsCurrent(before, user, target) || (user in users && IsMovable(before, user, target)))
      && (IsMovable(after, user, target) <==> IsMovable(before, user, target) && user !in users)
  }

  /** The one active wrapper of a user decides both. */
  lemma OnlyActiveDecides(rows: Rows, key: RowKey, target: Identity)
    requires OneActive(rows) && IsActiveRow(rows, key, key.userId)
    ensures IsCurrent(rows, key.userId, target) <==> key.fingerprint == target.fingerprint
    ensures IsMovable(rows, key.userId, target) <==> CanRewrap(rows, key, rows[key], target)
  {
    forall other | IsActiveRow(rows, other, key.userId) ensures other == key {}
  }

  lemma OnlyTargetIsActive(rows: Rows, row: RowKey, snapshot: Wrapper, target: Identity, sealed: nat)
    requires CanRewrap(rows, row, snapshot, target) && OneActive(rows)
    ensures var after := rows[RowKey(row.userId, row.keyVersion, target.fingerprint) := Wrapper(target.provider, sealed, Active)][row := snapshot.(state := Retiring)];
            && IsCurrent(after, row.userId, target)
            && OthersSame(rows, after, [row.userId])
  {
    hide PendingFree;
    var key := RowKey(row.userId, row.keyVersion, target.fingerprint);
    assert IsActiveRow(rows[key := Wrapper(target.provider, sealed, Active)][row := snapshot.(state := Retiring)], key, row.userId);
  }

  lemma SameStanding(before: Rows, after: Rows, user: string, target: Identity)
    requires forall key: RowKey | key.userId == user :: SameRow(before, after, key)
    ensures IsCurrent(after, user, target) <==> IsCurrent(before, user, target)
    ensures IsMovable(after, user, target) <==> IsMovable(before, user, target)
  {
    forall key: RowKey ensures IsActiveRow(after, key, user) <==> IsActiveRow(before, key, user) {
      assert key.userId == user ==> SameRow(before, after, key);
    }
    forall other: RowKey | other.userId == user
      ensures (other in after && after[other].state == Pending) <==> (other in before && before[other].state == Pending)
    {
      assert SameRow(before, after, other);
    }
  }

  lemma CurrentIsNotMovable(rows: Rows, user: string, target: Identity)
    requires OneActive(rows) && IsCurrent(rows, user, target)
    ensures !IsMovable(rows, user, target)
  {
  }

  lemma NextStanding(before: Rows, between: Rows, after: Rows, users: seq<string>, user: string, target: Identity)
    requires OneActive(after) && Standings(before, between, users, target)
    requires OthersSame(between, after, [user])
    requires IsMovable(between, user, target) || IsCurrent(between, user, target) ==> IsCurrent(after, user, target)
    requires !IsMovable(between, user, target) ==> between == after
    ensures Standings(before, after, users + [user], target)
    ensures IsMovable(between, user, target) <==> IsMovable(before, user, target) && user !in users
    ensures !IsMovable(between, user, target) && !IsCurrent(between, user, target) <==>
      !IsMovable(before, user, target) && !IsCurrent(before, user, target)
  {
    if IsCurrent(after, user, target) { CurrentIsNotMovable(after, user, target); }
    hide IsMovable, IsCurrent, OneActive;
    forall other: string
      ensures IsCurrent(after, other, target) <==> IsCurrent(before, other, target) || (other in users + [user] && IsMovable(before, other, target))
      ensures IsMovable(after, other, target) <==> IsMovable(before, other, target) && other !in users + [user]
    {
      if other != user { SameStanding(between, after, other, target); }
    }
  }

  lemma MovableNext(rows: Rows, users: seq<string>, user: string, target: Identity)
    ensures |Movable(rows, users + [user], target)| ==
      |Movable(rows, users, target)| + if IsMovable(rows, user, target) && user !in users then 1 else 0
  {
    hide IsMovable;
    var before, after := Movable(rows, users, target), Movable(rows, users + [user], target);
    if IsMovable(rows, user, target) { assert after == before + {user}; } else { assert after == before; }
  }

  lemma StuckNext(rows: Rows, users: seq<string>, user: string, target: Identity)
    ensures |Stuck(rows, users + [user], target)| ==
      |Stuck(rows, users, target)| + if !IsMovable(rows, user, target) && !IsCurrent(rows, user, target) then 1 else 0
  {
    var all, before, after := users + [user], Stuck(rows, users, target), Stuck(rows, users + [user], target);
    var more: set<int> := if !IsMovable(rows, user, target) && !IsCurrent(rows, user, target) then {|users|} else {};
    hide IsMovable, IsCurrent;
    forall n ensures n in after <==> n in before || n in more {
      if 0 <= n < |users| { assert all[n] == users[n]; }
    }
    assert after == before + more && |users| !in before;
  }

  lemma NextUser(before: Rows, between: Rows, after: Rows, users: seq<string>, n: nat, target: Identity)
    requires n < |users| && OneActive(after) && Standings(before, between, users[..n], target)
    requires OthersSame(before, between, users) && OthersSame(between, after, [users[n]])
    requires IsMovable(between, users[n], target) || IsCurrent(between, users[n], target) ==> IsCurrent(after, users[n], target)
    requires !IsMovable(between, users[n], target) ==> between == after
    ensures Standings(before, after, users[..n + 1], target) && OthersSame(before, after, users)
    ensures |Movable(before, users[..n + 1], target)| ==
      |Movable(before, users[..n], target)| + if IsMovable(between, users[n], target) then 1 else 0
    ensures |Stuck(before, users[..n + 1], target)| ==
      |Stuck(before, users[..n], target)| + if !IsMovable(between, users[n], target) && !IsCurrent(between, users[n], target) then 1 else 0
  {
    hide OneActive, Standings, Movable, Stuck, IsMovable, IsCurrent;
    assert users[..n + 1] == users[..n] + [users[n]];
    forall key: RowKey | key.userId !in users ensures SameRow(before, after, key) {
      assert SameRow(before, between, key) && SameRow(between, after, key);
    }
    hide SameRow;
    NextStanding(before, between, after, users[..n], users[n], target);
    MovableNext(before, users[..n], users[n], target);
    StuckNext(before, users[..n], users[n], target);
  }

  lemma NoneStuckNoneLeft(before: Rows, rows: Rows, users: seq<string>, from: Identity, target: Identity)
    requires OneActive(rows) && Standings(before, rows, users, target) && from.fingerprint != target.fingerprint
    requires OthersSame(before, rows, users)
    ensures AllListed(before, users, from) && |Stuck(before, users, target)| == 0 ==> ActiveCount(rows, from) == 0
  {
    if AllListed(before, users, from) && |Stuck(before, users, target)| == 0 {
      forall key | key in rows ensures GroupOf(key, rows[key]) != Group(from, Active) {
        assert key.userId in users || SameRow(before, rows, key);
        if key.userId in users && IsActiveRow(rows, key, key.userId) {
          var n :| 0 <= n < |users| && users[n] == key.userId;
          assert n !in Stuck(before, users, target);
          OnlyActiveDecides(rows, key, target);
        }
      }
      assert Members(rows, Group(from, Active)) == {};
    }
  }
}
