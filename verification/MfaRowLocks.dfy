/**
 * One user's passkeys and protection settings under row locks: registrations, policy changes and deletions of
 * any number of clients, statement by statement, each seeing what is committed when it runs
 * (apps/web/lib/mfa-store.ts under READ COMMITTED; defaults of migrations/1700000048).
 */
module MfaRowLocks {
  import opened Prelude

  datatype Settings = Settings(login: bool, history: bool, policyVersion: nat)

  const DEFAULT: Settings := Settings(false, false, 1)

  predicate Required(settings: Option<Settings>) { settings.Some? && (settings.value.login || settings.value.history) }

  /** Where a client's transaction stands: named after the statement it has run last. */
  datatype Client =
    | Idle
    | PasskeyInserted(id: string)
    | RegistrationStored(id: string)
    | SettingsEnsured(login: bool, history: bool)
    | SettingsLocked(login: bool, history: bool)
    | PasskeysCounted(login: bool, history: bool)
    | PolicyStored(login: bool, history: bool)
    /** `protected`: the settings row was found and demands a passkey. */
    | DeletionBegun(id: string, protected: bool)
    | DeletionAllowed(id: string)
    | PasskeyRemoved(id: string)
    | DeletionStored(id: string, bumps: bool)

  /**
   * What is committed, who holds the settings row (its lock, or the row itself when not yet committed), and the
   * clients.
   */
  datatype State = State(passkeys: set<string>, settings: Option<Settings>, holder: Option<nat>, clients: map<nat, Client>)

  function ClientOf(state: State, client: nat): Client { if client in state.clients then state.clients[client] else Idle }

  predicate CanHold(state: State, client: nat) { state.holder.None? || state.holder == Some(client) }

  function Moved(state: State, client: nat, to: Client): State { state.(clients := state.clients[client := to]) }

  function Held(state: State, client: nat): State { state.(holder := Some(client)) }

  function Ended(state: State, client: nat): State {
    state.(holder := if state.holder == Some(client) then None else state.holder, clients := state.clients[client := Idle])
  }

  /** Another transaction has deleted the passkey row and not ended. */
  predicate IsBeingRemoved(state: State, client: nat, id: string) {
    exists c :: c in state.clients && c != client
      && (state.clients[c] == PasskeyRemoved(id) || state.clients[c] == DeletionStored(id, true) || state.clients[c] == DeletionStored(id, false))
  }

  function Bumped(settings: Option<Settings>): Settings {
    if settings.None? then DEFAULT else settings.value.(policyVersion := settings.value.policyVersion + 1)
  }

  /** The row a policy change leaves: it is made first if it is missing. */
  function WithPolicy(settings: Option<Settings>, login: bool, history: bool): Settings {
    var row := if settings.None? then DEFAULT else settings.value;
    Settings(login, history, row.policyVersion + 1)
  }

  datatype Event =
    | BeginRegistration(client: nat, id: string)
    | BeginPolicy(client: nat, login: bool, history: bool)
    | BeginDeletion(client: nat, id: string)
    | Next(client: nat)
    | Abort(client: nat)

  /** The client's next statement; a client that must wait changes nothing. */
  function NextStatement(state: State, client: nat): State {
    match ClientOf(state, client)
    case Idle => state
    case PasskeyInserted(id) =>
      if CanHold(state, client) then Moved(Held(state, client), client, RegistrationStored(id)) else state
    case RegistrationStored(id) =>
      Ended(state.(passkeys := state.passkeys + {id}, settings := Some(Bumped(state.settings))), client)
    case SettingsEnsured(login, history) =>
      if CanHold(state, client) then Moved(Held(state, client), client, SettingsLocked(login, history)) else state
    case SettingsLocked(login, history) =>
      if (login || history) && state.passkeys == {} then Ended(state, client)
      else Moved(state, client, PasskeysCounted(login, history))
    case PasskeysCounted(login, history) => Moved(state, client, PolicyStored(login, history))
    case PolicyStored(login, history) =>
      Ended(state.(settings := Some(WithPolicy(state.settings, login, history))), client)
    case DeletionBegun(id, protected) =>
      if |state.passkeys| <= 1 && protected then Ended(state, client) else Moved(state, client, DeletionAllowed(id))
    case DeletionAllowed(id) =>
      if IsBeingRemoved(state, client, id) then state
      else if id !in state.passkeys then Ended(state, client)
      else Moved(state, client, PasskeyRemoved(id))
    case PasskeyRemoved(id) =>
      if state.settings.None? then Moved(state, client, DeletionStored(id, false))
      else if CanHold(state, client) then Moved(Held(state, client), client, DeletionStored(id, true))
      else state
    case DeletionStored(id, bumps) =>
      Ended(state.(passkeys := state.passkeys - {id}, settings := if bumps then Some(Bumped(state.settings)) else state.settings), client)
  }

  function Step(state: State, event: Event): State {
    match event
    case BeginRegistration(client, id) =>
      if ClientOf(state, client) != Idle || id in state.passkeys then state else Moved(state, client, PasskeyInserted(id))
    case BeginPolicy(client, login, history) =>
      if ClientOf(state, client) != Idle then state
      else if state.settings.Some? then Moved(state, client, SettingsEnsured(login, history))
      else if CanHold(state, client) then Moved(Held(state, client), client, SettingsEnsured(login, history))
      else state
    case BeginDeletion(client, id) =>
      if ClientOf(state, client) != Idle then state
      else if state.settings.None? then Moved(state, client, DeletionBegun(id, false))
      else if CanHold(state, client) then Moved(Held(state, client), client, DeletionBegun(id, Required(state.settings)))
      else state
    case Next(client) => NextStatement(state, client)
    case Abort(client) => Ended(state, client)
  }

  function Run(state: State, events: seq<Event>): State
    decreases |events|
  {
    if events == [] then state else Step(Run(state, events[..|events| - 1]), events[|events| - 1])
  }

  const NEW_USER: State := State({}, None, None, map[])

  // ------------------------------------------------ what holds in every interleaving

  /** A client past taking the settings row has it; one with a passkey to delete knows the row is there. */
  ghost predicate Reliable(state: State, client: nat) {
    match ClientOf(state, client)
    case RegistrationStored(_) => state.holder == Some(client)
    case SettingsEnsured(_, _) => state.settings.Some? || state.holder == Some(client)
    case SettingsLocked(_, _) => state.holder == Some(client)
    case PasskeysCounted(_, _) => state.holder == Some(client)
    case PolicyStored(_, _) => state.holder == Some(client)
    case PasskeyRemoved(id) => state.settings.Some?
    case DeletionStored(id, bumps) => bumps && state.settings.Some? && state.holder == Some(client)
    case _ => true
  }

  /** A passkey never stands without a settings row, and who holds the row has not ended. */
  ghost predicate Valid(state: State) {
    && (state.passkeys != {} ==> state.settings.Some?)
    && (state.holder.Some? ==> ClientOf(state, state.holder.value) != Idle)
    && forall client: nat :: Reliable(state, client)
  }

  lemma StepKeepsOthers(state: State, event: Event, client: nat)
    requires Valid(state) && client != event.client
    ensures Reliable(Step(state, event), client)
  {
    assert Reliable(state, client) && Reliable(state, event.client);
    hide IsBeingRemoved, Bumped, WithPolicy;
  }

  lemma StepKeepsValid(state: State, event: Event)
    requires Valid(state)
    ensures Valid(Step(state, event))
  {
    forall client: nat ensures Reliable(Step(state, event), client) {
      if client == event.client {
        assert Reliable(state, client);
        hide IsBeingRemoved, Bumped, WithPolicy;
      } else {
        hide Step, Reliable;
        StepKeepsOthers(state, event, client);
      }
    }
    assert Reliable(state, event.client);
    hide IsBeingRemoved, Bumped, WithPolicy, Reliable;
  }

  /** Every step that changes passkeys or settings raises the version by one; a row begins with the first, and a policy is the second. */
  lemma CommitRaisesVersion(state: State, event: Event)
    requires Valid(state)
    ensures var (after, at) := (Step(state, event), ClientOf(state, event.client));
            && (state.settings.Some? ==> after.settings.Some?)
            && (state.settings.Some? ==>
                  after.settings.value.policyVersion ==
                    state.settings.value.policyVersion + if after.passkeys != state.passkeys || after.settings != state.settings then 1 else 0)
            && (state.settings.None? && after.passkeys != state.passkeys ==> after.settings.Some?)
            && (state.settings.None? && after.settings.Some? ==>
                  event.Next? && after.settings.value.policyVersion == if at.PolicyStored? then 2 else 1)
  {
    assert Reliable(state, event.client);
    hide IsBeingRemoved;
  }

  lemma NewUserIsValid()
    ensures Valid(NEW_USER)
  {
  }

  /** In every interleaving a passkey implies a settings row. */
  lemma {:induction false} RunIsValid(events: seq<Event>)
    ensures Valid(Run(NEW_USER, events))
    decreases |events|
  {
    if events == [] {
      NewUserIsValid();
    } else {
      RunIsValid(events[..|events| - 1]);
      hide Step, Valid;
      StepKeepsValid(Run(NEW_USER, events[..|events| - 1]), events[|events| - 1]);
    }
  }

  // ------------------------------------------------------------- one client at a time

  /** Nobody else has the settings row or is removing a passkey. */
  predicate IsAlone(state: State, client: nat) {
    && state.holder.None? && ClientOf(state, client) == Idle
    && forall c | c in state.clients :: !state.clients[c].PasskeyRemoved? && !state.clients[c].DeletionStored?
  }

  lemma RunFive(state: State, a: Event, b: Event, c: Event, d: Event, e: Event)
    ensures Run(state, [a, b, c, d, e]) == Step(Step(Step(Step(Step(state, a), b), c), d), e)
  {
    hide Step;
    assert [a, b, c, d, e][..4] == [a, b, c, d];
    RunFour(state, a, b, c, d);
  }

  /** Alone, a registration stores its passkey; the row it makes demands nothing. */
  lemma RegistrationAlone(state: State, client: nat, id: string)
    requires IsAlone(state, client)
    ensures Run(state, [BeginRegistration(client, id), Next(client), Next(client)]) ==
      if id in state.passkeys then state
      else State(state.passkeys + {id},
                 Some(if state.settings.None? then Settings(false, false, 1)
                      else Settings(state.settings.value.login, state.settings.value.history, state.settings.value.policyVersion + 1)),
                 None, state.clients[client := Idle])
  {
    RunThree(state, BeginRegistration(client, id), Next(client), Next(client));
    hide Run, IsBeingRemoved;
    if id !in state.passkeys {
      var begun := Moved(state, client, PasskeyInserted(id));
      var stored := Moved(Held(begun, client), client, RegistrationStored(id));
      assert Step(state, BeginRegistration(client, id)) == begun && Step(begun, Next(client)) == stored;
      assert stored.clients[client := Idle] == state.clients[client := Idle];
    }
  }

  /** Alone, a policy is stored exactly if there is a passkey or it demands none. */
  lemma PolicyAlone(state: State, client: nat, login: bool, history: bool)
    requires IsAlone(state, client)
    ensures var n := Next(client);
            Run(state, [BeginPolicy(client, login, history), n, n, n, n]) ==
              State(state.passkeys,
                    if (login || history) && state.passkeys == {} then state.settings
                    else Some(Settings(login, history, if state.settings.None? then 2 else state.settings.value.policyVersion + 1)),
                    None, state.clients[client := Idle])
  {
    var n := Next(client);
    RunFive(state, BeginPolicy(client, login, history), n, n, n, n);
    PolicyBegins(state, client, login, history);
    var locked := Placed(state, client, SettingsLocked(login, history));
    assert state.holder.None? && ClientOf(locked, client) == SettingsLocked(login, history);
    hide Run, IsBeingRemoved, IsAlone, Step, Ended, Placed;
    if (login || history) && state.passkeys == {} {
      EndsAlone(state, client, locked, SettingsLocked(login, history));
      LockedRefuses(locked, client, login, history);
    } else {
      PolicyIsStored(state, client, login, history, locked);
    }
  }

  lemma PolicyBegins(state: State, client: nat, login: bool, history: bool)
    requires IsAlone(state, client)
    ensures Step(Step(state, BeginPolicy(client, login, history)), Next(client)) == Placed(state, client, SettingsLocked(login, history))
    ensures Placed(state, client, SettingsLocked(login, history)).passkeys == state.passkeys
  {
    assert state.holder.None? && ClientOf(state, client) == Idle;
    hide IsBeingRemoved, IsAlone;
    var begun := Step(state, BeginPolicy(client, login, history));
    assert begun.clients == state.clients[client := SettingsEnsured(login, history)];
  }

  /** The client stands there with the settings row in its hands. */
  function Placed(state: State, client: nat, at: Client): State {
    State(state.passkeys, state.settings, Some(client), state.clients[client := at])
  }

  lemma LockedRefuses(state: State, client: nat, login: bool, history: bool)
    requires ClientOf(state, client) == SettingsLocked(login, history) && (login || history) && state.passkeys == {}
    ensures Step(state, Next(client)) == Ended(state, client)
  {
  }

  lemma PolicyIsStored(state: State, client: nat, login: bool, history: bool, locked: State)
    requires state.holder.None? && locked == Placed(state, client, SettingsLocked(login, history))
    requires !((login || history) && state.passkeys == {})
    ensures var n := Next(client);
            Step(Step(Step(locked, n), n), n) ==
              State(state.passkeys, Some(Settings(login, history, if state.settings.None? then 2 else state.settings.value.policyVersion + 1)),
                    None, state.clients[client := Idle])
  {
    hide IsBeingRemoved;
    var n := Next(client);
    var counted := Placed(state, client, PasskeysCounted(login, history));
    var stored := Placed(state, client, PolicyStored(login, history));
    assert Step(locked, n) == counted;
    assert Step(counted, n) == stored;
    assert stored.clients[client := Idle] == state.clients[client := Idle];
  }

  /** Alone, a deletion takes its passkey unless that is the last one and one is demanded. */
  lemma DeletionAlone(state: State, client: nat, id: string)
    requires IsAlone(state, client)
    ensures var n := Next(client);
            Run(state, [BeginDeletion(client, id), n, n, n, n]) ==
              if id !in state.passkeys
                 || (|state.passkeys| == 1 && state.settings.Some? && (state.settings.value.login || state.settings.value.history))
              then state.(clients := state.clients[client := Idle])
              else State(state.passkeys - {id},
                         if state.settings.None? then None
                         else Some(Settings(state.settings.value.login, state.settings.value.history, state.settings.value.policyVersion + 1)),
                         None, state.clients[client := Idle])
  {
    var n := Next(client);
    var demanded := state.settings.Some? && (state.settings.value.login || state.settings.value.history);
    var begun, allowed := Taken(state, client, DeletionBegun(id, demanded)), Taken(state, client, DeletionAllowed(id));
    RunFive(state, BeginDeletion(client, id), n, n, n, n);
    DeletionDecides(state, client, id, demanded);
    SizeOfOne(state.passkeys, id);
    assert state.holder.None?;
    hide Run, Step, IsBeingRemoved, IsAlone, Taken, Ended;
    if |state.passkeys| <= 1 && demanded {
      EndsAlone(state, client, begun, DeletionBegun(id, demanded));
    } else if id !in state.passkeys {
      EndsAlone(state, client, allowed, DeletionAllowed(id));
    } else {
      RemovedAlone(state, client, id, allowed);
    }
  }

  lemma SizeOfOne(passkeys: set<string>, id: string)
    ensures id in passkeys ==> |passkeys| >= 1
  {
  }

  lemma DeletionDecides(state: State, client: nat, id: string, demanded: bool)
    requires IsAlone(state, client)
    requires demanded <==> state.settings.Some? && (state.settings.value.login || state.settings.value.history)
    ensures var (n, begun, allowed) := (Next(client), Taken(state, client, DeletionBegun(id, demanded)), Taken(state, client, DeletionAllowed(id)));
            && Step(state, BeginDeletion(client, id)) == begun
            && Step(begun, n) == (if |state.passkeys| <= 1 && demanded then Ended(begun, client) else allowed)
            && !IsBeingRemoved(allowed, client, id)
            && (id !in state.passkeys ==> Step(allowed, n) == Ended(allowed, client))
  {
    NotBeingRemoved(state, client, id);
    assert state.holder.None? && ClientOf(state, client) == Idle;
    hide IsBeingRemoved, IsAlone, Ended;
    assert state.clients[client := DeletionBegun(id, demanded)][client := DeletionAllowed(id)] == state.clients[client := DeletionAllowed(id)];
  }

  /** The client stands there, with the settings row in its hands if there is one. */
  function Taken(state: State, client: nat, at: Client): State {
    State(state.passkeys, state.settings, if state.settings.Some? then Some(client) else None, state.clients[client := at])
  }

  lemma NotBeingRemoved(state: State, client: nat, id: string)
    requires IsAlone(state, client)
    ensures forall at: Client :: !IsBeingRemoved(Taken(state, client, at), client, id)
  {
  }

  /** A transaction that ends without effect leaves everything but the client's standing as it was. */
  lemma EndsAlone(state: State, client: nat, at: State, standing: Client)
    requires state.holder.None? && at in {Taken(state, client, standing), Placed(state, client, standing)}
    ensures Ended(at, client) == state.(clients := state.clients[client := Idle])
    ensures Step(Ended(at, client), Next(client)) == Ended(at, client)
  {
    hide IsBeingRemoved;
    assert state.clients[client := standing][client := Idle] == state.clients[client := Idle];
  }

  lemma RemovedAlone(state: State, client: nat, id: string, allowed: State)
    requires state.holder.None? && id in state.passkeys && allowed == Taken(state, client, DeletionAllowed(id))
    requires !IsBeingRemoved(allowed, client, id)
    ensures var n := Next(client);
            Step(Step(Step(allowed, n), n), n) ==
              State(state.passkeys - {id},
                    if state.settings.None? then None
                    else Some(Settings(state.settings.value.login, state.settings.value.history, state.settings.value.policyVersion + 1)),
                    None, state.clients[client := Idle])
  {
    hide IsBeingRemoved;
    var n := Next(client);
    var removed := Taken(state, client, PasskeyRemoved(id));
    var stored := Taken(state, client, DeletionStored(id, state.settings.Some?));
    assert Step(allowed, n) == removed;
    assert Step(removed, n) == stored;
    assert stored.clients[client := Idle] == state.clients[client := Idle];
  }

  // ----------------------------------------------------------------- the row's lock

  predicate Begins(event: Event) { event.BeginRegistration? || event.BeginPolicy? || event.BeginDeletion? }

  /** Who has begun begins nothing else; who gives up takes back what it did and frees the row. */
  lemma BeginsOnceAndGivesUp(state: State, event: Event)
    ensures Begins(event) && ClientOf(state, event.client) != Idle ==> Step(state, event) == state
    ensures event.Abort? ==>
      Step(state, event) == State(state.passkeys, state.settings, if state.holder == Some(event.client) then None else state.holder,
                                  state.clients[event.client := Idle])
  {
    hide IsBeingRemoved;
  }

  /** While another client has the settings row, whoever needs the row waits. */
  lemma OthersWait(state: State, event: Event)
    requires Valid(state) && state.holder.Some? && state.holder.value != event.client
    ensures (event.BeginPolicy? && state.settings.None?) || (event.BeginDeletion? && state.settings.Some?) ==> Step(state, event) == state
    ensures var at := ClientOf(state, event.client);
            event.Next? && (at.PasskeyInserted? || at.SettingsEnsured? || at.PasskeyRemoved?) ==> Step(state, event) == state
    ensures Step(state, event).holder == state.holder
    ensures Step(state, event).settings == state.settings && Step(state, event).passkeys == state.passkeys
  {
    assert Reliable(state, event.client);
    hide IsBeingRemoved, Bumped, WithPolicy;
  }

  /** The client has deleted the passkey and not committed. */
  ghost predicate Removes(state: State, client: nat, id: string) {
    ClientOf(state, client) == PasskeyRemoved(id) || (ClientOf(state, client).DeletionStored? && ClientOf(state, client).id == id)
  }

  /** A passkey that is being removed is still there, and one client alone removes it. */
  ghost predicate RemovedOnce(state: State) {
    && (forall client: nat, id | Removes(state, client, id) :: id in state.passkeys)
    && forall c: nat, d: nat, id | Removes(state, c, id) && Removes(state, d, id) :: c == d
  }

  lemma StepRemovesOnce(state: State, event: Event)
    requires RemovedOnce(state)
    ensures RemovedOnce(Step(state, event))
  {
    hide Bumped, WithPolicy, Required;
    var after := Step(state, event);
    forall client: nat | client != event.client ensures ClientOf(after, client) == ClientOf(state, client) {
      hide IsBeingRemoved;
    }
    forall client: nat, id | Removes(after, client, id)
      ensures id in after.passkeys
      ensures Removes(state, client, id) || (client == event.client && forall c: nat | c != client :: !Removes(state, c, id))
    {
      if client == event.client && !Removes(state, client, id) {
        forall c: nat | c != client ensures !Removes(state, c, id) {
          assert Removes(state, c, id) ==> c in state.clients && IsBeingRemoved(state, client, id);
        }
      } else if client != event.client {
        assert Removes(state, client, id);
        var own := ClientOf(state, event.client);
        assert own.DeletionStored? && own.id == id ==> Removes(state, event.client, id);
      }
    }
  }

  /** In every interleaving a passkey is removed by one client at most. */
  lemma {:induction false} PasskeyIsRemovedOnce(events: seq<Event>)
    ensures RemovedOnce(Run(NEW_USER, events))
    decreases |events|
  {
    if events != [] {
      PasskeyIsRemovedOnce(events[..|events| - 1]);
      hide Step, RemovedOnce;
      StepRemovesOnce(Run(NEW_USER, events[..|events| - 1]), events[|events| - 1]);
    }
  }

  // ------------------------------------ protection: who deletes must find the settings row

  /** What is demanded is there. */
  predicate Protected(state: State) {
    state.settings.Some? && (state.settings.value.login || state.settings.value.history) ==> state.passkeys != {}
  }

  /** Enough is left for one more deletion to keep the protection. */
  predicate SparesOne(state: State) { Required(state.settings) ==> |state.passkeys| >= 2 }

  /** With the settings row in hand, what a client has seen stays so. */
  ghost predicate Guarded(state: State, client: nat) {
    match ClientOf(state, client)
    case PasskeysCounted(login, history) => state.holder == Some(client) && (login || history ==> state.passkeys != {})
    case PolicyStored(login, history) => state.holder == Some(client) && (login || history ==> state.passkeys != {})
    case DeletionBegun(id, protected) => state.holder == Some(client) && (protected <==> Required(state.settings))
    case DeletionAllowed(id) => state.holder == Some(client) && SparesOne(state)
    case PasskeyRemoved(id) => state.holder == Some(client) && SparesOne(state)
    case DeletionStored(id, _) => state.holder == Some(client) && SparesOne(state)
    case _ => true
  }

  ghost predicate Safe(state: State) { Valid(state) && Protected(state) && forall client: nat :: Guarded(state, client) }

  /** A deletion that begins now finds the settings row. */
  predicate FindsRow(state: State, event: Event) { event.BeginDeletion? ==> state.settings.Some? }

  lemma OtherStaysGuarded(state: State, event: Event, client: nat)
    requires Safe(state) && FindsRow(state, event) && client != event.client
    ensures Guarded(Step(state, event), client)
  {
    assert Guarded(state, client) && Reliable(state, client) && Guarded(state, event.client) && Reliable(state, event.client);
    hide IsBeingRemoved, Bumped, WithPolicy, Valid;
  }

  lemma OwnStaysGuarded(state: State, event: Event)
    requires Safe(state) && FindsRow(state, event)
    ensures Guarded(Step(state, event), event.client) && Protected(Step(state, event))
  {
    assert Guarded(state, event.client) && Reliable(state, event.client);
    hide IsBeingRemoved, Valid;
    var at := ClientOf(state, event.client);
    if event.Next? && at.DeletionStored? { LeavesOne(state.passkeys, at.id); }
  }

  lemma LeavesOne(passkeys: set<string>, id: string)
    ensures |passkeys| >= 2 ==> passkeys - {id} != {}
  {
    if passkeys - {id} == {} {
      assert passkeys <= {id};
      SubsetSize(passkeys, {id});
    }
  }

  lemma SubsetSize(a: set<string>, b: set<string>)
    requires a <= b
    ensures |a| <= |b|
  {
    assert b == a + (b - a);
  }

  lemma StepKeepsSafe(state: State, event: Event)
    requires Safe(state) && FindsRow(state, event)
    ensures Safe(Step(state, event))
  {
    StepKeepsValid(state, event);
    OwnStaysGuarded(state, event);
    hide Step, Guarded, Valid;
    forall client: nat ensures Guarded(Step(state, event), client) {
      if client != event.client { OtherStaysGuarded(state, event, client); }
    }
  }

  lemma NewUserIsSafe()
    ensures Safe(NEW_USER)
  {
  }

  /** Every deletion of the events finds the settings row as it begins. */
  ghost predicate AllFind(state: State, events: seq<Event>) {
    forall k :: 0 <= k < |events| ==> FindsRow(Run(state, events[..k]), events[k])
  }

  lemma {:induction false} RunKeepsSafe(state: State, events: seq<Event>)
    requires Safe(state) && AllFind(state, events)
    ensures Safe(Run(state, events)) && Protected(Run(state, events))
    decreases |events|
  {
    hide Step, Safe, FindsRow;
    if events != [] {
      var last := |events| - 1;
      forall k | 0 <= k < last ensures FindsRow(Run(state, events[..last][..k]), events[..last][k]) {
        assert events[..last][..k] == events[..k];
      }
      RunKeepsSafe(state, events[..last]);
      StepKeepsSafe(Run(state, events[..last]), events[last]);
    }
    SafeIsProtected(Run(state, events));
  }

  lemma SafeIsProtected(state: State)
    requires Safe(state)
    ensures Protected(state)
  {
  }

  /**
   * When every deletion finds the settings row as it begins, a demanded passkey is always there, however the
   * statements interleave.
   */
  lemma RequiredMeansProtected(events: seq<Event>)
    requires AllFind(NEW_USER, events)
    ensures Safe(Run(NEW_USER, events)) && Protected(Run(NEW_USER, events))
  {
    NewUserIsSafe();
    hide Run, Safe;
    RunKeepsSafe(NEW_USER, events);
  }

  /** A deletion of a passkey that is there when it begins finds the row. */
  lemma ExistingPasskeyFindsRow(state: State, event: Event)
    requires Valid(state) && event.BeginDeletion? && event.id in state.passkeys
    ensures FindsRow(state, event)
  {
  }

  // ------------------------------------------ a deletion that begins without the settings row

  predicate NoDeletion(events: seq<Event>) { forall k :: 0 <= k < |events| ==> !events[k].BeginDeletion? }

  lemma {:induction false} RunConcat(state: State, a: seq<Event>, b: seq<Event>)
    ensures Run(state, a + b) == Run(Run(state, a), b)
    decreases |b|
  {
    hide Step;
    if b == [] {
      assert a + b == a;
    } else {
      assert (a + b)[..|a + b| - 1] == a + b[..|b| - 1];
      RunConcat(state, a, b[..|b| - 1]);
    }
  }

  lemma RunThree(state: State, a: Event, b: Event, c: Event)
    ensures Run(state, [a, b, c]) == Step(Step(Step(state, a), b), c)
  {
    hide Step;
    assert [a, b, c][..2] == [a, b] && [a, b][..1] == [a] && [a][..0] == [];
    assert Run(state, []) == state;
    assert Run(state, [a]) == Step(state, a);
    assert Run(state, [a, b]) == Step(Step(state, a), b);
  }

  lemma RunFour(state: State, a: Event, b: Event, c: Event, d: Event)
    ensures Run(state, [a, b, c, d]) == Step(Step(Step(Step(state, a), b), c), d)
  {
    hide Step;
    assert [a, b, c, d][..3] == [a, b, c];
    RunThree(state, a, b, c);
  }

  lemma {:induction false} UnusedClient(clients: set<nat>) returns (unused: nat)
    ensures forall client | client in clients :: client < unused
  {
    if clients == {} {
      unused := 0;
    } else {
      var one :| one in clients;
      var rest := UnusedClient(clients - {one});
      unused := if one >= rest then one + 1 else rest;
      forall client | client in clients ensures client < unused {
        assert client == one || client in clients - {one};
      }
    }
  }

  /** One passkey is registered, with nobody in the way. */
  lemma Registered(state: State, client: nat, id: string) returns (events: seq<Event>)
    requires state.passkeys == {} && state.settings.None? && state.holder.None? && ClientOf(state, client) == Idle
    ensures Run(state, events) == State({id}, Some(DEFAULT), None, state.clients[client := Idle]) && NoDeletion(events)
  {
    events := [BeginRegistration(client, id), Next(client), Next(client)];
    RunThree(state, BeginRegistration(client, id), Next(client), Next(client));
    hide Run;
    var begun := Moved(state, client, PasskeyInserted(id));
    var stored := Moved(Held(begun, client), client, RegistrationStored(id));
    assert Step(state, events[0]) == begun && Step(begun, Next(client)) == stored;
    assert stored.clients[client := Idle] == state.clients[client := Idle];
  }

  /** A passkey at login is demanded, with nobody in the way. */
  lemma Demanded(state: State, client: nat) returns (events: seq<Event>)
    requires state.passkeys != {} && state.settings == Some(DEFAULT) && state.holder.None? && ClientOf(state, client) == Idle
    ensures Run(state, events) == state.(settings := Some(Settings(true, false, 2)), clients := state.clients[client := Idle])
    ensures NoDeletion(events)
  {
    var n := Next(client);
    events := [BeginPolicy(client, true, false), n, n] + [n, n];
    RunConcat(state, [BeginPolicy(client, true, false), n, n], [n, n]);
    RunThree(state, BeginPolicy(client, true, false), n, n);
    var ensured := Moved(state, client, SettingsEnsured(true, false));
    var locked := Moved(Held(ensured, client), client, SettingsLocked(true, false));
    var counted := Moved(locked, client, PasskeysCounted(true, false));
    var stored := Moved(counted, client, PolicyStored(true, false));
    assert [n, n][..1] == [n] && [n][..0] == [];
    assert Run(counted, []) == counted && Run(counted, [n]) == Step(counted, n) && Run(counted, [n, n]) == Step(Step(counted, n), n);
    hide Run;
    assert Step(state, BeginPolicy(client, true, false)) == ensured && Step(ensured, n) == locked && Step(locked, n) == counted;
    assert Step(counted, n) == stored;
    assert stored.clients[client := Idle] == state.clients[client := Idle];
  }

  /** A deletion that knows of no demand takes the only passkey, with nobody in the way. */
  lemma Deleted(state: State, client: nat, id: string) returns (events: seq<Event>)
    requires state.passkeys == {id} && state.settings.Some? && state.holder.None?
    requires ClientOf(state, client) == DeletionBegun(id, false) && !IsBeingRemoved(state, client, id)
    ensures Run(state, events).passkeys == {} && Run(state, events).settings == Some(Bumped(state.settings)) && NoDeletion(events)
  {
    var n := Next(client);
    events := [n, n, n, n];
    RunFour(state, n, n, n, n);
    hide Run;
    var allowed := Moved(state, client, DeletionAllowed(id));
    var removed := Moved(allowed, client, PasskeyRemoved(id));
    var stored := Moved(Held(removed, client), client, DeletionStored(id, true));
    assert Step(state, n) == allowed;
    assert !IsBeingRemoved(allowed, client, id);
    hide IsBeingRemoved;
    assert Step(allowed, n) == removed && Step(removed, n) == stored;
  }

  /** Whoever holds the settings row gives up. */
  lemma Freed(state: State) returns (events: seq<Event>)
    ensures Run(state, events) == (if state.holder.Some? then Ended(state, state.holder.value) else state) && NoDeletion(events)
  {
    if state.holder.Some? {
      var abort := Abort(state.holder.value);
      events := [abort];
      assert [abort][..0] == [];
      assert Run(state, []) == state;
    } else {
      events := [];
    }
  }

  /** Before there is a settings row nobody is about to remove a passkey. */
  lemma NobodyRemoves(state: State, client: nat, id: string)
    requires Valid(state) && state.settings.None?
    ensures !IsBeingRemoved(state, client, id)
  {
    forall c | c in state.clients ensures !state.clients[c].PasskeyRemoved? && !state.clients[c].DeletionStored? {
      assert Reliable(state, c);
    }
  }

  /**
   * Without the row to lock, a deletion can take the last passkey although one is demanded: it begins before
   * the settings row exists, and a registration and a policy change commit before it goes on. So from every
   * state without the row, whoever is under way, and without another deletion.
   */
  lemma DeletionWithoutRowBreaksProtection(state: State, client: nat, id: string) returns (events: seq<Event>)
    requires Valid(state) && state.settings.None? && ClientOf(state, client) == Idle
    ensures !Protected(Run(Step(state, BeginDeletion(client, id)), events)) && NoDeletion(events)
  {
    var begun := Moved(state, client, DeletionBegun(id, false));
    assert Step(state, BeginDeletion(client, id)) == begun && state.passkeys == {};
    NobodyRemoves(state, client, id);
    var other := UnusedClient(state.clients.Keys + {client});
    var free := if begun.holder.Some? then Ended(begun, begun.holder.value) else begun;
    assert !IsBeingRemoved(free, client, id) && ClientOf(free, client) == DeletionBegun(id, false);
    assert ClientOf(free, other) == Idle;
    var registered := State({id}, Some(DEFAULT), None, free.clients[other := Idle]);
    var demanded := State({id}, Some(Settings(true, false, 2)), None, registered.clients[other := Idle]);
    assert !IsBeingRemoved(demanded, client, id);
    hide Run, Step, IsBeingRemoved;
    var a := Freed(begun);
    var b := Registered(free, other, id);
    var c := Demanded(registered, other);
    var d := Deleted(demanded, client, id);
    RunConcat(begun, a, b);
    RunConcat(begun, a + b, c);
    RunConcat(begun, a + b + c, d);
    events := a + b + c + d;
  }

  /** From nothing: client 1's deletion begins, and then client 2 registers and demands a passkey. */
  lemma LastPasskeyIsTaken() returns (events: seq<Event>)
    ensures !Protected(Run(NEW_USER, [BeginDeletion(1, "k")] + events)) && NoDeletion(events)
  {
    NewUserIsValid();
    events := DeletionWithoutRowBreaksProtection(NEW_USER, 1, "k");
    var begin := [BeginDeletion(1, "k")];
    assert begin[..0] == [];
    assert Run(NEW_USER, []) == NEW_USER;
    assert Run(NEW_USER, begin) == Step(NEW_USER, begin[0]);
    RunConcat(NEW_USER, begin, events);
  }

  /**
   * A demanded passkey is there in everything that can follow the beginning of a deletion, as long as later
   * deletions find the settings row, exactly when this one does.
   */
  lemma StaysProtectedIff(state: State, client: nat, id: string)
    requires Safe(state) && ClientOf(state, client) == Idle
    ensures var begun := Step(state, BeginDeletion(client, id));
            (forall events | AllFind(begun, events) :: Protected(Run(begun, events))) <==> FindsRow(state, BeginDeletion(client, id))
  {
    var begun := Step(state, BeginDeletion(client, id));
    if state.settings.Some? {
      StepKeepsSafe(state, BeginDeletion(client, id));
      hide Run, Step, Safe, AllFind;
      forall events | AllFind(begun, events) ensures Protected(Run(begun, events)) {
        RunKeepsSafe(begun, events);
      }
    } else {
      hide Run, Step;
      var events := DeletionWithoutRowBreaksProtection(state, client, id);
      assert AllFind(begun, events);
    }
  }
}
