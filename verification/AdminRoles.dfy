/**
 * Changing roles under row locks: any number of clients, each statement seeing what is committed when it runs
 * (apps/web/lib/admin-members.ts under READ COMMITTED). A statement that has to wait for a lock does not run
 * until it gets it.
 */
module AdminRoles {
  import opened Prelude

  datatype Role = Member | Admin

  /** Where a client's transaction stands. */
  datatype Client =
    | Idle
    /** The target's row is locked and was an admin's; it is to become a member's. */
    | Demoting(target: string)
    /** Locking the admins seen by the count, one by one. */
    | Counting(target: string, left: set<string>, found: set<string>)
    /** All checks passed. */
    | Updating(target: string, role: Role)

  /** The committed roles, who holds each row's lock, and the clients. */
  datatype State = State(roles: map<string, Role>, locks: map<string, nat>, clients: map<nat, Client>)

  datatype Outcome = Done | InvalidRole | UserNotFound | LastAdmin

  datatype Event =
    | Begin(client: nat, target: string, role: Role)
    | Snapshot(client: nat)
    | LockNext(client: nat, user: string)
    | Decide(client: nat)
    | Commit(client: nat)
    | Abort(client: nat)

  function ClientOf(state: State, client: nat): Client { if client in state.clients then state.clients[client] else Idle }

  predicate CanLock(state: State, user: string, client: nat) { user !in state.locks || state.locks[user] == client }

  /** Ending a transaction frees its locks. */
  function Ended(state: State, client: nat): State {
    State(state.roles, map u | u in state.locks && state.locks[u] != client :: state.locks[u], state.clients[client := Idle])
  }

  function Moved(state: State, client: nat, to: Client): State { state.(clients := state.clients[client := to]) }

  function Admins(roles: map<string, Role>): set<string> { set u | u in roles && roles[u] == Admin }

  /** One statement of one client; a client that must wait, or is elsewhere, changes nothing. */
  function Step(state: State, event: Event): State {
    var at := ClientOf(state, event.client);
    match event
    case Begin(client, target, role) =>
      if at != Idle || target !in state.roles || !CanLock(state, target, client) then state
      else
        var locked := state.(locks := state.locks[target := client]);
        if state.roles[target] == Admin && role == Member then Moved(locked, client, Demoting(target))
        else Moved(locked, client, Updating(target, role))
    case Snapshot(client) =>
      if at.Demoting? then Moved(state, client, Counting(at.target, Admins(state.roles), {})) else state
    case LockNext(client, user) =>
      if !at.Counting? || user !in at.left || !CanLock(state, user, client) then state
      else if user in state.roles && state.roles[user] == Admin then
        Moved(state.(locks := state.locks[user := client]), client, Counting(at.target, at.left - {user}, at.found + {user}))
      else Moved(state, client, Counting(at.target, at.left - {user}, at.found))
    case Decide(client) =>
      if !at.Counting? || at.left != {} then state
      else if |at.found| <= 1 then Ended(state, client)
      else Moved(state, client, Updating(at.target, Member))
    case Commit(client) =>
      if !at.Updating? then state else Ended(state.(roles := state.roles[at.target := at.role]), client)
    case Abort(client) => Ended(state, client)
  }

  function Run(state: State, events: seq<Event>): State
    decreases |events|
  {
    if events == [] then state else Step(Run(state, events[..|events| - 1]), events[|events| - 1])
  }

  // -------------------------------------------------------------------- invariant

  /** The client holds the rows, and they are admins'. */
  ghost predicate HoldsAdmins(state: State, client: nat, users: set<string>) {
    forall u | u in users :: u in state.locks && state.locks[u] == client && u in state.roles && state.roles[u] == Admin
  }

  ghost predicate Holds(state: State, client: nat, user: string) {
    user in state.locks && state.locks[user] == client && user in state.roles
  }

  /** Another admin than the target, held by the client. */
  ghost predicate HoldsAnother(state: State, client: nat, target: string) {
    exists u :: u != target && HoldsAdmins(state, client, {u})
  }

  /** What a client that has come so far can rely on. */
  ghost predicate Reliable(state: State, client: nat) {
    match ClientOf(state, client)
    case Idle => true
    case Demoting(target) => Holds(state, client, target)
    case Counting(target, left, found) => Holds(state, client, target) && HoldsAdmins(state, client, found)
    case Updating(target, role) =>
      Holds(state, client, target) && (state.roles[target] == Admin && role == Member ==> HoldsAnother(state, client, target))
  }

  ghost predicate Valid(state: State) { forall client: nat :: Reliable(state, client) }

  /** What a client relies on is untouched when others lock, unlock their own rows and change only those. */
  lemma OthersStayReliable(before: State, after: State, client: nat)
    requires Reliable(before, client) && ClientOf(after, client) == ClientOf(before, client)
    requires forall u | u in before.locks && before.locks[u] == client && u in before.roles ::
               u in after.locks && after.locks[u] == client && u in after.roles && after.roles[u] == before.roles[u]
    ensures Reliable(after, client)
  {
    var at := ClientOf(before, client);
    if at.Updating? && before.roles[at.target] == Admin && at.role == Member {
      var u :| u != at.target && HoldsAdmins(before, client, {u});
      assert u in {u};
      assert HoldsAdmins(after, client, {u});
    }
  }

  lemma OwnStep(state: State, event: Event)
    requires Valid(state)
    ensures Reliable(Step(state, event), event.client)
  {
    assert Reliable(state, event.client);
    var at := ClientOf(state, event.client);
    if event.Decide? && at.Counting? && at.left == {} && |at.found| > 1 {
      AnotherFound(at.found, at.target);
      var u :| u in at.found && u != at.target;
      assert HoldsAdmins(Step(state, event), event.client, {u});
    }
  }

  lemma AnotherFound(found: set<string>, target: string)
    requires |found| > 1
    ensures exists u :: u in found && u != target
  {
    if forall u | u in found :: u == target {
      assert found <= {target};
      SubsetSize(found, {target});
    }
  }

  lemma SubsetSize(a: set<string>, b: set<string>)
    requires a <= b
    ensures |a| <= |b|
  {
    assert b == a + (b - a);
  }

  lemma StepKeepsOthers(state: State, event: Event, client: nat)
    requires Valid(state) && client != event.client
    ensures Reliable(Step(state, event), client)
  {
    assert Reliable(state, client) && Reliable(state, event.client);
    hide Reliable, HoldsAnother;
    OthersStayReliable(state, Step(state, event), client);
  }

  lemma StepKeepsValid(state: State, event: Event)
    requires Valid(state)
    ensures Valid(Step(state, event))
  {
    hide Step, Reliable;
    forall client: nat ensures Reliable(Step(state, event), client) {
      if client == event.client { OwnStep(state, event); } else { StepKeepsOthers(state, event, client); }
    }
  }

  /** Only a commit changes a role, and it leaves an admin if there was one. */
  lemma StepKeepsAdmin(state: State, event: Event)
    requires Valid(state) && Admins(state.roles) != {}
    ensures Admins(Step(state, event).roles) != {}
  {
    var at := ClientOf(state, event.client);
    assert Reliable(state, event.client);
    var admin :| admin in Admins(state.roles);
    if event.Commit? && at.Updating? {
      if state.roles[at.target] == Admin && at.role == Member {
        var u :| u != at.target && HoldsAdmins(state, event.client, {u});
        assert u in {u};
        assert u in Admins(Step(state, event).roles);
      } else if at.role == Admin {
        assert at.target in Admins(Step(state, event).roles);
      } else {
        assert admin in Admins(Step(state, event).roles);
      }
    } else {
      assert Step(state, event).roles == state.roles;
    }
  }

  function Start(roles: map<string, Role>): State { State(roles, map[], map[]) }

  /** Whatever the clients do and however their statements interleave, an organisation with an admin keeps one. */
  lemma {:induction false} NeverZeroAdmins(roles: map<string, Role>, events: seq<Event>)
    requires Admins(roles) != {}
    ensures Valid(Run(Start(roles), events)) && Admins(Run(Start(roles), events).roles) != {}
    decreases |events|
  {
    if events != [] {
      var earlier, last := events[..|events| - 1], events[|events| - 1];
      NeverZeroAdmins(roles, earlier);
      hide Step, Valid, Admins;
      StepKeepsValid(Run(Start(roles), earlier), last);
      StepKeepsAdmin(Run(Start(roles), earlier), last);
    }
  }

  // ------------------------------------------------ what a client alone achieves

  lemma RunOne(state: State, events: seq<Event>, event: Event)
    ensures Run(state, events + [event]) == Step(Run(state, events), event)
  {
    assert (events + [event])[..|events|] == events;
  }

  /** All locks, if any, are the client's. */
  ghost predicate Alone(state: State, client: nat) { forall u | u in state.locks :: state.locks[u] == client }

  /** The users left to lock are locked one by one, and those who are admins still are counted. */
  lemma {:induction false} CountsToTheEnd(start: State, events: seq<Event>, client: nat, target: string, left: set<string>, found: set<string>)
    returns (longer: seq<Event>)
    requires Run(start, events).clients == start.clients[client := Counting(target, left, found)]
    requires Alone(Run(start, events), client)
    ensures Run(start, longer).clients == start.clients[client := Counting(target, {}, found + left * Admins(Run(start, events).roles))]
    ensures Alone(Run(start, longer), client) && Run(start, longer).roles == Run(start, events).roles
    decreases left
  {
    hide Run;
    var admins := Admins(Run(start, events).roles);
    if left == {} {
      assert found + left * admins == found;
      longer := events;
    } else {
      var u :| u in left;
      RunOne(start, events, LockNext(client, u));
      var more := if u in admins then found + {u} else found;
      assert found + left * admins == more + (left - {u}) * admins;
      longer := CountsToTheEnd(start, events + [LockNext(client, u)], client, target, left - {u}, more);
    }
  }

  /** Who counts can always come to a decision: the demotion goes on exactly if more than one admin is found. */
  lemma CountDecides(state: State, client: nat, target: string, left: set<string>, found: set<string>) returns (events: seq<Event>)
    requires ClientOf(state, client) == Counting(target, left, found) && client in state.clients && Alone(state, client)
    ensures Run(state, events).roles == state.roles
    ensures ClientOf(Run(state, events), client) ==
      if |found + left * Admins(state.roles)| > 1 then Updating(target, Member) else Idle
  {
    assert Run(state, []) == state;
    assert state.clients == state.clients[client := Counting(target, left, found)];
    hide Run;
    events := CountsToTheEnd(state, [], client, target, left, found);
    RunOne(state, events, Decide(client));
    events := events + [Decide(client)];
  }

  /** With nobody in the way any change but a demotion is made at once, and none is made to a user there is not. */
  lemma SoloAssignment(roles: map<string, Role>, client: nat, target: string, role: Role)
    requires target in roles ==> !(roles[target] == Admin && role == Member)
    ensures var after := Run(Start(roles), [Begin(client, target, role), Commit(client)]);
            && after.roles == (if target in roles then roles[target := role] else roles)
            && after.locks == map[] && ClientOf(after, client) == Idle
  {
    var start := Start(roles);
    assert Run(start, []) == start;
    assert [Begin(client, target, role)][..0] == [] && [Begin(client, target, role), Commit(client)][..1] == [Begin(client, target, role)];
    assert Run(start, [Begin(client, target, role)]) == Step(start, Begin(client, target, role));
  }

  /** The client is elsewhere, or the row it needs is another's. */
  predicate IsOutOfTurn(state: State, event: Event) {
    var at := ClientOf(state, event.client);
    match event
    case Begin(client, target, _) => at != Idle || (target in state.locks && state.locks[target] != client)
    case Snapshot(_) => !at.Demoting?
    case LockNext(client, user) => !at.Counting? || user !in at.left || (user in state.locks && state.locks[user] != client)
    case Decide(_) => !at.Counting? || at.left != {}
    case Commit(_) => !at.Updating?
    case Abort(_) => false
  }

  /** A client that is elsewhere, or has to wait for a row, changes nothing. */
  lemma OutOfTurnChangesNothing(state: State, event: Event)
    requires IsOutOfTurn(state, event)
    ensures Step(state, event) == state
  {
  }

  lemma AloneEnds(state: State, client: nat)
    requires Alone(state, client)
    ensures Ended(state, client).locks == map[]
  {
  }

  /** With nobody in the way a demotion goes through exactly when another admin remains, and frees every lock. */
  lemma SoloDemotion(roles: map<string, Role>, client: nat, target: string) returns (events: seq<Event>)
    requires target in roles && roles[target] == Admin
    ensures Run(Start(roles), events).roles == if |Admins(roles)| > 1 then roles[target := Member] else roles
    ensures ClientOf(Run(Start(roles), events), client) == Idle && Run(Start(roles), events).locks == map[]
  {
    var start := Start(roles);
    assert Run(start, []) == start;
    hide Run;
    RunOne(start, [], Begin(client, target, Member));
    assert [] + [Begin(client, target, Member)] == [Begin(client, target, Member)];
    events := [Begin(client, target, Member)];
    RunOne(start, events, Snapshot(client));
    events := events + [Snapshot(client)];
    events := CountsToTheEnd(start, events, client, target, Admins(roles), {});
    assert {} + Admins(roles) * Admins(roles) == Admins(roles);
    RunOne(start, events, Decide(client));
    events := events + [Decide(client)];
    AloneEnds(Run(start, events), client);
    RunOne(start, events, Commit(client));
    events := events + [Commit(client)];
  }

  // --------------------------------------------------- one change with nobody else around

  function ParseUserRole(role: string): Option<Role> {
    if role == "admin" then Some(Admin) else if role == "member" then Some(Member) else None
  }

  class UserTable {
    var roles: map<string, Role>

    /** Refused exactly when it would take the last admin's role. */
    method AssignUserRole(userId: string, role: string) returns (outcome: Outcome)
      modifies this
      ensures outcome == InvalidRole <==> role != "admin" && role != "member"
      ensures outcome == UserNotFound <==> (role == "admin" || role == "member") && userId !in old(roles)
      ensures outcome == LastAdmin <==> role == "member" && Admins(old(roles)) == {userId}
      ensures roles == if outcome == Done then old(roles)[userId := if role == "admin" then Admin else Member] else old(roles)
      ensures Admins(old(roles)) != {} ==> Admins(roles) != {}
    {
      var nextRole := ParseUserRole(role);
      var admins := Admins(roles);
      assert userId in admins <==> userId in roles && roles[userId] == Admin;
      if nextRole.None? { return InvalidRole; }
      if userId !in roles { return UserNotFound; }
      if roles[userId] == Admin && nextRole.value == Member {
        if |admins| <= 1 {
          OnlyMember(admins, userId);
          return LastAdmin;
        }
        AnotherFound(admins, userId);
        var u :| u in admins && u != userId;
        roles := roles[userId := Member];
        assert u in Admins(roles);
        return Done;
      }
      roles := roles[userId := nextRole.value];
      assert forall u | u in admins :: u in Admins(roles) || u == userId;
      assert nextRole.value == Admin ==> userId in Admins(roles);
      return Done;
    }
  }

  lemma OnlyMember(users: set<string>, user: string)
    requires user in users && |users| <= 1
    ensures users == {user}
  {
    if other :| other in users && other != user { SubsetSize({user, other}, users); }
  }
}
