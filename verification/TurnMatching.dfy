/**
 * Matching of assistant turns to usage events in one session
 * (apps/web/lib/history-grouping.ts, `matchTurnUsage`).
 */
module TurnMatching {
  import opened Prelude

  datatype Role = User | Assistant

  datatype TurnUsage = TurnUsage(
    model: Option<string>,
    inputTokens: int, outputTokens: int, cacheReadTokens: int, cacheCreationTokens: int,
    costUsd: real, costStatus: string)

  datatype Turn = Turn(dedupKey: string, role: Role, ts: int)

  datatype UsageEvent = UsageEvent(ts: int, usage: TurnUsage)

  const MATCH_TOLERANCE_MS := 10_000

  /** One choice per turn: the index of the event given to it, if any. */
  type Picks = seq<Option<nat>>

  function Delta(turn: Turn, event: UsageEvent): int { Abs(event.ts - turn.ts) }

  ghost function Used(picks: Picks): set<nat> {
    set k | 0 <= k < |picks| && picks[k].Some? :: picks[k].value
  }

  /** `choice` is what a turn may take when the events of `used` are gone. */
  ghost predicate IsGreedyChoice(turn: Turn, events: seq<UsageEvent>, tolerance: int, used: set<nat>, choice: Option<nat>) {
    match choice
    case None =>
      turn.role == Assistant ==>
        forall e: nat | e < |events| && e !in used :: Delta(turn, events[e]) > tolerance
    case Some(best) =>
      && turn.role == Assistant
      && best < |events| && best !in used
      && Delta(turn, events[best]) <= tolerance
      && forall e: nat | e < |events| && e !in used ::
           && Delta(turn, events[best]) <= Delta(turn, events[e])
           && (e < best ==> Delta(turn, events[best]) < Delta(turn, events[e]))
  }

  /** Every turn chose in order, each among the events left by the turns before it. */
  ghost predicate IsGreedy(turns: seq<Turn>, events: seq<UsageEvent>, tolerance: int, picks: Picks) {
    && |picks| == |turns|
    && (turns != [] ==>
          var last := |turns| - 1;
          && IsGreedy(turns[..last], events, tolerance, picks[..last])
          && IsGreedyChoice(turns[last], events, tolerance, Used(picks[..last]), picks[last]))
  }

  ghost predicate InRange(events: seq<UsageEvent>, picks: Picks) {
    forall k :: 0 <= k < |picks| && picks[k].Some? ==> picks[k].value < |events|
  }

  /** The usage attached to each turn key; a later turn with the same key wins. */
  ghost function Attached(turns: seq<Turn>, events: seq<UsageEvent>, picks: Picks): map<string, TurnUsage>
    requires |picks| == |turns|
    requires InRange(events, picks)
  {
    if turns == [] then map[]
    else
      var last := |turns| - 1;
      var earlier := Attached(turns[..last], events, picks[..last]);
      match picks[last]
      case None => earlier
      case Some(e) => earlier[turns[last].dedupKey := events[e].usage]
  }

  /** The usage map of some greedy choice of events. */
  ghost predicate IsGreedyResult(turns: seq<Turn>, events: seq<UsageEvent>, tolerance: int, result: map<string, TurnUsage>) {
    exists picks: Picks ::
      IsGreedy(turns, events, tolerance, picks) && InRange(events, picks) && result == Attached(turns, events, picks)
  }

  method MatchTurnUsage(turns: seq<Turn>, events: seq<UsageEvent>, tolerance: int := MATCH_TOLERANCE_MS)
    returns (result: map<string, TurnUsage>)
    ensures IsGreedyResult(turns, events, tolerance, result)
  {
    result := map[];
    ghost var picks: Picks := [];
    if |events| == 0 {
      picks := NoPicks(turns, tolerance);
      return;
    }
    var used := new bool[|events|](_ => false);
    NothingYet(events, tolerance);
    hide IsGreedy, Attached, Used;
    for n := 0 to |turns|
      invariant |picks| == n
      invariant used[..] == UsedFlags(picks, |events|)
      invariant IsGreedy(turns[..n], events, tolerance, picks)
      invariant InRange(events, picks)
      invariant result == Attached(turns[..n], events, picks)
    {
      var turn := turns[n];
      ghost var before := picks;
      var choice: Option<nat> := None;
      if turn.role == Assistant {
        var best, bestDelta := NearestUnused(turn, events, used, picks);
        if best >= 0 && bestDelta <= tolerance {
          used[best] := true;
          result := result[turn.dedupKey := events[best].usage];
          choice := Some(best);
        }
      }
      picks := picks + [choice];
      UsedAfter(before, choice);
      assert turns[..n + 1] == turns[..n] + [turn];
      OneMoreChoice(turns[..n], events, tolerance, before, turn, choice);
      AttachedNext(turns[..n], events, before, turn, choice);
    }
    assert turns[..|turns|] == turns;
  }

  lemma OneMoreChoice(turns: seq<Turn>, events: seq<UsageEvent>, tolerance: int, picks: Picks, turn: Turn, choice: Option<nat>)
    requires IsGreedy(turns, events, tolerance, picks)
    requires IsGreedyChoice(turn, events, tolerance, Used(picks), choice)
    ensures IsGreedy(turns + [turn], events, tolerance, picks + [choice])
  {
    hide IsGreedyChoice;
    assert (turns + [turn])[..|turns|] == turns && (picks + [choice])[..|picks|] == picks;
  }

  lemma AttachedNext(turns: seq<Turn>, events: seq<UsageEvent>, picks: Picks, turn: Turn, choice: Option<nat>)
    requires |picks| == |turns| && InRange(events, picks) && (choice.Some? ==> choice.value < |events|)
    ensures InRange(events, picks + [choice])
    ensures Attached(turns + [turn], events, picks + [choice]) ==
      if choice.None? then Attached(turns, events, picks) else Attached(turns, events, picks)[turn.dedupKey := events[choice.value].usage]
  {
    assert (turns + [turn])[..|turns|] == turns && (picks + [choice])[..|picks|] == picks;
  }

  lemma NothingYet(events: seq<UsageEvent>, tolerance: int)
    ensures IsGreedy([], events, tolerance, []) && Attached([], events, []) == map[] && Used([]) == {}
  {
  }

  /** The flags of the events taken so far. */
  ghost function UsedFlags(picks: Picks, count: nat): (flags: seq<bool>)
    ensures |flags| == count
    ensures forall e: nat | e < count :: flags[e] <==> e in Used(picks)
  {
    seq(count, e => e in Used(picks))
  }

  /** The first of the nearest events not used yet, or -1 when all are used. */
  method NearestUnused(turn: Turn, events: seq<UsageEvent>, used: array<bool>, ghost picks: Picks)
    returns (best: int, bestDelta: int)
    requires used[..] == UsedFlags(picks, |events|)
    ensures -1 <= best < |events|
    ensures best == -1 ==> forall e: nat | e < |events| :: e in Used(picks)
    ensures best >= 0 ==> best !in Used(picks) && bestDelta == Delta(turn, events[best])
    ensures best >= 0 ==> forall e: nat | e < |events| && e !in Used(picks) ::
      bestDelta <= Delta(turn, events[e]) && (e < best ==> bestDelta < Delta(turn, events[e]))
  {
    best, bestDelta := -1, 0;
    assert used.Length == |used[..]| == |events|;
    for i := 0 to |events|
      invariant -1 <= best < i
      invariant best == -1 ==> forall e: nat | e < i :: e in Used(picks)
      invariant best >= 0 ==> best !in Used(picks) && bestDelta == Delta(turn, events[best])
      invariant best >= 0 ==> forall e: nat | e < i && e !in Used(picks) ::
        bestDelta <= Delta(turn, events[e]) && (e < best ==> bestDelta < Delta(turn, events[e]))
    {
      assert used[i] == used[..][i];
      if !used[i] {
        var delta := Delta(turn, events[i]);
        if best == -1 || delta < bestDelta {
          best, bestDelta := i, delta;
        }
      }
    }
  }

  /** Without events no turn can choose anything. */
  lemma {:induction false} NoPicks(turns: seq<Turn>, tolerance: int) returns (picks: Picks)
    ensures |picks| == |turns| && forall k :: 0 <= k < |picks| ==> picks[k] == None
    ensures IsGreedy(turns, [], tolerance, picks)
    ensures Attached(turns, [], picks) == map[]
  {
    picks := [];
    if turns != [] {
      var last := |turns| - 1;
      hide IsGreedy;
      var earlier := NoPicks(turns[..last], tolerance);
      picks := earlier + [None];
      OneMoreChoice(turns[..last], [], tolerance, earlier, turns[last], None);
      assert turns[..last] + [turns[last]] == turns && picks[..last] == earlier;
    }
  }

  lemma UsedAfter(picks: Picks, choice: Option<nat>)
    ensures Used(picks + [choice]) == Used(picks) + (if choice.Some? then {choice.value} else {})
  {
    var after := picks + [choice];
    forall e | e in Used(picks) ensures e in Used(after) {
      var k :| 0 <= k < |picks| && picks[k] == Some(e);
      assert after[k] == Some(e);
    }
    if choice.Some? { assert after[|picks|] == choice; }
  }

  lemma UsedBefore(picks: Picks, k: nat)
    requires k <= |picks|
    ensures Used(picks[..k]) <= Used(picks)
  {
    forall e | e in Used(picks[..k]) ensures e in Used(picks) {
      var i :| 0 <= i < k && picks[..k][i] == Some(e);
      assert picks[i] == Some(e);
    }
  }

  /** What turn `k` chose, it chose among the events left by the turns before it. */
  lemma {:induction false} ChoiceAt(turns: seq<Turn>, events: seq<UsageEvent>, tolerance: int, picks: Picks, k: nat)
    requires IsGreedy(turns, events, tolerance, picks) && k < |turns|
    ensures IsGreedyChoice(turns[k], events, tolerance, Used(picks[..k]), picks[k])
    decreases |turns|
  {
    var last := |turns| - 1;
    if k < last {
      ChoiceAt(turns[..last], events, tolerance, picks[..last], k);
      assert picks[..last][..k] == picks[..k];
    }
  }

  /** No event is given to two turns. */
  lemma PicksAreInjective(turns: seq<Turn>, events: seq<UsageEvent>, tolerance: int, picks: Picks, i: nat, j: nat)
    requires IsGreedy(turns, events, tolerance, picks)
    requires i < j < |turns| && picks[i].Some? && picks[j].Some?
    ensures picks[i].value != picks[j].value
  {
    assert picks[..j][i] == picks[i];
    assert picks[i].value in Used(picks[..j]);
    ChoiceAt(turns, events, tolerance, picks, j);
  }

  /** At the end, an unmatched assistant turn and an unused event are too far apart. */
  lemma GreedyIsMaximal(turns: seq<Turn>, events: seq<UsageEvent>, tolerance: int, picks: Picks, k: nat, e: nat)
    requires IsGreedy(turns, events, tolerance, picks)
    requires k < |turns| && turns[k].role == Assistant && picks[k] == None
    requires e < |events| && e !in Used(picks)
    ensures Delta(turns[k], events[e]) > tolerance
  {
    UsedBefore(picks, k);
    ChoiceAt(turns, events, tolerance, picks, k);
  }

  /** There is one greedy choice of events and no other. */
  lemma {:induction false} GreedyIsUnique(turns: seq<Turn>, events: seq<UsageEvent>, tolerance: int, picks: Picks, others: Picks)
    requires IsGreedy(turns, events, tolerance, picks) && IsGreedy(turns, events, tolerance, others)
    ensures picks == others
    decreases |turns|
  {
    if turns != [] {
      var last := |turns| - 1;
      GreedyIsUnique(turns[..last], events, tolerance, picks[..last], others[..last]);
      assert picks == picks[..last] + [picks[last]] && others == others[..last] + [others[last]];
      OneChoice(turns[last], events, tolerance, Used(picks[..last]), picks[last], others[last]);
    }
  }

  lemma OneChoice(turn: Turn, events: seq<UsageEvent>, tolerance: int, used: set<nat>, a: Option<nat>, b: Option<nat>)
    requires IsGreedyChoice(turn, events, tolerance, used, a) && IsGreedyChoice(turn, events, tolerance, used, b)
    ensures a == b
  {
  }

  /** The first event at a time. */
  ghost predicate IsFirstAt(events: seq<UsageEvent>, ts: int, e: nat) {
    e < |events| && events[e].ts == ts && forall i :: 0 <= i < e ==> events[i].ts != ts
  }

  /** When no two assistant turns have the same time, a turn takes the first event of exactly its own time, if there is one for each. */
  lemma {:induction false} ExactTimesMatch(turns: seq<Turn>, events: seq<UsageEvent>, tolerance: nat, picks: Picks, first: seq<nat>)
    requires IsGreedy(turns, events, tolerance, picks) && |first| == |turns|
    requires forall k :: 0 <= k < |turns| && turns[k].role == Assistant ==> IsFirstAt(events, turns[k].ts, first[k])
    requires forall i, j :: 0 <= i < j < |turns| && turns[i].role == Assistant && turns[j].role == Assistant ==> turns[i].ts != turns[j].ts
    ensures forall k :: 0 <= k < |turns| ==> picks[k] == if turns[k].role == Assistant then Some(first[k]) else None
    decreases |turns|
  {
    if turns != [] {
      var last := |turns| - 1;
      var earlier, before := turns[..last], picks[..last];
      ExactTimesMatch(earlier, events, tolerance, before, first[..last]);
      if turns[last].role == Assistant {
        forall e | e in Used(before) ensures e < |events| && events[e].ts != turns[last].ts {
          var k :| 0 <= k < last && before[k] == Some(e);
          assert e == first[k] && IsFirstAt(events, turns[k].ts, first[k]);
        }
        assert first[last] !in Used(before) && Delta(turns[last], events[first[last]]) == 0;
      }
    }
  }

  /** Unless told otherwise, a lone turn takes a lone event exactly if it is an assistant's and ten seconds away at most. */
  lemma LonePairMatchesIff(turn: Turn, event: UsageEvent, choice: Option<nat>)
    requires IsGreedy([turn], [event], MATCH_TOLERANCE_MS, [choice])
    ensures choice == if turn.role == Assistant && -10_000 <= event.ts - turn.ts <= 10_000 then Some(0) else None
  {
    ChoiceAt([turn], [event], MATCH_TOLERANCE_MS, [choice], 0);
    assert Used([choice][..0]) == {};
    assert [event][0] == event;
  }

  /** Any one-to-one pairing of assistant turns with events within the tolerance. */
  ghost predicate IsMatching(turns: seq<Turn>, events: seq<UsageEvent>, tolerance: int, pairing: map<nat, nat>) {
    && (forall k | k in pairing ::
          && k < |turns| && turns[k].role == Assistant
          && pairing[k] < |events|
          && Delta(turns[k], events[pairing[k]]) <= tolerance)
    && forall i, j | i in pairing && j in pairing && i != j :: pairing[i] != pairing[j]
  }

  ghost function MatchedTurns(picks: Picks): set<nat> { set k: nat | k < |picks| && picks[k].Some? }

  lemma MatchedAfter(picks: Picks, choice: Option<nat>)
    ensures MatchedTurns(picks + [choice]) == MatchedTurns(picks) + (if choice.Some? then {|picks|} else {})
  {
  }

  /** As many turns are matched as events are used. */
  lemma {:induction false} MatchedTurnsCount(turns: seq<Turn>, events: seq<UsageEvent>, tolerance: int, picks: Picks)
    requires IsGreedy(turns, events, tolerance, picks)
    ensures |MatchedTurns(picks)| == |Used(picks)|
    decreases |picks|
  {
    if picks == [] {
      assert MatchedTurns(picks) == {} && Used(picks) == {};
    } else {
      var last := |picks| - 1;
      var earlier, choice := picks[..last], picks[last];
      MatchedTurnsCount(turns[..last], events, tolerance, earlier);
      assert earlier + [choice] == picks;
      UsedAfter(earlier, choice);
      MatchedAfter(earlier, choice);
    }
  }

  /** An injective map takes a set of keys to at least as many values. */
  lemma {:induction false} InjectiveImage(keys: set<nat>, pairing: map<nat, nat>, values: set<nat>)
    requires keys <= pairing.Keys
    requires forall k | k in keys :: pairing[k] in values
    requires forall i, j | i in keys && j in keys && i != j :: pairing[i] != pairing[j]
    ensures |keys| <= |values|
    decreases keys
  {
    if keys != {} {
      var k :| k in keys;
      InjectiveImage(keys - {k}, pairing, values - {pairing[k]});
    }
  }

  /** The greedy matching has at least half as many pairs as any other one. */
  lemma GreedyIsHalfOptimal(turns: seq<Turn>, events: seq<UsageEvent>, tolerance: int, picks: Picks, other: map<nat, nat>)
    requires IsGreedy(turns, events, tolerance, picks)
    requires IsMatching(turns, events, tolerance, other)
    ensures |other| <= 2 * |MatchedTurns(picks)|
  {
    var served := set k | k in other && k in MatchedTurns(picks);
    var unserved := set k | k in other && k !in MatchedTurns(picks);
    forall k | k in unserved ensures other[k] in Used(picks) {
      if other[k] !in Used(picks) {
        GreedyIsMaximal(turns, events, tolerance, picks, k, other[k]);
      }
    }
    InjectiveImage(unserved, other, Used(picks));
    MatchedTurnsCount(turns, events, tolerance, picks);
    assert other.Keys == served + unserved;
    SubsetSize(served, MatchedTurns(picks));
  }

  lemma {:induction false} SubsetSize(part: set<nat>, whole: set<nat>)
    requires part <= whole
    ensures |part| <= |whole|
  {
    assert whole == part + (whole - part);
  }

  /** The bound is reached: of two turns 10 ms apart the first takes the only event the second could use. */
  lemma HalfIsReached(usage: TurnUsage)
    ensures var turns := [Turn("a", Assistant, 0), Turn("b", Assistant, 10)];
            var events := [UsageEvent(4, usage), UsageEvent(-5, usage)];
            && IsGreedy(turns, events, 6, [Some(0), None])
            && IsMatching(turns, events, 6, map[0 := 1, 1 := 0])
  {
    var first, second := Turn("a", Assistant, 0), Turn("b", Assistant, 10);
    var events := [UsageEvent(4, usage), UsageEvent(-5, usage)];
    assert Used([]) == {};
    UsedAfter([], Some(0));
    assert [] + [Some(0)] == [Some(0)] && [] + [first] == [first];
    assert IsGreedy([], events, 6, []);
    hide IsGreedy, Used;
    OneMoreChoice([], events, 6, [], first, Some(0));
    OneMoreChoice([first], events, 6, [Some(0)], second, None);
    assert [first] + [second] == [first, second] && [Some(0)] + [None] == [Some(0), None];
  }

  ghost predicate DistinctKeys(turns: seq<Turn>) {
    forall i, j :: 0 <= i < j < |turns| ==> turns[i].dedupKey != turns[j].dedupKey
  }

  /** Every entry of the result belongs to a matched turn. */
  lemma {:induction false} AttachedOrigin(turns: seq<Turn>, events: seq<UsageEvent>, picks: Picks, key: string) returns (k: nat)
    requires |picks| == |turns| && InRange(events, picks)
    requires key in Attached(turns, events, picks)
    ensures k < |turns| && turns[k].dedupKey == key && picks[k].Some?
    decreases |turns|
  {
    var last := |turns| - 1;
    if picks[last].Some? && turns[last].dedupKey == key {
      k := last;
    } else {
      k := AttachedOrigin(turns[..last], events, picks[..last], key);
    }
  }

  /** With distinct turn keys a turn has an entry exactly when it is matched: its own event's usage. */
  lemma {:induction false} AttachedAt(turns: seq<Turn>, events: seq<UsageEvent>, picks: Picks, k: nat)
    requires |picks| == |turns| && InRange(events, picks) && DistinctKeys(turns)
    requires k < |turns|
    ensures turns[k].dedupKey in Attached(turns, events, picks) <==> picks[k].Some?
    ensures picks[k].Some? ==>
      Attached(turns, events, picks)[turns[k].dedupKey] == events[picks[k].value].usage
    decreases |turns|
  {
    var last := |turns| - 1;
    if k < last {
      AttachedAt(turns[..last], events, picks[..last], k);
    } else if turns[last].dedupKey in Attached(turns[..last], events, picks[..last]) {
      var j := AttachedOrigin(turns[..last], events, picks[..last], turns[last].dedupKey);
    }
  }

  /** With distinct turn keys the result has as many entries as there are matched turns. */
  lemma {:induction false} ResultSize(turns: seq<Turn>, events: seq<UsageEvent>, picks: Picks)
    requires |picks| == |turns| && InRange(events, picks) && DistinctKeys(turns)
    ensures |Attached(turns, events, picks)| == |MatchedTurns(picks)|
    decreases |turns|
  {
    if turns == [] {
      assert MatchedTurns(picks) == {};
    } else {
      var last := |turns| - 1;
      var earlier, choice := picks[..last], picks[last];
      ResultSize(turns[..last], events, earlier);
      assert earlier + [choice] == picks;
      MatchedAfter(earlier, choice);
      AttachedAt(turns, events, picks, last);
      if turns[last].dedupKey in Attached(turns[..last], events, earlier) {
        var j := AttachedOrigin(turns[..last], events, earlier, turns[last].dedupKey);
      }
    }
  }

  /** So with distinct turn keys the result has at least half as many entries as any matching has pairs. */
  lemma ResultIsHalfOptimal(turns: seq<Turn>, events: seq<UsageEvent>, tolerance: int, result: map<string, TurnUsage>, other: map<nat, nat>)
    requires IsGreedyResult(turns, events, tolerance, result) && DistinctKeys(turns)
    requires IsMatching(turns, events, tolerance, other)
    ensures |other| <= 2 * |result|
  {
    var picks: Picks :| IsGreedy(turns, events, tolerance, picks) && InRange(events, picks) && result == Attached(turns, events, picks);
    GreedyIsHalfOptimal(turns, events, tolerance, picks, other);
    ResultSize(turns, events, picks);
  }
}
