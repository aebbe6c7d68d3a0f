/**
 * Timeline of a session: main turns and the runs of sub-agents between them
 * (apps/web/lib/history-grouping.ts, `groupHistoryAgents`).
 */
module AgentGrouping {
  import opened Prelude

  datatype Agent = Agent(id: string, parentId: Option<string>, depth: Option<int>, name: Option<string>, role: Option<string>)

  datatype Turn = Turn(dedupKey: string, ts: int, text: string, agent: Option<Agent>)

  datatype AgentRun = AgentRun(agent: Agent, turns: seq<Turn>, firstTs: int, latestTs: int)

  datatype TimelineItem =
    | Main(turn: Turn)
    | Agents(agents: seq<AgentRun>, firstTs: int, latestTs: int)

  // ---------------------------------------------------------------- one group

  /** The position of the run of agent `id`, or the number of runs when there is none. */
  function RunIndex(runs: seq<AgentRun>, id: string): (k: nat)
    ensures k <= |runs|
    ensures k < |runs| ==> runs[k].agent.id == id
    ensures forall j :: 0 <= j < k ==> runs[j].agent.id != id
  {
    if runs == [] || runs[0].agent.id == id then 0 else 1 + RunIndex(runs[1..], id)
  }

  function AddTurn(runs: seq<AgentRun>, turn: Turn): seq<AgentRun>
    requires turn.agent.Some?
  {
    var k := RunIndex(runs, turn.agent.value.id);
    if k < |runs|
    then runs[k := runs[k].(turns := runs[k].turns + [turn], latestTs := turn.ts)]
    else runs + [AgentRun(turn.agent.value, [turn], turn.ts, turn.ts)]
  }

  ghost predicate AllAgents(turns: seq<Turn>) {
    forall k :: 0 <= k < |turns| ==> turns[k].agent.Some?
  }

  /** The runs of a stretch of agent turns, in order of first appearance. */
  ghost function Runs(turns: seq<Turn>): seq<AgentRun>
    requires AllAgents(turns)
  {
    if turns == [] then [] else AddTurn(Runs(turns[..|turns| - 1]), turns[|turns| - 1])
  }

  ghost function MinTs(turns: seq<Turn>): int
    requires turns != []
  {
    var last := |turns| - 1;
    if last == 0 then turns[0].ts else Min(MinTs(turns[..last]), turns[last].ts)
  }

  ghost function MaxTs(turns: seq<Turn>): int
    requires turns != []
  {
    var last := |turns| - 1;
    if last == 0 then turns[0].ts else Max(MaxTs(turns[..last]), turns[last].ts)
  }

  /** Stable insertion: `run` goes before the first run that does not start earlier. */
  function Insert(run: AgentRun, sorted: seq<AgentRun>): seq<AgentRun> {
    if sorted == [] || run.firstTs <= sorted[0].firstTs then [run] + sorted
    else [sorted[0]] + Insert(run, sorted[1..])
  }

  function SortByFirst(runs: seq<AgentRun>): seq<AgentRun> {
    if runs == [] then [] else Insert(runs[0], SortByFirst(runs[1..]))
  }

  ghost function Group(turns: seq<Turn>): TimelineItem
    requires turns != [] && AllAgents(turns)
  {
    Agents(SortByFirst(Runs(turns)), MinTs(turns), MaxTs(turns))
  }

  // ------------------------------------------------------------- the timeline

  /** Length of the stretch of agent turns at the start. */
  ghost function AgentStretch(turns: seq<Turn>): (n: nat)
    ensures n <= |turns| && AllAgents(turns[..n])
    ensures n < |turns| ==> turns[n].agent.None?
  {
    if turns == [] || turns[0].agent.None? then 0 else 1 + AgentStretch(turns[1..])
  }

  ghost function Timeline(turns: seq<Turn>): seq<TimelineItem>
    decreases |turns|
  {
    if turns == [] then []
    else if turns[0].agent.None? then [Main(turns[0])] + Timeline(turns[1..])
    else
      var n := AgentStretch(turns);
      [Group(turns[..n])] + Timeline(turns[n..])
  }

  method GroupHistoryAgents(turns: seq<Turn>) returns (timeline: seq<TimelineItem>)
    ensures timeline == Timeline(turns)
  {
    hide Group, AgentStretch;
    timeline := [];
    var index := 0;
    while index < |turns|
      invariant 0 <= index <= |turns|
      invariant timeline + Timeline(turns[index..]) == Timeline(turns)
    {
      var item;
      ghost var start := index;
      if turns[index].agent.None? {
        item, index := Main(turns[index]), index + 1;
      } else {
        item, index := GroupStretch(turns, index);
      }
      assert turns[start..][index - start..] == turns[index..];
      assert Timeline(turns[start..]) == [item] + Timeline(turns[index..]);
      assert timeline + ([item] + Timeline(turns[index..])) == (timeline + [item]) + Timeline(turns[index..]);
      timeline := timeline + [item];
    }
    assert Timeline(turns[index..]) == [];
  }

  /** The inner loop: the group of the stretch that begins at `start`, and where it ends. */
  method GroupStretch(turns: seq<Turn>, start: nat) returns (item: TimelineItem, index: nat)
    requires start < |turns| && turns[start].agent.Some?
    ensures index == start + AgentStretch(turns[start..]) && start < index <= |turns|
    ensures item == Group(turns[start..][..index - start])
  {
    hide AddTurn, SortByFirst;
    var grouped: seq<AgentRun> := [];
    var firstTs, latestTs := turns[start].ts, turns[start].ts;
    index := start;
    while index < |turns| && turns[index].agent.Some?
      invariant start <= index <= |turns|
      invariant AllAgents(turns[start..index])
      invariant grouped == Runs(turns[start..index])
      invariant index == start ==> firstTs == latestTs == turns[start].ts
      invariant index > start ==> firstTs == MinTs(turns[start..index]) && latestTs == MaxTs(turns[start..index])
    {
      var agentTurn := turns[index];
      assert turns[start..index + 1] == turns[start..index] + [agentTurn];
      assert turns[start..index + 1][..index - start] == turns[start..index];
      grouped := AddTurn(grouped, agentTurn);
      if agentTurn.ts < firstTs { firstTs := agentTurn.ts; }
      if agentTurn.ts > latestTs { latestTs := agentTurn.ts; }
      index := index + 1;
    }
    assert turns[start..][..index - start] == turns[start..index];
    StretchIs(turns[start..], index - start);
    item := Agents(SortByFirst(grouped), firstTs, latestTs);
  }

  lemma {:induction false} StretchIs(turns: seq<Turn>, n: nat)
    requires n <= |turns| && AllAgents(turns[..n])
    requires n < |turns| ==> turns[n].agent.None?
    ensures AgentStretch(turns) == n
    decreases n
  {
    if n > 0 {
      assert turns[..n][0] == turns[0];
      assert turns[1..][..n - 1] == turns[..n][1..];
      StretchIs(turns[1..], n - 1);
    }
  }

  // -------------------------------------------------------------- conservation

  ghost function OfAgent(turns: seq<Turn>, id: string): seq<Turn> {
    if turns == [] then []
    else
      var last := turns[|turns| - 1];
      OfAgent(turns[..|turns| - 1], id) + (if last.agent.Some? && last.agent.value.id == id then [last] else [])
  }

  ghost function FlattenRuns(runs: seq<AgentRun>): seq<Turn> {
    if runs == [] then [] else runs[0].turns + FlattenRuns(runs[1..])
  }

  ghost function TurnsOf(item: TimelineItem): seq<Turn> {
    match item
    case Main(turn) => [turn]
    case Agents(agents, _, _) => FlattenRuns(agents)
  }

  ghost function Flatten(timeline: seq<TimelineItem>): seq<Turn> {
    if timeline == [] then [] else TurnsOf(timeline[0]) + Flatten(timeline[1..])
  }

  /** The run holds exactly its agent's turns of the stretch, in their order. */
  ghost predicate IsRunOf(turns: seq<Turn>, run: AgentRun) {
    && run.turns == OfAgent(turns, run.agent.id)
    && run.turns != []
    && run.turns[0].agent == Some(run.agent)
    && run.firstTs == run.turns[0].ts
    && run.latestTs == run.turns[|run.turns| - 1].ts
  }

  ghost predicate DistinctIds(runs: seq<AgentRun>) {
    forall i, j :: 0 <= i < j < |runs| ==> runs[i].agent.id != runs[j].agent.id
  }

  lemma OfAgentAfter(turns: seq<Turn>, turn: Turn, id: string)
    ensures OfAgent(turns + [turn], id) ==
            OfAgent(turns, id) + (if turn.agent.Some? && turn.agent.value.id == id then [turn] else [])
  {
    assert (turns + [turn])[..|turns|] == turns;
  }

  lemma {:induction false} RunsAreDistinct(turns: seq<Turn>)
    requires AllAgents(turns)
    ensures DistinctIds(Runs(turns))
    decreases |turns|
  {
    if turns != [] {
      RunsAreDistinct(turns[..|turns| - 1]);
    }
  }

  lemma NoRunBefore(runs: seq<AgentRun>, turn: Turn, id: string)
    requires turn.agent.Some?
    requires RunIndex(AddTurn(runs, turn), id) == |AddTurn(runs, turn)|
    ensures RunIndex(runs, id) == |runs| && turn.agent.value.id != id
  {
    var after := AddTurn(runs, turn);
    assert forall j :: 0 <= j < |runs| ==> after[j].agent.id == runs[j].agent.id;
    assert after[RunIndex(runs, turn.agent.value.id)].agent.id == turn.agent.value.id;
  }

  /** An agent without a run has no turn in the stretch. */
  lemma {:induction false} NoRunNoTurn(turns: seq<Turn>, id: string)
    requires AllAgents(turns)
    requires RunIndex(Runs(turns), id) == |Runs(turns)|
    ensures OfAgent(turns, id) == []
    decreases |turns|
  {
    if turns != [] {
      var earlier, turn := turns[..|turns| - 1], turns[|turns| - 1];
      NoRunBefore(Runs(earlier), turn, id);
      NoRunNoTurn(earlier, id);
    }
  }

  lemma {:induction false} RunsHold(turns: seq<Turn>, k: nat)
    requires AllAgents(turns) && k < |Runs(turns)|
    ensures IsRunOf(turns, Runs(turns)[k])
    decreases |turns|
  {
    var earlier, turn := turns[..|turns| - 1], turns[|turns| - 1];
    var runs, run := Runs(earlier), Runs(turns)[k];
    assert earlier + [turn] == turns;
    OfAgentAfter(earlier, turn, run.agent.id);
    if k < |runs| {
      RunsHold(earlier, k);
      RunsAreDistinct(earlier);
    } else {
      NoRunNoTurn(earlier, run.agent.id);
    }
  }

  /** The turns held by a list of runs, in no order. */
  ghost function TurnBag(runs: seq<AgentRun>): multiset<Turn> {
    if runs == [] then multiset{} else multiset(runs[0].turns) + TurnBag(runs[1..])
  }

  lemma {:induction false} BagOfFlattened(runs: seq<AgentRun>)
    ensures multiset(FlattenRuns(runs)) == TurnBag(runs)
    decreases |runs|
  {
    if runs != [] {
      BagOfFlattened(runs[1..]);
    }
  }

  lemma {:induction false} BagAfter(runs: seq<AgentRun>, run: AgentRun)
    ensures TurnBag(runs + [run]) == TurnBag(runs) + multiset(run.turns)
    decreases |runs|
  {
    if runs == [] {
      assert ([] + [run])[1..] == [];
    } else {
      assert (runs + [run])[1..] == runs[1..] + [run];
      BagAfter(runs[1..], run);
    }
  }

  lemma {:induction false} BagOfUpdate(runs: seq<AgentRun>, k: nat, run: AgentRun, turn: Turn)
    requires k < |runs| && run.turns == runs[k].turns + [turn]
    ensures TurnBag(runs[k := run]) == TurnBag(runs) + multiset{turn}
    decreases |runs|
  {
    if k == 0 {
      assert runs[0 := run][1..] == runs[1..];
    } else {
      assert runs[k := run][1..] == runs[1..][k - 1 := run];
      BagOfUpdate(runs[1..], k - 1, run, turn);
    }
  }

  lemma {:induction false} RunsConserve(turns: seq<Turn>)
    requires AllAgents(turns)
    ensures TurnBag(Runs(turns)) == multiset(turns)
    decreases |turns|
  {
    if turns != [] {
      var earlier, turn := turns[..|turns| - 1], turns[|turns| - 1];
      RunsConserve(earlier);
      assert turns == earlier + [turn];
      var runs := Runs(earlier);
      var k := RunIndex(runs, turn.agent.value.id);
      var run := AddTurn(runs, turn)[k];
      if k < |runs| {
        BagOfUpdate(runs, k, run, turn);
      } else {
        BagAfter(runs, run);
      }
    }
  }

  // ------------------------------------------------------------------ ordering

  /** In order of first activity; runs that began together keep the order in which they appeared. */
  ghost predicate InOrder(sorted: seq<AgentRun>, appeared: seq<AgentRun>) {
    forall i, j :: 0 <= i < j < |sorted| ==> Before(sorted[i], sorted[j], appeared)
  }

  ghost predicate Before(a: AgentRun, b: AgentRun, appeared: seq<AgentRun>) {
    || a.firstTs < b.firstTs
    || (a.firstTs == b.firstTs && RunIndex(appeared, a.agent.id) < RunIndex(appeared, b.agent.id))
  }

  lemma {:induction false} InsertKeeps(run: AgentRun, sorted: seq<AgentRun>)
    ensures multiset(Insert(run, sorted)) == multiset(sorted) + multiset{run}
    decreases |sorted|
  {
    if sorted != [] && sorted[0].firstTs < run.firstTs {
      InsertKeeps(run, sorted[1..]);
      assert sorted == [sorted[0]] + sorted[1..];
    }
  }

  lemma {:induction false} InsertKeepsTurns(run: AgentRun, sorted: seq<AgentRun>)
    ensures TurnBag(Insert(run, sorted)) == TurnBag(sorted) + multiset(run.turns)
    decreases |sorted|
  {
    if sorted == [] || run.firstTs <= sorted[0].firstTs {
      assert ([run] + sorted)[1..] == sorted;
    } else {
      InsertKeepsTurns(run, sorted[1..]);
      assert Insert(run, sorted)[1..] == Insert(run, sorted[1..]);
    }
  }

  lemma {:induction false} InsertInOrder(run: AgentRun, sorted: seq<AgentRun>, appeared: seq<AgentRun>)
    requires InOrder(sorted, appeared)
    requires forall k :: 0 <= k < |sorted| ==>
      RunIndex(appeared, run.agent.id) < RunIndex(appeared, sorted[k].agent.id)
    ensures InOrder(Insert(run, sorted), appeared)
    decreases |sorted|
  {
    if sorted != [] && sorted[0].firstTs < run.firstTs {
      InsertInOrder(run, sorted[1..], appeared);
      InsertKeeps(run, sorted[1..]);
      var after := Insert(run, sorted[1..]);
      forall j | 0 <= j < |after| ensures Before(sorted[0], after[j], appeared) {
        assert after[j] in multiset(after);
        assert after[j] == run || after[j] in sorted[1..];
      }
    }
  }

  lemma {:induction false} SortKeeps(runs: seq<AgentRun>)
    ensures multiset(SortByFirst(runs)) == multiset(runs)
    decreases |runs|
  {
    hide Insert;
    if runs != [] {
      SortKeeps(runs[1..]);
      InsertKeeps(runs[0], SortByFirst(runs[1..]));
      assert runs == [runs[0]] + runs[1..];
    }
  }

  lemma {:induction false} SortKeepsTurns(runs: seq<AgentRun>)
    ensures TurnBag(SortByFirst(runs)) == TurnBag(runs)
    decreases |runs|
  {
    hide Insert;
    if runs != [] {
      SortKeepsTurns(runs[1..]);
      InsertKeepsTurns(runs[0], SortByFirst(runs[1..]));
    }
  }

  lemma {:induction false} SortIsInOrder(runs: seq<AgentRun>, from: nat)
    requires DistinctIds(runs) && from <= |runs|
    ensures InOrder(SortByFirst(runs[from..]), runs)
    decreases |runs| - from
  {
    if from < |runs| {
      SortIsInOrder(runs, from + 1);
      assert runs[from..][1..] == runs[from + 1..];
      var sorted := SortByFirst(runs[from + 1..]);
      forall k | 0 <= k < |sorted|
        ensures RunIndex(runs, runs[from].agent.id) < RunIndex(runs, sorted[k].agent.id)
      {
        var j := SortedFrom(runs[from + 1..], k);
        IndexOfOwn(runs, from);
        IndexOfOwn(runs, from + 1 + j);
      }
      InsertInOrder(runs[from], sorted, runs);
    }
  }

  lemma SortedFrom(runs: seq<AgentRun>, k: nat) returns (j: nat)
    requires k < |SortByFirst(runs)|
    ensures j < |runs| && runs[j] == SortByFirst(runs)[k]
  {
    SortKeeps(runs);
    assert SortByFirst(runs)[k] in multiset(runs);
    j :| 0 <= j < |runs| && runs[j] == SortByFirst(runs)[k];
  }

  lemma IndexOfOwn(runs: seq<AgentRun>, k: nat)
    requires DistinctIds(runs) && k < |runs|
    ensures RunIndex(runs, runs[k].agent.id) == k
  {
  }

  // ------------------------------------------------------------- main results

  /** The runs of a stretch: one per agent, each with that agent's turns in order, sorted by first activity. */
  lemma GroupIsOrdered(turns: seq<Turn>, i: nat)
    requires turns != [] && AllAgents(turns)
    requires i < |Group(turns).agents|
    ensures IsRunOf(turns, Group(turns).agents[i])
    ensures InOrder(Group(turns).agents, Runs(turns))
  {
    var runs := Runs(turns);
    RunsAreDistinct(turns);
    SortIsInOrder(runs, 0);
    assert runs[0..] == runs;
    var j := SortedFrom(runs, i);
    RunsHold(turns, j);
  }

  lemma GroupHasOneRunPerAgent(turns: seq<Turn>, i: nat, j: nat)
    requires turns != [] && AllAgents(turns)
    requires i < j < |Group(turns).agents|
    ensures Group(turns).agents[i].agent.id != Group(turns).agents[j].agent.id
  {
    GroupIsOrdered(turns, i);
    assert Before(Group(turns).agents[i], Group(turns).agents[j], Runs(turns));
    GroupIsOrdered(turns, j);
  }

  /** The group's first and latest times are the true extremes of its turns, sorted input or not. */
  lemma {:induction false} GroupTimesAreExtremes(turns: seq<Turn>)
    requires turns != []
    ensures forall k :: 0 <= k < |turns| ==> MinTs(turns) <= turns[k].ts <= MaxTs(turns)
    ensures exists k :: 0 <= k < |turns| && turns[k].ts == MinTs(turns)
    ensures exists k :: 0 <= k < |turns| && turns[k].ts == MaxTs(turns)
    decreases |turns|
  {
    var last := |turns| - 1;
    if last == 0 {
      assert turns[0].ts == MinTs(turns) == MaxTs(turns);
    } else {
      var earlier := turns[..last];
      GroupTimesAreExtremes(earlier);
      assert forall k :: 0 <= k < last ==> earlier[k] == turns[k];
      var low :| 0 <= low < last && earlier[low].ts == MinTs(earlier);
      var high :| 0 <= high < last && earlier[high].ts == MaxTs(earlier);
      var lowest := if turns[last].ts < turns[low].ts then last else low;
      var highest := if turns[high].ts < turns[last].ts then last else high;
      assert turns[lowest].ts == MinTs(turns);
      assert turns[highest].ts == MaxTs(turns);
    }
  }

  /** Two groups of agents never follow one another. */
  lemma {:induction false} NoAdjacentGroups(turns: seq<Turn>, k: nat)
    requires k + 1 < |Timeline(turns)|
    ensures !(Timeline(turns)[k].Agents? && Timeline(turns)[k + 1].Agents?)
    decreases |turns|
  {
    var rest := if turns[0].agent.None? then turns[1..] else turns[AgentStretch(turns)..];
    assert Timeline(turns)[1..] == Timeline(rest);
    if k > 0 {
      NoAdjacentGroups(rest, k - 1);
    }
  }

  /** Every turn is kept, once. */
  lemma GroupConserves(turns: seq<Turn>)
    requires turns != [] && AllAgents(turns)
    ensures multiset(TurnsOf(Group(turns))) == multiset(turns)
    ensures |TurnsOf(Group(turns))| == |turns|
  {
    BagOfFlattened(SortByFirst(Runs(turns)));
    SortKeepsTurns(Runs(turns));
    RunsConserve(turns);
    assert |multiset(TurnsOf(Group(turns)))| == |multiset(turns)|;
  }

  lemma FirstItem(turns: seq<Turn>) returns (n: nat)
    requires turns != []
    ensures n == if turns[0].agent.None? then 1 else AgentStretch(turns)
    ensures 0 < n <= |turns| && turns == turns[..n] + turns[n..]
    ensures Timeline(turns) != [] && Timeline(turns)[1..] == Timeline(turns[n..])
    ensures multiset(TurnsOf(Timeline(turns)[0])) == multiset(turns[..n])
    ensures |TurnsOf(Timeline(turns)[0])| == n
  {
    n := if turns[0].agent.None? then 1 else AgentStretch(turns);
    if turns[0].agent.Some? {
      hide Group;
      GroupConserves(turns[..n]);
    } else {
      assert turns[..1] == [turns[0]];
    }
  }

  lemma {:induction false} TimelineConserves(turns: seq<Turn>)
    ensures multiset(Flatten(Timeline(turns))) == multiset(turns)
    ensures |Flatten(Timeline(turns))| == |turns|
    decreases |turns|
  {
    if turns != [] {
      hide Timeline, TurnsOf;
      var n := FirstItem(turns);
      TimelineConserves(turns[n..]);
      assert multiset(turns) == multiset(turns[..n]) + multiset(turns[n..]);
    }
  }

  /** A main turn keeps its place among all turns. */
  lemma {:induction false} MainTurnsKeepTheirPlace(turns: seq<Turn>, k: nat)
    requires k < |turns| && turns[k].agent.None?
    ensures |Flatten(Timeline(turns))| == |turns|
    ensures Flatten(Timeline(turns))[k] == turns[k]
    decreases |turns|
  {
    TimelineConserves(turns);
    var n := if turns[0].agent.None? then 1 else AgentStretch(turns);
    assert Timeline(turns)[1..] == Timeline(turns[n..]);
    if turns[0].agent.Some? {
      GroupConserves(turns[..n]);
      assert forall j :: 0 <= j < n ==> turns[..n][j] == turns[j];
    }
    if k >= n {
      MainTurnsKeepTheirPlace(turns[n..], k - n);
      assert turns[n..][k - n] == turns[k];
    }
  }

  // ------------------------------------------------ each agent keeps its order

  lemma {:induction false} OfAgentConcat(a: seq<Turn>, b: seq<Turn>, id: string)
    ensures OfAgent(a + b, id) == OfAgent(a, id) + OfAgent(b, id)
    decreases |b|
  {
    if b == [] {
      assert a + b == a;
    } else {
      var earlier, last := b[..|b| - 1], b[|b| - 1];
      assert (a + b)[..|a + b| - 1] == a + earlier;
      OfAgentConcat(a, earlier, id);
    }
  }

  /** All of these turns belong to one agent. */
  ghost predicate AllOf(turns: seq<Turn>, id: string) {
    forall k :: 0 <= k < |turns| ==> turns[k].agent.Some? && turns[k].agent.value.id == id
  }

  lemma {:induction false} OfAgentUniform(turns: seq<Turn>, own: string, id: string)
    requires AllOf(turns, own)
    ensures OfAgent(turns, id) == if id == own then turns else []
    decreases |turns|
  {
    if turns != [] {
      OfAgentUniform(turns[..|turns| - 1], own, id);
    }
  }

  lemma {:induction false} OfAgentIsUniform(turns: seq<Turn>, id: string)
    ensures AllOf(OfAgent(turns, id), id)
    decreases |turns|
  {
    if turns != [] {
      OfAgentIsUniform(turns[..|turns| - 1], id);
    }
  }

  /** In a list of runs with distinct agents, an agent's turns are those of its own run. */
  lemma {:induction false} OfAgentInRuns(runs: seq<AgentRun>, id: string)
    requires DistinctIds(runs)
    requires forall k :: 0 <= k < |runs| ==> AllOf(runs[k].turns, runs[k].agent.id)
    ensures OfAgent(FlattenRuns(runs), id) ==
            if RunIndex(runs, id) < |runs| then runs[RunIndex(runs, id)].turns else []
    decreases |runs|
  {
    if runs != [] {
      OfAgentConcat(runs[0].turns, FlattenRuns(runs[1..]), id);
      OfAgentUniform(runs[0].turns, runs[0].agent.id, id);
      OfAgentInRuns(runs[1..], id);
    }
  }

  lemma GroupKeepsAgentOrder(turns: seq<Turn>, id: string)
    requires turns != [] && AllAgents(turns)
    ensures OfAgent(TurnsOf(Group(turns)), id) == OfAgent(turns, id)
  {
    var runs, sorted := Runs(turns), SortByFirst(Runs(turns));
    forall i, j | 0 <= i < j < |sorted| ensures sorted[i].agent.id != sorted[j].agent.id {
      GroupHasOneRunPerAgent(turns, i, j);
    }
    forall k | 0 <= k < |sorted| ensures AllOf(sorted[k].turns, sorted[k].agent.id) {
      GroupIsOrdered(turns, k);
      OfAgentIsUniform(turns, sorted[k].agent.id);
    }
    OfAgentInRuns(sorted, id);
    var place := RunIndex(sorted, id);
    if place < |sorted| {
      GroupIsOrdered(turns, place);
    } else {
      forall j | 0 <= j < |runs| ensures runs[j].agent.id != id {
        SortKeeps(runs);
        assert runs[j] in multiset(runs);
        var k :| 0 <= k < |sorted| && sorted[k] == runs[j];
      }
      NoRunNoTurn(turns, id);
    }
  }

  /** Reading the timeline from the top gives every agent's turns in their original order. */
  lemma {:induction false} AgentsKeepTheirOrder(turns: seq<Turn>, id: string)
    ensures OfAgent(Flatten(Timeline(turns)), id) == OfAgent(turns, id)
    decreases |turns|
  {
    if turns != [] {
      var n := if turns[0].agent.None? then 1 else AgentStretch(turns);
      AgentsKeepTheirOrder(turns[n..], id);
      assert turns == turns[..n] + turns[n..];
      assert Timeline(turns)[1..] == Timeline(turns[n..]);
      OfAgentConcat(turns[..n], turns[n..], id);
      OfAgentConcat(TurnsOf(Timeline(turns)[0]), Flatten(Timeline(turns[n..])), id);
      if turns[0].agent.Some? {
        GroupKeepsAgentOrder(turns[..n], id);
      } else {
        assert turns[..1] == [turns[0]];
      }
    }
  }
}
