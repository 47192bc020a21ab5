/** The drop-down of parent IDs on the entry-creation page. */
module ParentOptions {
  import opened Wrappers
  import opened Sequences
  import opened Spiffe
  import opened Association
  import opened Dashboards
  import opened EntryForm
  import opened SpiffeHelper

  function EntryId(e: Entry): string {
    Print(e.spiffeId)
  }

  /** An agent's own id, then the ids of the node entries listed for it. */
  function OptionsOf(agents: seq<Agent>, entries: seq<Entry>): Agent -> seq<string> {
    (a: Agent) => [IdOf(a)] + Map(EntryId, IndexList(agents, IdOf(a), entries))
  }

  function ServerId(trustDomain: string): string {
    PREFIX + trustDomain + SERVER_PATH
  }

  function Options(trustDomain: string, agents: seq<Agent>, entries: seq<Entry>): seq<string> {
    [MANUAL_OPTION, ServerId(trustDomain)] + FlatMap(agents, OptionsOf(agents, entries))
  }

  /** The second option is the server's ID. */
  lemma ServerOption(trustDomain: string, agents: seq<Agent>, entries: seq<Entry>)
    requires trustDomain != "" && '/' !in trustDomain
    ensures var options := Options(trustDomain, agents, entries);
      && options[0] == MANUAL_OPTION && options[1] == "spiffe://" + trustDomain + "/spire/server"
      && Parse(options[1]) == Some((trustDomain, "/spire/server"))
  {
    hide FlatMap;
    ParseOfText(trustDomain, "/spire/server");
  }

  /** How many options come before the i-th agent. */
  function OptionsBefore(agents: seq<Agent>, entries: seq<Entry>, i: nat): nat
    requires i <= |agents|
  {
    if i == 0 then 2
    else OptionsBefore(agents, entries, i - 1) + 1 + |IndexList(agents, IdOf(agents[i - 1]), entries)|
  }

  lemma FlatMapEnds<T, U>(xs: seq<T>, f: T -> seq<U>)
    ensures FlatMap(xs[..0], f) == [] && FlatMap(xs[..|xs|], f) == FlatMap(xs, f)
  {
    assert xs[..|xs|] == xs;
  }

  lemma {:induction false} OptionsUpTo(agents: seq<Agent>, entries: seq<Entry>, i: nat)
    requires i <= |agents|
    ensures |FlatMap(agents[..i], OptionsOf(agents, entries))| + 2 == OptionsBefore(agents, entries, i)
  {
    hide FlatMap;
    hide Print;
    hide IndexList;
    if i == 0 {
      FlatMapEnds(agents, OptionsOf(agents, entries));
    } else {
      OptionsUpTo(agents, entries, i - 1);
      FlatMapStep(agents, OptionsOf(agents, entries), i - 1);
    }
  }

  lemma InTheMiddle<T>(start: seq<T>, before: seq<T>, xs: seq<T>, after: seq<T>, k: nat)
    requires k < |xs|
    ensures var all := start + (before + xs + after); var n := |start| + |before| + k; n < |all| && all[n] == xs[k]
  {
  }

  lemma OptionsOfOne(agents: seq<Agent>, i: nat, entries: seq<Entry>)
    requires i < |agents|
    ensures var own, list := OptionsOf(agents, entries)(agents[i]), IndexList(agents, IdOf(agents[i]), entries);
      && |own| == 1 + |list| && own[0] == Print(agents[i].id)
      && forall j | 0 <= j < |list| :: own[1 + j] == Print(list[j].spiffeId)
  {
    hide Print;
    hide IndexList;
  }

  lemma OptionOf(trustDomain: string, agents: seq<Agent>, entries: seq<Entry>, i: nat, k: nat)
    requires i < |agents| && k < |OptionsOf(agents, entries)(agents[i])|
    ensures var options, n := Options(trustDomain, agents, entries), OptionsBefore(agents, entries, i) + k;
      n < |options| && options[n] == OptionsOf(agents, entries)(agents[i])[k]
  {
    var f := OptionsOf(agents, entries);
    OptionsUpTo(agents, entries, i);
    hide OptionsOf;
    hide OptionsBefore;
    hide FlatMap;
    FlatMapAt(agents, f, i);
    InTheMiddle(
      [MANUAL_OPTION, ServerId(trustDomain)], FlatMap(agents[..i], f), f(agents[i]), FlatMap(agents[i + 1..], f), k);
  }

  /** Then come, agent by agent, its id and the ids of its entries, in order. */
  lemma OptionAt(trustDomain: string, agents: seq<Agent>, entries: seq<Entry>, i: nat, j: nat)
    requires i < |agents| && j < |IndexList(agents, IdOf(agents[i]), entries)|
    ensures var options, n := Options(trustDomain, agents, entries), OptionsBefore(agents, entries, i);
      && n + 1 + j < |options| && options[n] == Print(agents[i].id)
      && options[n + 1 + j] == Print(IndexList(agents, IdOf(agents[i]), entries)[j].spiffeId)
  {
    hide Options;
    hide OptionsOf;
    hide OptionsBefore;
    hide IndexList;
    hide Print;
    OptionsOfOne(agents, i, entries);
    OptionOf(trustDomain, agents, entries, i, 0);
    OptionOf(trustDomain, agents, entries, i, 1 + j);
  }

  /** An agent without entries is offered alike. */
  lemma AgentOption(trustDomain: string, agents: seq<Agent>, entries: seq<Entry>, i: nat)
    requires i < |agents|
    ensures var options, n := Options(trustDomain, agents, entries), OptionsBefore(agents, entries, i);
      n < |options| && options[n] == Print(agents[i].id)
  {
    hide Options;
    hide OptionsOf;
    hide OptionsBefore;
    hide IndexList;
    hide Print;
    OptionsOfOne(agents, i, entries);
    OptionOf(trustDomain, agents, entries, i, 0);
  }

  lemma IdsOfList(list: seq<Entry>, s: string)
    ensures s in Map(EntryId, list) <==> s in SpiffeIds(list)
  {
  }

  lemma OptionsOfAgent(agents: seq<Agent>, i: nat, entries: seq<Entry>, s: string)
    requires i < |agents|
    ensures s in OptionsOf(agents, entries)(agents[i]) <==> s in PieIds(agents[i], Index(agents, entries))
  {
    hide Print;
    hide IndexList;
    hide Map;
    hide SpiffeIds;
    assert agents[i] in agents;
    IdsOfList(IndexList(agents, IdOf(agents[i]), entries), s);
  }

  /** What an id's list adds is a valid id of the agent that put it there. */
  lemma ValidForSomeNamesake(agents: seq<Agent>, i: nat, entries: seq<Entry>, s: string) returns (j: nat)
    requires i < |agents| && s in PieIds(agents[i], Index(agents, entries))
    ensures j < |agents| && s in ValidIds(agents[j], entries)
  {
    InPieIds(agents, i, entries, s);
    hide PieIds;
    hide Index;
    hide Print;
    hide Nodes;
    j := i;
    if s != IdOf(agents[i]) {
      var k, n :| 0 <= k < |agents| && n in Nodes(entries) && Pushes(IdOf(agents[i]), n)(agents[k]) &&
        Print(n.spiffeId) == s;
      InAgentEntries(agents[k], entries, n);
      j := k;
    }
  }

  /** Beyond the two fixed options the page offers exactly the parents that count for some agent. */
  lemma OffersExactlyValidIds(trustDomain: string, agents: seq<Agent>, entries: seq<Entry>, s: string)
    ensures s in Options(trustDomain, agents, entries)[2..] <==>
            exists i | 0 <= i < |agents| :: s in ValidIds(agents[i], entries)
  {
    var f := OptionsOf(agents, entries);
    assert Options(trustDomain, agents, entries)[2..] == FlatMap(agents, f);
    hide OptionsOf;
    hide Index;
    hide ValidIds;
    if s in FlatMap(agents, f) {
      var a :| a in agents && s in f(a);
      var i :| 0 <= i < |agents| && agents[i] == a;
      OptionsOfAgent(agents, i, entries, s);
      var j := ValidForSomeNamesake(agents, i, entries, s);
      assert s in ValidIds(agents[j], entries);
    }
    if exists i | 0 <= i < |agents| :: s in ValidIds(agents[i], entries) {
      var i :| 0 <= i < |agents| && s in ValidIds(agents[i], entries);
      OptionsOfAgent(agents, i, entries, s);
      PieHasValidIds(agents, i, entries);
      assert agents[i] in agents;
    }
  }

  /** The inner loop: the ids of an agent's entries are appended. */
  method AppendIds(start: seq<string>, objects: seq<EntryObject>, ghost list: seq<Entry>) returns (ids: seq<string>)
    requires |objects| == |list| && forall k | 0 <= k < |list| :: objects[k].Value() == list[k]
    ensures ids == start + Map(EntryId, list)
  {
    hide Print;
    ids := start;
    for j := 0 to |objects|
      invariant |ids| == |start| + j && ids[..|start|] == start
      invariant forall k | 0 <= k < j :: ids[|start| + k] == EntryId(list[k])
    {
      ids := ids + [Print(objects[j].spiffeId)];
    }
  }

  lemma IndexAt(agents: seq<Agent>, entries: seq<Entry>, i: nat)
    requires i < |agents|
    ensures IdOf(agents[i]) in Index(agents, entries)
    ensures Index(agents, entries)[IdOf(agents[i])] == IndexList(agents, IdOf(agents[i]), entries)
  {
  }

  /** The dictionary's list for an agent has the values of its index list. */
  lemma ListOfAgent(dict: Dictionary, agents: seq<AgentObject>, entries: seq<EntryObject>, i: nat)
    requires i < |agents| && IsIndex(dict, agents, entries)
    ensures var id := Print(agents[i].id); var list := IndexList(AgentValues(agents), id, EntryValues(entries));
      id in dict && |dict[id]| == |list| && forall k | 0 <= k < |list| :: dict[id][k].Value() == list[k]
  {
    hide Print;
    hide IndexList;
    IndexAt(AgentValues(agents), EntryValues(entries), i);
  }

  lemma OptionsStep(start: seq<string>, agents: seq<Agent>, entries: seq<Entry>, i: nat)
    requires i < |agents|
    ensures var f, id := OptionsOf(agents, entries), IdOf(agents[i]);
      start + FlatMap(agents[..i + 1], f) ==
      start + FlatMap(agents[..i], f) + [id] + Map(EntryId, IndexList(agents, id, entries))
  {
    hide IdOf;
    hide IndexList;
    hide FlatMap;
    hide Map;
    FlatMapStep(agents, OptionsOf(agents, entries), i);
  }

  method FillOptions(start: seq<string>, dict: Dictionary, agents: seq<AgentObject>, entries: seq<EntryObject>)
    returns (ids: seq<string>)
    requires IsIndex(dict, agents, entries)
    ensures var values := AgentValues(agents);
      ids == start + FlatMap(values, OptionsOf(values, EntryValues(entries)))
  {
    hide Print;
    hide IndexList;
    hide FlatMap;
    hide Map;
    hide Index;
    hide IsIndex;
    hide OptionsOf;
    ghost var values, entryValues := AgentValues(agents), EntryValues(entries);
    ghost var f := OptionsOf(values, entryValues);
    ids := start;
    FlatMapEnds(values, f);
    for i := 0 to |agents|
      invariant ids == start + FlatMap(values[..i], f)
    {
      var agentSpiffeid := Print(agents[i].id);
      ListOfAgent(dict, agents, entries, i);
      OptionsStep(start, values, entryValues, i);
      ids := AppendIds(
        ids + [agentSpiffeid], dict[agentSpiffeid], IndexList(values, agentSpiffeid, entryValues));
    }
  }

  /** The list is filled position by position: manual entry, the server, then each agent with its entries.
      A second list leaves manual entry out. */
  method PrepareParentIdAgentsList(trustDomain: string, agents: seq<AgentObject>, entries: seq<EntryObject>)
    returns (ids: seq<string>, idsNoManualOption: seq<string>)
    modifies agents, entries
    ensures AgentValues(agents) == old(AgentValues(agents)) && EntryValues(entries) == old(EntryValues(entries))
    ensures ids == Options(trustDomain, AgentValues(agents), EntryValues(entries))
    ensures ids == [MANUAL_OPTION] + idsNoManualOption
  {
    hide IsIndex;
    hide Print;
    hide OptionsOf;
    hide FlatMap;
    hide Index;
    var dict := BuildIndex(agents, entries);
    ids := FillOptions([MANUAL_OPTION, PREFIX + trustDomain + SERVER_PATH], dict, agents, entries);
    idsNoManualOption := ids[1..];
  }
}
