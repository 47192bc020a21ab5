/**
  The helper's operations on agent and entry objects. Undefined selectors are replaced by an empty list in the
  object itself; Value() reads both the same way, so the laws about values apply before and after.
 */
module SpiffeHelper {
  import opened Wrappers
  import opened Sequences
  import opened Spiffe
  import opened Association
  import opened Dashboards

  class AgentObject {
    const id: SpiffeId
    var selectors: Option<seq<Selector>>

    constructor (id: SpiffeId, selectors: Option<seq<Selector>>)
      ensures this.id == id && this.selectors == selectors
    {
      this.id, this.selectors := id, selectors;
    }

    function Value(): Agent
      reads this
    {
      Agent(id, if selectors.Some? then selectors.value else [])
    }

    method SelectorSet() returns (formats: set<string>)
      modifies this
      ensures Value() == old(Value()) && selectors.Some? && formats == Formats(Value().selectors)
    {
      if selectors.None? {
        selectors := Some([]);
      }
      formats := Formats(selectors.value);
    }
  }

  class EntryObject {
    const spiffeId: SpiffeId
    const parentId: SpiffeId
    var selectors: Option<seq<Selector>>

    constructor (spiffeId: SpiffeId, parentId: SpiffeId, selectors: Option<seq<Selector>>)
      ensures this.spiffeId == spiffeId && this.parentId == parentId && this.selectors == selectors
    {
      this.spiffeId, this.parentId, this.selectors := spiffeId, parentId, selectors;
    }

    function Value(): Entry
      reads this
    {
      Entry(spiffeId, parentId, if selectors.Some? then selectors.value else [])
    }

    method SelectorSet() returns (formats: set<string>)
      modifies this
      ensures Value() == old(Value()) && selectors.Some? && formats == Formats(Value().selectors)
    {
      if selectors.None? {
        selectors := Some([]);
      }
      formats := Formats(selectors.value);
    }
  }

  function EntryValues(es: seq<EntryObject>): (r: seq<Entry>)
    reads es
    ensures |r| == |es| && forall i | 0 <= i < |es| :: r[i] == es[i].Value()
  {
    seq(|es|, i requires 0 <= i < |es| reads es => es[i].Value())
  }

  function AgentValues(xs: seq<AgentObject>): (r: seq<Agent>)
    reads xs
    ensures |r| == |xs| && forall i | 0 <= i < |xs| :: r[i] == xs[i].Value()
  {
    seq(|xs|, i requires 0 <= i < |xs| reads xs => xs[i].Value())
  }

  /** The objects are taken from the pool and have these values. */
  ghost predicate Mirrors(objects: seq<EntryObject>, values: seq<Entry>, pool: seq<EntryObject>)
    reads objects
  {
    && |objects| == |values|
    && forall k | 0 <= k < |values| :: objects[k] in pool && objects[k].Value() == values[k]
  }

  twostate predicate SameEntries(es: seq<EntryObject>)
    reads es
  {
    forall e | e in es :: e.Value() == old(e.Value())
  }

  /** entries.filter: those parented by the server. */
  method NodeEntries(entries: seq<EntryObject>) returns (nodes: seq<EntryObject>)
    ensures Mirrors(nodes, Nodes(EntryValues(entries)), entries)
  {
    hide Filter;
    nodes := [];
    ghost var values, kept: seq<Entry> := EntryValues(entries), [];
    FilterEnds(values, IsNode);
    for i := 0 to |entries|
      invariant kept == Filter(values[..i], IsNode) && |nodes| == |kept|
      invariant forall k | 0 <= k < |kept| :: nodes[k] in entries && nodes[k].Value() == kept[k]
    {
      FilterStep(values, IsNode, i);
      if entries[i].parentId.path == Some(SERVER_PATH) {
        nodes, kept := nodes + [entries[i]], kept + [values[i]];
      }
    }
  }

  /** The closure that tests one entry against an agent's selectors. */
  method IsAssocWithAgent(e: EntryObject, agentSelectors: set<string>, ghost a: Agent) returns (isAssoc: bool)
    requires agentSelectors == Formats(a.selectors)
    modifies e
    ensures e.Value() == old(e.Value()) && isAssoc == CoveredBy(a)(e.Value())
  {
    var entrySelectors := e.SelectorSet();
    isAssoc := entrySelectors <= agentSelectors;
  }

  /** nodeEntries.filter(isAssocWithAgent). */
  method Associated(nodes: seq<EntryObject>, agentSelectors: set<string>, ghost a: Agent)
    returns (result: seq<EntryObject>)
    requires agentSelectors == Formats(a.selectors)
    modifies nodes
    ensures SameEntries(nodes)
    ensures Mirrors(result, Filter(EntryValues(nodes), CoveredBy(a)), nodes)
  {
    hide Filter;
    hide Formats;
    hide Covers;
    result := [];
    ghost var values, kept: seq<Entry> := EntryValues(nodes), [];
    FilterEnds(values, CoveredBy(a));
    for i := 0 to |nodes|
      invariant forall k | 0 <= k < |nodes| :: nodes[k].Value() == values[k]
      invariant kept == Filter(values[..i], CoveredBy(a)) && |result| == |kept|
      invariant forall k | 0 <= k < |kept| :: result[k] in nodes && result[k].Value() == kept[k]
    {
      FilterStep(values, CoveredBy(a), i);
      var isAssoc := IsAssocWithAgent(nodes[i], agentSelectors, a);
      if isAssoc {
        result, kept := result + [nodes[i]], kept + [values[i]];
      }
    }
    assert EntryValues(nodes) == values;
  }

  method GetAgentEntries(agent: AgentObject?, entries: seq<EntryObject>) returns (result: seq<EntryObject>)
    modifies agent, entries
    ensures SameEntries(entries) && (agent != null ==> agent.Value() == old(agent.Value()))
    ensures agent == null ==> result == []
    ensures agent != null ==> Mirrors(result, AgentEntries(agent.Value(), EntryValues(entries)), entries)
  {
    hide Formats;
    hide Filter;
    result := [];
    var nodes := NodeEntries(entries);
    if agent == null {
      return;
    }
    ghost var a := agent.Value();
    var agentSelectors := agent.SelectorSet();
    assert EntryValues(nodes) == Nodes(EntryValues(entries));
    result := Associated(nodes, agentSelectors, a);
    assert EntryValues(entries) == old(EntryValues(entries)) && EntryValues(nodes) == Nodes(EntryValues(entries));
  }

  // ----- getAgentsEntries

  /** What a closure captures: the agent's id and its selectors. */
  datatype Lambda = Lambda(agentId: string, agentSelectors: set<string>)

  type Dictionary = map<string, seq<EntryObject>>

  function LambdaOf(a: Agent): Lambda {
    Lambda(IdOf(a), Formats(a.selectors))
  }

  /** The values of the objects at hand, fixed while the objects get their undefined selectors filled in. */
  type Values = map<EntryObject, Entry>

  ghost predicate Faithful(values: Values)
    reads values.Keys
  {
    forall e | e in values :: e.Value() == values[e]
  }

  ghost predicate ListIs(objects: seq<EntryObject>, list: seq<Entry>, values: Values) {
    && |objects| == |list|
    && forall k | 0 <= k < |list| :: objects[k] in values && values[objects[k]] == list[k]
  }

  /** The objects of each list have the values that f gives for its id. */
  ghost predicate Lists(dict: Dictionary, f: string -> seq<Entry>, values: Values) {
    forall id | id in dict :: ListIs(dict[id], f(id), values)
  }

  /** The lists after the first i node entries, and the first j closures on the next one. */
  ghost function ListsAt(agents: seq<Agent>, nodes: seq<Entry>, i: nat): string -> seq<Entry>
    requires i <= |nodes|
  {
    id => FlatMap(nodes[..i], PushedBy(agents, id))
  }

  ghost function ListsWithin(f: string -> seq<Entry>, agents: seq<Agent>, e: Entry, j: nat): string -> seq<Entry>
    requires j <= |agents|
  {
    id => f(id) + PushedBy(agents[..j], id)(e)
  }

  /** The lists once all closures have seen the entry. */
  ghost function ListsAfter(f: string -> seq<Entry>, agents: seq<Agent>, e: Entry): string -> seq<Entry> {
    id => f(id) + PushedBy(agents, id)(e)
  }

  function IdSet(agents: seq<Agent>): set<string> {
    set a | a in agents :: IdOf(a)
  }

  /** The first loop: an empty list and a closure per agent. */
  method PrepareLambdas(agents: seq<AgentObject>) returns (lambdas: seq<Lambda>, dict: Dictionary)
    modifies agents
    ensures AgentValues(agents) == old(AgentValues(agents))
    ensures lambdas == Map(LambdaOf, old(AgentValues(agents)))
    ensures dict.Keys == IdSet(old(AgentValues(agents))) && forall id | id in dict :: dict[id] == []
  {
    hide Formats;
    hide Print;
    hide IdOf;
    lambdas, dict := [], map[];
    ghost var values := AgentValues(agents);
    for i := 0 to |agents|
      invariant AgentValues(agents) == values
      invariant |lambdas| == i && forall k | 0 <= k < i :: lambdas[k] == LambdaOf(values[k])
      invariant dict.Keys == (set a | a in values[..i] :: IdOf(a)) && forall id | id in dict :: dict[id] == []
    {
      assert values[..i + 1] == values[..i] + [values[i]];
      var agentId := IdOf(agents[i].Value());
      dict := dict[agentId := []];
      var agentSelectors := agents[i].SelectorSet();
      lambdas := lambdas + [Lambda(agentId, agentSelectors)];
    }
    assert values[..|agents|] == values;
  }

  /** agentEntriesDict[agentId].push(e), if the closure's agent covers e. */
  function Push(l: Lambda, e: EntryObject, entrySelectors: set<string>, dict: Dictionary): Dictionary
    requires l.agentId in dict
  {
    if entrySelectors <= l.agentSelectors then dict[l.agentId := dict[l.agentId] + [e]] else dict
  }

  lemma AppendNothing<T>(xs: seq<T>)
    ensures xs + [] == xs
  {
  }

  /** A closure pushes onto the list of its own id only, and only entries its agent covers. */
  lemma PushAt(a: Agent, e: EntryObject, v: Entry, dict: Dictionary, id: string)
    requires IdOf(a) in dict && id in dict
    ensures var dict' := Push(LambdaOf(a), e, Formats(v.selectors), dict);
      id in dict' && dict'[id] == if Pushes(id, v)(a) then dict[id] + [e] else dict[id]
  {
  }

  lemma PushedStep(agents: seq<Agent>, id: string, e: Entry, j: nat)
    requires j < |agents|
    ensures PushedBy(agents[..j + 1], id)(e) ==
            PushedBy(agents[..j], id)(e) + if Pushes(id, e)(agents[j]) then [e] else []
  {
    FilterStep(agents, Pushes(id, e), j);
  }

  lemma ListsWithinStep(f: string -> seq<Entry>, agents: seq<Agent>, v: Entry, j: nat, id: string)
    requires j < |agents|
    ensures ListsWithin(f, agents, v, j + 1)(id) ==
            ListsWithin(f, agents, v, j)(id) + if Pushes(id, v)(agents[j]) then [v] else []
  {
    PushedStep(agents, id, v, j);
    hide Filter;
    hide Pushes;
    var a, b, c := f(id), PushedBy(agents[..j], id)(v), if Pushes(id, v)(agents[j]) then [v] else [];
    assert a + (b + c) == (a + b) + c;
  }

  lemma ListIsSnoc(objects: seq<EntryObject>, list: seq<Entry>, values: Values, e: EntryObject)
    requires e in values && ListIs(objects, list, values)
    ensures ListIs(objects + [e], list + [values[e]], values)
  {
  }

  lemma PushStepAt(
    agents: seq<Agent>, j: nat, e: EntryObject, dict: Dictionary, f: string -> seq<Entry>, values: Values, id: string)
    requires j < |agents| && IdOf(agents[j]) in dict && e in values && id in dict
    requires ListIs(dict[id], ListsWithin(f, agents, values[e], j)(id), values)
    ensures var dict' := Push(LambdaOf(agents[j]), e, Formats(values[e].selectors), dict);
      id in dict' && ListIs(dict'[id], ListsWithin(f, agents, values[e], j + 1)(id), values)
  {
    PushAt(agents[j], e, values[e], dict, id);
    hide *;
    ListsWithinStep(f, agents, values[e], j, id);
    ListIsSnoc(dict[id], ListsWithin(f, agents, values[e], j)(id), values, e);
    AppendNothing(ListsWithin(f, agents, values[e], j)(id));
  }

  lemma PushStep(agents: seq<Agent>, j: nat, e: EntryObject, dict: Dictionary, f: string -> seq<Entry>, values: Values)
    requires j < |agents| && IdOf(agents[j]) in dict && e in values
    requires Lists(dict, ListsWithin(f, agents, values[e], j), values)
    ensures var dict' := Push(LambdaOf(agents[j]), e, Formats(values[e].selectors), dict);
      dict'.Keys == dict.Keys && Lists(dict', ListsWithin(f, agents, values[e], j + 1), values)
  {
    hide ListIs;
    hide ListsWithin;
    hide Formats;
    hide IdOf;
    var dict' := Push(LambdaOf(agents[j]), e, Formats(values[e].selectors), dict);
    forall id | id in dict' ensures ListIs(dict'[id], ListsWithin(f, agents, values[e], j + 1)(id), values) {
      PushStepAt(agents, j, e, dict, f, values, id);
    }
  }

  lemma PushedEnds(agents: seq<Agent>, e: Entry, dict: Dictionary, f: string -> seq<Entry>, values: Values)
    ensures Lists(dict, f, values) ==> Lists(dict, ListsWithin(f, agents, e, 0), values)
    ensures Lists(dict, ListsWithin(f, agents, e, |agents|), values) ==>
            Lists(dict, ListsAfter(f, agents, e), values)
  {
    forall id ensures ListsWithin(f, agents, e, 0)(id) == f(id) {
      FilterEnds(agents, Pushes(id, e));
      assert f(id) + [] == f(id);
    }
    assert agents[..|agents|] == agents;
  }

  /** The inner loop of the second pass: every closure sees the entry. */
  method CallLambdas(e: EntryObject, lambdas: seq<Lambda>, dict: Dictionary,
                     ghost agents: seq<Agent>, ghost f: string -> seq<Entry>, ghost values: Values)
    returns (dict': Dictionary)
    requires lambdas == Map(LambdaOf, agents) && forall a | a in agents :: IdOf(a) in dict
    requires e in values && Faithful(values) && Lists(dict, f, values)
    modifies e
    ensures Faithful(values) && dict'.Keys == dict.Keys
    ensures Lists(dict', ListsAfter(f, agents, values[e]), values)
  {
    hide Lists;
    hide ListsWithin;
    hide Filter;
    hide Formats;
    hide Print;
    dict' := dict;
    PushedEnds(agents, values[e], dict, f, values);
    for j := 0 to |lambdas|
      invariant e.Value() == values[e] && dict'.Keys == dict.Keys
      invariant Lists(dict', ListsWithin(f, agents, values[e], j), values)
    {
      assert agents[j] in agents;
      PushStep(agents, j, e, dict', f, values);
      var entrySelectors := e.SelectorSet();
      dict' := Push(lambdas[j], e, entrySelectors, dict');
    }
    PushedEnds(agents, values[e], dict', f, values);
  }

  lemma ListsAdvance(agents: seq<Agent>, nodes: seq<Entry>, i: nat, dict: Dictionary, values: Values)
    requires i < |nodes|
    requires Lists(dict, ListsAfter(ListsAt(agents, nodes, i), agents, nodes[i]), values)
    ensures Lists(dict, ListsAt(agents, nodes, i + 1), values)
  {
    hide ListIs;
    forall id | id in dict ensures ListIs(dict[id], ListsAt(agents, nodes, i + 1)(id), values) {
      FlatMapStep(nodes, PushedBy(agents, id), i);
    }
  }

  lemma ListsStart(agents: seq<Agent>, nodes: seq<Entry>, dict: Dictionary, values: Values)
    requires forall id | id in dict :: dict[id] == []
    ensures Lists(dict, ListsAt(agents, nodes, 0), values)
  {
  }

  lemma ListsFinish(agents: seq<Agent>, entries: seq<Entry>, dict: Dictionary, values: Values)
    requires Lists(dict, ListsAt(agents, Nodes(entries), |Nodes(entries)|), values)
    requires dict.Keys == IdSet(agents)
    ensures dict.Keys == Index(agents, entries).Keys
    ensures forall id | id in dict :: ListIs(dict[id], Index(agents, entries)[id], values)
  {
    assert Nodes(entries)[..|Nodes(entries)|] == Nodes(entries);
  }

  /** The values determine what the entry objects say now. */
  lemma ValuesDetermine(entries: seq<EntryObject>, values: Values)
    requires values.Keys == (set e | e in entries) && Faithful(values)
    ensures EntryValues(entries) == seq(|entries|, i requires 0 <= i < |entries| => values[entries[i]])
  {
  }

  /** The node objects have the values of the node entries. */
  lemma NodeValues(nodes: seq<EntryObject>, entries: seq<EntryObject>, values: Values)
    requires values.Keys == (set e | e in entries) && Faithful(values)
    requires Mirrors(nodes, Nodes(EntryValues(entries)), entries)
    ensures ListIs(nodes, Nodes(EntryValues(entries)), values)
  {
  }

  /** The second loop: every node entry is shown to every closure. */
  method VisitNodes(nodes: seq<EntryObject>, lambdas: seq<Lambda>, dict: Dictionary,
                    ghost agents: seq<Agent>, ghost list: seq<Entry>, ghost values: Values)
    returns (dict': Dictionary)
    requires lambdas == Map(LambdaOf, agents) && dict.Keys == IdSet(agents)
    requires forall id | id in dict :: dict[id] == []
    requires Faithful(values) && ListIs(nodes, list, values)
    modifies values.Keys
    ensures Faithful(values) && dict'.Keys == dict.Keys
    ensures Lists(dict', ListsAt(agents, list, |list|), values)
  {
    dict' := dict;
    ListsStart(agents, list, dict, values);
    hide Faithful;
    hide Lists;
    hide ListsAt;
    hide ListsAfter;
    hide Map;
    hide IdOf;
    for i := 0 to |nodes|
      invariant Faithful(values) && dict'.Keys == dict.Keys
      invariant Lists(dict', ListsAt(agents, list, i), values)
    {
      dict' := CallLambdas(nodes[i], lambdas, dict', agents, ListsAt(agents, list, i), values);
      ListsAdvance(agents, list, i, dict', values);
    }
  }

  /** The dictionary holds, for every agent id, the objects of that id's index list. */
  ghost predicate IsIndex(dict: Dictionary, agents: seq<AgentObject>, entries: seq<EntryObject>)
    reads agents, entries
  {
    var index := Index(AgentValues(agents), EntryValues(entries));
    && dict.Keys == index.Keys
    && forall id | id in dict ::
         && |dict[id]| == |index[id]|
         && forall k | 0 <= k < |dict[id]| :: dict[id][k] in entries && dict[id][k].Value() == index[id][k]
  }

  lemma IsIndexFromLists(dict: Dictionary, agents: seq<AgentObject>, entries: seq<EntryObject>, values: Values)
    requires values.Keys == (set e | e in entries) && Faithful(values)
    requires var index := Index(AgentValues(agents), EntryValues(entries));
      dict.Keys == index.Keys && forall id | id in dict :: ListIs(dict[id], index[id], values)
    ensures IsIndex(dict, agents, entries)
  {
  }

  ghost function SnapshotOf(entries: seq<EntryObject>): (values: Values)
    reads entries
    ensures values.Keys == (set e | e in entries) && Faithful(values)
  {
    map e | e in entries :: e.Value()
  }

  method BuildIndex(agents: seq<AgentObject>, entries: seq<EntryObject>) returns (dict: Dictionary)
    modifies agents, entries
    ensures AgentValues(agents) == old(AgentValues(agents)) && EntryValues(entries) == old(EntryValues(entries))
    ensures IsIndex(dict, agents, entries)
  {
    hide Lists;
    hide ListIs;
    hide IsIndex;
    hide Index;
    hide Print;
    hide IdSet;
    hide Map;
    hide Nodes;
    hide Mirrors;
    ghost var agentValues := AgentValues(agents);
    var nodes := NodeEntries(entries);
    ghost var values: Values, entryValues := SnapshotOf(entries), EntryValues(entries);
    NodeValues(nodes, entries, values);
    ValuesDetermine(entries, values);
    var lambdas, empty := PrepareLambdas(agents);
    dict := VisitNodes(nodes, lambdas, empty, agentValues, Nodes(entryValues), values);
    forall i | 0 <= i < |agents| ensures agents[i].Value() == agentValues[i] {
    }
    assert AgentValues(agents) == agentValues;
    ListsFinish(agentValues, entryValues, dict, values);
    ValuesDetermine(entries, values);
    IsIndexFromLists(dict, agents, entries, values);
  }

  /** The one-pass index: undefined unless both lists are defined, and then the dictionary Index describes. */
  method GetAgentsEntries(agents: Option<seq<AgentObject>>, entries: Option<seq<EntryObject>>)
    returns (dict: Option<Dictionary>)
    modifies if agents.Some? then agents.value else []
    modifies if entries.Some? then entries.value else []
    ensures dict.Some? <==> agents.Some? && entries.Some?
    ensures dict.Some? ==>
      && AgentValues(agents.value) == old(AgentValues(agents.value))
      && EntryValues(entries.value) == old(EntryValues(entries.value))
      && IsIndex(dict.value, agents.value, entries.value)
  {
    if entries.None? || agents.None? {
      return None;
    }
    var index := BuildIndex(agents.value, entries.value);
    return Some(index);
  }

  // ----- getCanonicalAgentSpiffeid

  method GetCanonicalAgentSpiffeid(entry: EntryObject, agents: seq<AgentObject>) returns (id: string)
    modifies entry, agents
    ensures entry.Value() == old(entry.Value()) && AgentValues(agents) == old(AgentValues(agents))
    ensures id == CanonicalId(entry.Value(), AgentValues(agents))
  {
    hide Filter;
    hide Formats;
    hide Print;
    ghost var e, values := entry.Value(), AgentValues(agents);
    ghost var kept: seq<Agent> := [];
    var entrySelectors := entry.SelectorSet();
    var filtered: seq<AgentObject> := [];
    FilterEnds(values, Covering(e));
    for i := 0 to |agents|
      invariant entry.Value() == e && AgentValues(agents) == values
      invariant kept == Filter(values[..i], Covering(e)) && |filtered| == |kept|
      invariant forall k | 0 <= k < |kept| :: filtered[k].id == kept[k].id
    {
      FilterStep(values, Covering(e), i);
      var agentSelectors := agents[i].SelectorSet();
      if entrySelectors <= agentSelectors {
        filtered, kept := filtered + [agents[i]], kept + [values[i]];
      }
    }
    if |filtered| > 0 {
      return Print(filtered[0].id);
    }
    return "";
  }

  // ----- Counting

  /** The ids of a list of entry objects. */
  method AddSpiffeIds(ids: set<string>, objects: seq<EntryObject>, ghost list: seq<Entry>) returns (ids': set<string>)
    requires |objects| == |list| && forall k | 0 <= k < |list| :: objects[k].Value() == list[k]
    ensures ids' == ids + SpiffeIds(list)
  {
    hide Print;
    ids' := ids;
    for j := 0 to |objects|
      invariant ids' == ids + SpiffeIds(list[..j])
    {
      assert list[..j + 1] == list[..j] + [list[j]];
      ids' := ids' + {Print(objects[j].spiffeId)};
    }
    assert list[..|list|] == list;
  }

  /** globalEntries.filter(parent in ids).length. */
  method CountChildren(entries: seq<EntryObject>, ids: set<string>) returns (n: nat)
    ensures n == |Filter(EntryValues(entries), ParentIn(ids))|
  {
    n := 0;
    ghost var values := EntryValues(entries);
    FilterEnds(values, ParentIn(ids));
    for i := 0 to |entries|
      invariant n == |Filter(values[..i], ParentIn(ids))|
    {
      FilterStep(values, ParentIn(ids), i);
      if Print(entries[i].parentId) in ids {
        n := n + 1;
      }
    }
  }

  method CountEntriesOfAgent(agent: AgentObject, entries: seq<EntryObject>) returns (n: nat)
    modifies agent, entries
    ensures agent.Value() == old(agent.Value()) && EntryValues(entries) == old(EntryValues(entries))
    ensures n == NumberEntriesOfAgent(agent.Value(), EntryValues(entries))
  {
    hide Filter;
    hide Print;
    hide AgentEntries;
    var agentEntries := GetAgentEntries(agent, entries);
    assert EntryValues(entries) == old(EntryValues(entries));
    var validIds := {Print(agent.id)};
    validIds := AddSpiffeIds(validIds, agentEntries, AgentEntries(agent.Value(), EntryValues(entries)));
    n := CountChildren(entries, validIds);
  }

  /** The pie chart's value for one agent, with the dictionary it was given. */
  method GetChildEntries(agent: AgentObject, dict: Dictionary, entries: seq<EntryObject>,
                         ghost agents: seq<AgentObject>) returns (group: string, value: nat)
    requires IsIndex(dict, agents, entries)
    ensures group == IdOf(agent.Value())
    ensures value == PieValue(agent.Value(), Index(AgentValues(agents), EntryValues(entries)), EntryValues(entries))
  {
    hide Filter;
    hide Print;
    ghost var index := Index(AgentValues(agents), EntryValues(entries));
    hide Index;
    group := Print(agent.id);
    var validIds := {group};
    if group in dict {
      validIds := AddSpiffeIds(validIds, dict[group], index[group]);
    }
    assert validIds == PieIds(agent.Value(), index);
    value := CountChildren(entries, validIds);
  }

  function SliceOf(agents: seq<Agent>, entries: seq<Entry>): Agent -> (string, nat) {
    (a: Agent) => (IdOf(a), PieValue(a, Index(agents, entries), entries))
  }

  method Slices(agents: seq<AgentObject>, dict: Dictionary, entries: seq<EntryObject>)
    returns (slices: seq<(string, nat)>)
    requires IsIndex(dict, agents, entries)
    ensures slices == Map(SliceOf(AgentValues(agents), EntryValues(entries)), AgentValues(agents))
  {
    hide IsIndex;
    hide PieValue;
    hide Index;
    hide IdOf;
    slices := [];
    ghost var values, f := AgentValues(agents), SliceOf(AgentValues(agents), EntryValues(entries));
    for i := 0 to |agents|
      invariant |slices| == i && forall k | 0 <= k < i :: slices[k] == f(values[k])
    {
      var group, value := GetChildEntries(agents[i], dict, entries, agents);
      slices := slices + [(group, value)];
    }
  }

  /**
    A slice per agent, in order, under the agent's id; its value is never below the agents table's number, and above
    it exactly when an entry's parent is valid only through another agent of the same id.
   */
  ghost predicate IsPie(slices: seq<(string, nat)>, agents: seq<Agent>, entries: seq<Entry>) {
    && |slices| == |agents|
    && (forall i | 0 <= i < |agents| ::
          && slices[i].0 == Print(agents[i].id)
          && slices[i].1 >= NumberEntriesOfAgent(agents[i], entries)
          && (slices[i].1 == NumberEntriesOfAgent(agents[i], entries) <==>
              forall e | e in entries :: !ValidThroughNamesake(agents, i, entries, e)))
    && (DistinctIds(agents) ==>
          forall i | 0 <= i < |agents| :: slices[i].1 == NumberEntriesOfAgent(agents[i], entries))
  }

  lemma SlicesArePie(agents: seq<Agent>, entries: seq<Entry>)
    ensures IsPie(Map(SliceOf(agents, entries), agents), agents, entries)
  {
    hide NumberEntriesOfAgent;
    hide PieValue;
    hide Index;
    hide Print;
    hide ValidThroughNamesake;
    hide DistinctIds;
    var slices := Map(SliceOf(agents, entries), agents);
    forall i | 0 <= i < |agents|
      ensures slices[i] == (IdOf(agents[i]), PieValue(agents[i], Index(agents, entries), entries))
      ensures slices[i].1 >= NumberEntriesOfAgent(agents[i], entries)
      ensures slices[i].1 == NumberEntriesOfAgent(agents[i], entries) <==>
              forall e | e in entries :: !ValidThroughNamesake(agents, i, entries, e)
      ensures DistinctIds(agents) ==> slices[i].1 == NumberEntriesOfAgent(agents[i], entries)
    {
      PieChartAgrees(agents, i, entries);
      if DistinctIds(agents) {
        PieChartAgreesForDistinctIds(agents, i, entries);
      }
    }
  }

  /** One slice per agent; nothing while either list is still undefined. */
  method AgentList(agents: Option<seq<AgentObject>>, entries: Option<seq<EntryObject>>)
    returns (slices: seq<(string, nat)>)
    modifies if agents.Some? then agents.value else []
    modifies if entries.Some? then entries.value else []
    ensures agents.None? || entries.None? ==> slices == []
    ensures agents.Some? && entries.Some? ==>
      && AgentValues(agents.value) == old(AgentValues(agents.value))
      && EntryValues(entries.value) == old(EntryValues(entries.value))
      && slices == Map(SliceOf(AgentValues(agents.value), EntryValues(entries.value)), AgentValues(agents.value))
      && IsPie(slices, AgentValues(agents.value), EntryValues(entries.value))
  {
    if entries.None? || agents.None? {
      return [];
    }
    var dict := BuildIndex(agents.value, entries.value);
    slices := Slices(agents.value, dict, entries.value);
    SlicesArePie(AgentValues(agents.value), EntryValues(entries.value));
  }

  lemma CountEnds(agentsList: seq<string>, entries: seq<Entry>, agents: seq<Agent>)
    ensures NumberEntriesOfCluster(agentsList, entries, agents[..0]) == 0
    ensures agents[..|agents|] == agents
  {
  }

  lemma CountStep(agentsList: seq<string>, entries: seq<Entry>, agents: seq<Agent>, i: nat)
    requires i < |agents|
    ensures NumberEntriesOfCluster(agentsList, entries, agents[..i + 1]) ==
            NumberEntriesOfCluster(agentsList, entries, agents[..i]) +
            if Listed(agentsList)(agents[i]) then NumberEntriesOfAgent(agents[i], entries) else 0
  {
    assert agents[..i + 1][..i] == agents[..i];
    CountSnoc(agentsList, entries, agents[..i + 1]);
  }

  method CountEntriesOfCluster(agentsList: seq<string>, entries: seq<EntryObject>, agents: seq<AgentObject>)
    returns (sum: nat)
    modifies agents, entries
    ensures AgentValues(agents) == old(AgentValues(agents)) && EntryValues(entries) == old(EntryValues(entries))
    ensures sum == NumberEntriesOfCluster(agentsList, EntryValues(entries), AgentValues(agents))
  {
    hide NumberEntriesOfCluster;
    hide NumberEntriesOfAgent;
    hide Print;
    sum := 0;
    ghost var values, entryValues := AgentValues(agents), EntryValues(entries);
    CountEnds(agentsList, entryValues, values);
    for i := 0 to |agents|
      invariant AgentValues(agents) == values && EntryValues(entries) == entryValues
      invariant sum == NumberEntriesOfCluster(agentsList, entryValues, values[..i])
    {
      CountStep(agentsList, entryValues, values, i);
      if Print(agents[i].id) in agentsList {
        var n := CountEntriesOfAgent(agents[i], entries);
        assert forall k | 0 <= k < |agents| :: agents[k].Value() == values[k];
        sum := sum + n;
      }
    }
  }

  // ----- The entries table

  /** The first element with p is where the filtered list starts. */
  lemma FirstMatch<T>(xs: seq<T>, p: T -> bool, i: nat)
    requires i < |xs| && Filter(xs[..i], p) == [] && p(xs[i])
    ensures |Filter(xs, p)| > 0 && Filter(xs, p)[0] == xs[i]
  {
    FilterSplit(xs, p, i);
  }

  /** globalAgents.find: the position of the first agent with this id, or the length. */
  method FindAgentWithId(agents: seq<AgentObject>, id: string) returns (i: nat)
    ensures i <= |agents|
    ensures i == |agents| <==> |Filter(AgentValues(agents), WithId(id))| == 0
  {
    hide Filter;
    hide Print;
    i := 0;
    ghost var values := AgentValues(agents);
    FilterEnds(values, WithId(id));
    while i < |agents|
      invariant i <= |agents| && Filter(values[..i], WithId(id)) == []
    {
      FilterStep(values, WithId(id), i);
      if Print(agents[i].id) == id {
        FirstMatch(values, WithId(id), i);
        return;
      }
      i := i + 1;
    }
  }

  /** globalEntries.find, likewise. */
  method FindEntryWithId(entries: seq<EntryObject>, id: string) returns (i: nat)
    ensures i <= |entries|
    ensures var found := Filter(EntryValues(entries), WithSpiffeId(id));
      if i < |entries| then |found| > 0 && found[0] == entries[i].Value() else found == []
  {
    hide Filter;
    hide Print;
    i := 0;
    ghost var values := EntryValues(entries);
    FilterEnds(values, WithSpiffeId(id));
    while i < |entries|
      invariant i <= |entries| && Filter(values[..i], WithSpiffeId(id)) == []
    {
      FilterStep(values, WithSpiffeId(id), i);
      if Print(entries[i].spiffeId) == id {
        FirstMatch(values, WithSpiffeId(id), i);
        return;
      }
      i := i + 1;
    }
  }

  /** workloadEntry: the parent itself if it is an agent, else the canonical agent of the entry it names. */
  method WorkloadEntry(entry: EntryObject, infos: seq<AttestorInfo>,
                       agents: seq<AgentObject>, entries: seq<EntryObject>) returns (row: Row)
    requires entry in entries
    modifies agents, entries
    ensures AgentValues(agents) == old(AgentValues(agents)) && EntryValues(entries) == old(EntryValues(entries))
    ensures row == RowOf(infos, AgentValues(agents), EntryValues(entries))(entry.Value())
  {
    hide Print;
    hide Filter;
    hide CanonicalId;
    hide AgentMetadata;
    var thisParentId := Print(entry.parentId);
    var canonicalParentId := thisParentId;
    ghost var agentValues, entryValues := AgentValues(agents), EntryValues(entries);
    ghost var v := entry.Value();
    var i := FindAgentWithId(agents, thisParentId);
    if i == |agents| {
      var j := FindEntryWithId(entries, thisParentId);
      if j < |entries| {
        canonicalParentId := GetCanonicalAgentSpiffeid(entries[j], agents);
        assert forall k | 0 <= k < |entries| :: entries[k].Value() == entryValues[k];
        assert EntryValues(entries) == entryValues;
      }
    }
    assert entry.Value() == v;
    var m := AgentMetadata(canonicalParentId, infos);
    var plugin, cluster := "None", "None";
    if |m.plugin| != 0 {
      plugin := m.plugin;
    }
    if |m.cluster| != 0 {
      cluster := m.cluster;
    }
    row := Row(Print(entry.spiffeId), thisParentId, plugin, cluster, canonicalParentId);
  }

  /** globalEntriesList.map(workloadEntry). */
  method WorkloadEntries(infos: seq<AttestorInfo>, agents: seq<AgentObject>, entries: seq<EntryObject>)
    returns (list: seq<Row>)
    modifies agents, entries
    ensures AgentValues(agents) == old(AgentValues(agents)) && EntryValues(entries) == old(EntryValues(entries))
    ensures list == Map(RowOf(infos, AgentValues(agents), EntryValues(entries)), EntryValues(entries))
  {
    hide RowOf;
    hide Filter;
    list := [];
    ghost var agentValues, entryValues := AgentValues(agents), EntryValues(entries);
    ghost var f := RowOf(infos, agentValues, entryValues);
    for i := 0 to |entries|
      invariant AgentValues(agents) == agentValues && EntryValues(entries) == entryValues
      invariant |list| == i && forall k | 0 <= k < i :: list[k] == f(entryValues[k])
    {
      var row := WorkloadEntry(entries[i], infos, agents, entries);
      list := list + [row];
    }
  }

  /** The filtering loop. */
  method MatchingRows(list: seq<Row>, filterByCluster: Option<string>, filterByAgentId: Option<string>)
    returns (rows: seq<Row>)
    ensures rows == Filter(list, Matches(filterByCluster, filterByAgentId))
  {
    rows := [];
    ghost var p := Matches(filterByCluster, filterByAgentId);
    FilterEnds(list, p);
    for i := 0 to |list|
      invariant rows == Filter(list[..i], p)
    {
      FilterStep(list, p, i);
      if || (filterByCluster.Some? && list[i].clusterName == filterByCluster.value)
         || (filterByAgentId.Some? && list[i].parentId == filterByAgentId.value)
         || (filterByAgentId.Some? && list[i].canonicalAgentId == filterByAgentId.value) {
        rows := rows + [list[i]];
      }
    }
  }

  /** The entries table; it is empty while either list is still undefined. */
  method EntryList(
    infos: seq<AttestorInfo>, agents: Option<seq<AgentObject>>, entries: Option<seq<EntryObject>>,
    filterByCluster: Option<string>, filterByAgentId: Option<string>) returns (rows: seq<Row>)
    modifies if agents.Some? then agents.value else []
    modifies if entries.Some? then entries.value else []
    ensures agents.None? || entries.None? ==> rows == []
    ensures agents.Some? && entries.Some? ==>
      && AgentValues(agents.value) == old(AgentValues(agents.value))
      && EntryValues(entries.value) == old(EntryValues(entries.value))
    ensures agents.Some? && entries.Some? ==>
      var values, entryValues := AgentValues(agents.value), EntryValues(entries.value);
      var f, all := RowOf(infos, values, entryValues), Map(RowOf(infos, values, entryValues), entryValues);
      && (filterByCluster.None? && filterByAgentId.None? ==> rows == all)
      && (filterByCluster.None? && filterByAgentId.Some? ==>
            rows == Map(f, Filter(entryValues, Shown(filterByAgentId.value, values, entryValues))))
      && (filterByCluster.Some? && filterByAgentId.None? ==>
            rows == Filter(all, (r: Row) => r.clusterName == filterByCluster.value))
      && (filterByCluster.Some? && filterByAgentId.Some? ==>
            rows == Filter(all, (r: Row) =>
              r.clusterName == filterByCluster.value || filterByAgentId.value in {r.parentId, r.canonicalAgentId}))
  {
    if entries.None? || agents.None? {
      return [];
    }
    hide RowOf;
    hide Shown;
    hide Filter;
    hide Map;
    rows := WorkloadEntries(infos, agents.value, entries.value);
    if filterByCluster.Some? || filterByAgentId.Some? {
      ghost var values, entryValues, all := AgentValues(agents.value), EntryValues(entries.value), rows;
      rows := MatchingRows(rows, filterByCluster, filterByAgentId);
      if filterByCluster.None? {
        RowsForAgent(filterByAgentId.value, infos, values, entryValues);
      } else if filterByAgentId.None? {
        FilterSame(all, Matches(filterByCluster, None), (r: Row) => r.clusterName == filterByCluster.value);
      } else {
        FilterSame(all, Matches(filterByCluster, filterByAgentId), (r: Row) =>
          r.clusterName == filterByCluster.value || filterByAgentId.value in {r.parentId, r.canonicalAgentId});
      }
    }
  }
}
