/** Three dashboards count or list an agent's workloads along different routes; here they are compared. */
module Dashboards {
  import opened Wrappers
  import opened Sequences
  import opened Spiffe
  import opened Association

  function ParentIn(ids: set<string>): Entry -> bool {
    (e: Entry) => Print(e.parentId) in ids
  }

  function SpiffeIds(entries: seq<Entry>): set<string> {
    set e | e in entries :: Print(e.spiffeId)
  }

  // ----- The agents table

  /** The parents that count for an agent: its own id and those of its node entries. */
  function ValidIds(a: Agent, entries: seq<Entry>): set<string> {
    {IdOf(a)} + SpiffeIds(AgentEntries(a, entries))
  }

  function NumberEntriesOfAgent(a: Agent, entries: seq<Entry>): nat {
    |Filter(entries, ParentIn(ValidIds(a, entries)))|
  }

  // ----- The pie chart

  function PieIds(a: Agent, index: map<string, seq<Entry>>): set<string> {
    {IdOf(a)} + if IdOf(a) in index then SpiffeIds(index[IdOf(a)]) else {}
  }

  function PieValue(a: Agent, index: map<string, seq<Entry>>, entries: seq<Entry>): nat {
    |Filter(entries, ParentIn(PieIds(a, index)))|
  }

  lemma {:induction false} LargerFilter<T(!new)>(xs: seq<T>, p: T -> bool, q: T -> bool)
    requires forall x | x in xs && p(x) :: q(x)
    ensures |Filter(xs, p)| <= |Filter(xs, q)|
    ensures |Filter(xs, p)| == |Filter(xs, q)| <==> forall x | x in xs && q(x) :: p(x)
  {
    if xs == [] {
    } else {
      LargerFilter(xs[1..], p, q);
      assert xs[0] in xs;
      assert forall x | x in xs[1..] :: x in xs;
      assert forall x | x in xs :: x == xs[0] || x in xs[1..];
    }
  }

  /** The entry's parent is no valid id of the i-th agent, but that of a node entry its namesake covers. */
  ghost predicate ValidThroughNamesake(agents: seq<Agent>, i: nat, entries: seq<Entry>, e: Entry)
    requires i < |agents|
  {
    && Print(e.parentId) !in ValidIds(agents[i], entries)
    && exists j, n | 0 <= j < |agents| && n in Nodes(entries) ::
         j != i && Pushes(IdOf(agents[i]), n)(agents[j]) && Print(n.spiffeId) == Print(e.parentId)
  }

  lemma InAgentEntries(a: Agent, entries: seq<Entry>, n: Entry)
    ensures n in AgentEntries(a, entries) <==> n in Nodes(entries) && Covers(a, n)
    ensures n in Nodes(entries) <==> n in entries && IsNode(n)
  {
  }

  /** An id's list holds the node entries that an agent of the id, named by its position, covers. */
  lemma InIndexListAt(agents: seq<Agent>, id: string, entries: seq<Entry>, n: Entry)
    ensures n in IndexList(agents, id, entries) <==>
            n in Nodes(entries) && exists j | 0 <= j < |agents| :: Pushes(id, n)(agents[j])
  {
    InIndexList(agents, id, entries, n);
    hide IndexList;
    hide Pushes;
    if a :| a in agents && Pushes(id, n)(a) {
      var j :| 0 <= j < |agents| && agents[j] == a;
      assert Pushes(id, n)(agents[j]);
    }
    if j :| 0 <= j < |agents| && Pushes(id, n)(agents[j]) {
      assert agents[j] in agents;
    }
  }

  lemma SpiffeIdFrom(list: seq<Entry>, s: string)
    ensures s in SpiffeIds(list) <==> exists n | n in list :: Print(n.spiffeId) == s
  {
  }

  /** The ids the pie chart adds: those of the node entries that some agent of the id covers. */
  lemma InPieIds(agents: seq<Agent>, i: nat, entries: seq<Entry>, s: string)
    requires i < |agents|
    ensures s in PieIds(agents[i], Index(agents, entries)) <==>
      || s == IdOf(agents[i])
      || exists j, n | 0 <= j < |agents| && n in Nodes(entries) ::
           Pushes(IdOf(agents[i]), n)(agents[j]) && Print(n.spiffeId) == s
  {
    var id := IdOf(agents[i]);
    var list := IndexList(agents, id, entries);
    assert s in PieIds(agents[i], Index(agents, entries)) <==> s == id || s in SpiffeIds(list) by {
      assert agents[i] in agents && Index(agents, entries)[id] == list;
    }
    hide *;
    if s in SpiffeIds(list) {
      SpiffeIdFrom(list, s);
      var n :| n in list && Print(n.spiffeId) == s;
      InIndexListAt(agents, id, entries, n);
    }
    if j, n :| 0 <= j < |agents| && n in Nodes(entries) && Pushes(id, n)(agents[j]) && Print(n.spiffeId) == s {
      InIndexListAt(agents, id, entries, n);
      SpiffeIdFrom(list, s);
    }
  }

  lemma CountedThroughNamesake(agents: seq<Agent>, i: nat, entries: seq<Entry>, e: Entry)
    requires i < |agents|
    ensures ValidThroughNamesake(agents, i, entries, e) <==>
      && Print(e.parentId) in PieIds(agents[i], Index(agents, entries))
      && Print(e.parentId) !in ValidIds(agents[i], entries)
  {
    var a, id, parent := agents[i], IdOf(agents[i]), Print(e.parentId);
    InPieIds(agents, i, entries, parent);
    hide PieIds;
    hide Index;
    hide Print;
    hide Formats;
    hide Nodes;
    if j, n :| 0 <= j < |agents| && n in Nodes(entries) && Pushes(id, n)(agents[j]) && Print(n.spiffeId) == parent {
      InAgentEntries(a, entries, n);
      assert parent !in ValidIds(a, entries) ==> j != i;
    }
  }

  lemma PieHasValidIds(agents: seq<Agent>, i: nat, entries: seq<Entry>)
    requires i < |agents|
    ensures ValidIds(agents[i], entries) <= PieIds(agents[i], Index(agents, entries))
    ensures DistinctIds(agents) ==> ValidIds(agents[i], entries) == PieIds(agents[i], Index(agents, entries))
  {
    var a, id := agents[i], IdOf(agents[i]);
    assert a in agents;
    forall e | e in AgentEntries(a, entries) ensures e in Index(agents, entries)[id] {
      assert Pushes(id, e)(a);
      InIndexList(agents, id, entries, e);
    }
    if DistinctIds(agents) {
      IndexMatchesForDistinctIds(agents, i, entries);
    }
  }

  /**
    The pie chart never shows less than the agents table, and the same number exactly when no entry has a parent
    that is valid only through another agent of the same id.
   */
  lemma PieChartAgrees(agents: seq<Agent>, i: nat, entries: seq<Entry>)
    requires i < |agents|
    ensures var a, index := agents[i], Index(agents, entries);
      && PieValue(a, index, entries) >= NumberEntriesOfAgent(a, entries)
      && (PieValue(a, index, entries) == NumberEntriesOfAgent(a, entries) <==>
          forall e | e in entries :: !ValidThroughNamesake(agents, i, entries, e))
  {
    var a, index := agents[i], Index(agents, entries);
    PieHasValidIds(agents, i, entries);
    LargerFilter(entries, ParentIn(ValidIds(a, entries)), ParentIn(PieIds(a, index)));
    forall e | e in entries
      ensures ValidThroughNamesake(agents, i, entries, e) <==>
              ParentIn(PieIds(a, index))(e) && !ParentIn(ValidIds(a, entries))(e)
    {
      CountedThroughNamesake(agents, i, entries, e);
    }
  }

  /** Two agents of one id: an entry below a node entry that only the second covers is charted for the first too. */
  lemma PieChartOvercounts() returns (agents: seq<Agent>, entries: seq<Entry>)
    ensures |agents| == 2 && IdOf(agents[0]) == IdOf(agents[1]) != ""
    ensures PieValue(agents[0], Index(agents, entries), entries) > NumberEntriesOfAgent(agents[0], entries)
  {
    var id, selector := Of("t", "/agent"), Selector("k", "v");
    var n := Entry(Of("t", "/node"), Of("t", SERVER_PATH), [selector]);
    var e := Entry(Of("t", "/x"), Of("t", "/node"), []);
    agents, entries := [Agent(id, []), Agent(id, [selector])], [n, e];
    var a := agents[0];
    assert IdOf(a) == PREFIX + "t" + "/agent" && Print(e.parentId) == PREFIX + "t" + "/node";
    assert |IdOf(a)| != |Print(e.parentId)|;
    assert selector in n.selectors && FormatSelector(selector) in Formats(n.selectors);
    assert !Covers(a, n) && Covers(agents[1], n);
    assert IsNode(n) && !IsNode(e);
    InAgentEntries(a, entries, n);
    InAgentEntries(a, entries, e);
    assert entries[0] == n && entries[1] == e && Pushes(IdOf(a), n)(agents[1]);
    assert ValidThroughNamesake(agents, 0, entries, e);
    PieChartAgrees(agents, 0, entries);
  }

  /** With distinct ids the pie chart and the agents table show the same number for every agent. */
  lemma PieChartAgreesForDistinctIds(agents: seq<Agent>, i: nat, entries: seq<Entry>)
    requires i < |agents| && DistinctIds(agents)
    ensures PieValue(agents[i], Index(agents, entries), entries) == NumberEntriesOfAgent(agents[i], entries)
  {
    PieHasValidIds(agents, i, entries);
  }

  // ----- The clusters table

  function Listed(agentsList: seq<string>): Agent -> bool {
    (a: Agent) => IdOf(a) in agentsList
  }

  function CountOf(entries: seq<Entry>): Agent -> nat {
    (a: Agent) => NumberEntriesOfAgent(a, entries)
  }

  function Sum(ns: seq<nat>): nat {
    if ns == [] then 0 else Sum(ns[..|ns| - 1]) + ns[|ns| - 1]
  }

  /** filter, map and reduce over the agents. */
  function NumberEntriesOfCluster(agentsList: seq<string>, entries: seq<Entry>, agents: seq<Agent>): nat {
    Sum(Map(CountOf(entries), Filter(agents, Listed(agentsList))))
  }

  predicate Below(agentsList: seq<string>, entries: seq<Entry>, agents: seq<Agent>, i: nat, j: nat)
    requires i < |agents| && j < |entries|
  {
    Listed(agentsList)(agents[i]) && ParentIn(ValidIds(agents[i], entries))(entries[j])
  }

  /** Positions of a listed agent and of an entry below it. */
  function Pairs(agentsList: seq<string>, entries: seq<Entry>, agents: seq<Agent>): set<(nat, nat)> {
    set i: nat, j: nat |
      0 <= i < |agents| && 0 <= j < |entries| && Below(agentsList, entries, agents, i, j) :: (i, j)
  }

  function Hits(n: nat, entries: seq<Entry>, p: Entry -> bool): set<(nat, nat)> {
    set j: nat | 0 <= j < |entries| && p(entries[j]) :: (n, j)
  }

  lemma HitsSnoc(n: nat, entries: seq<Entry>, p: Entry -> bool)
    requires entries != []
    ensures var k := |entries| - 1;
      |Hits(n, entries, p)| == |Hits(n, entries[..k], p)| + if p(entries[k]) then 1 else 0
  {
    var k := |entries| - 1;
    var before := Hits(n, entries[..k], p);
    assert Hits(n, entries, p) == before + if p(entries[k]) then {(n, k)} else {};
    assert (n, k) !in before;
  }

  lemma {:induction false} HitsCount(n: nat, entries: seq<Entry>, p: Entry -> bool)
    ensures |Hits(n, entries, p)| == |Filter(entries, p)|
    decreases |entries|
  {
    if entries == [] {
      assert Hits(n, entries, p) == {};
    } else {
      var k := |entries| - 1;
      HitsSnoc(n, entries, p);
      hide Filter;
      hide Hits;
      HitsCount(n, entries[..k], p);
      FilterStep(entries, p, k);
      assert entries[..k + 1] == entries;
    }
  }

  lemma SumSnoc(ns: seq<nat>, n: nat)
    ensures Sum(ns + [n]) == Sum(ns) + n
  {
  }

  lemma CountSnoc(agentsList: seq<string>, entries: seq<Entry>, agents: seq<Agent>)
    requires agents != []
    ensures var n := |agents| - 1;
      NumberEntriesOfCluster(agentsList, entries, agents) ==
      NumberEntriesOfCluster(agentsList, entries, agents[..n]) +
      if Listed(agentsList)(agents[n]) then NumberEntriesOfAgent(agents[n], entries) else 0
  {
    var n, p := |agents| - 1, Listed(agentsList);
    var a, listed := agents[n], Filter(agents[..n], p);
    FilterStep(agents, p, n);
    hide Filter;
    assert agents[..n + 1] == agents;
    if p(a) {
      assert Map(CountOf(entries), listed + [a]) == Map(CountOf(entries), listed) + [CountOf(entries)(a)];
      SumSnoc(Map(CountOf(entries), listed), CountOf(entries)(a));
    } else {
      assert listed + [] == listed;
    }
  }

  lemma PairsSnoc(agentsList: seq<string>, entries: seq<Entry>, agents: seq<Agent>)
    requires agents != []
    ensures var n := |agents| - 1;
      var fewer := Pairs(agentsList, entries, agents[..n]);
      var hits :=
        if Listed(agentsList)(agents[n]) then Hits(n, entries, ParentIn(ValidIds(agents[n], entries))) else {};
      Pairs(agentsList, entries, agents) == fewer + hits && fewer !! hits
  {
  }

  /** The cluster's count is the number of pairs of one of its agents and an entry below that agent. */
  lemma {:induction false} ClusterCountIsPairs(agentsList: seq<string>, entries: seq<Entry>, agents: seq<Agent>)
    ensures NumberEntriesOfCluster(agentsList, entries, agents) == |Pairs(agentsList, entries, agents)|
    decreases |agents|
  {
    if agents == [] {
      assert Pairs(agentsList, entries, agents) == {};
    } else {
      var n := |agents| - 1;
      CountSnoc(agentsList, entries, agents);
      PairsSnoc(agentsList, entries, agents);
      hide Pairs;
      hide NumberEntriesOfCluster;
      ClusterCountIsPairs(agentsList, entries, agents[..n]);
      HitsCount(n, entries, ParentIn(ValidIds(agents[n], entries)));
    }
  }

  // ----- The entries table

  function WithId(id: string): Agent -> bool {
    (a: Agent) => IdOf(a) == id
  }

  function WithSpiffeId(id: string): Entry -> bool {
    (e: Entry) => Print(e.spiffeId) == id
  }

  /** The agent an entry is shown under: its parent, or the canonical agent of the node entry its parent names. */
  function CanonicalParent(e: Entry, agents: seq<Agent>, entries: seq<Entry>): string {
    var parent := Print(e.parentId);
    if |Filter(agents, WithId(parent))| > 0 then parent
    else
      var found := Filter(entries, WithSpiffeId(parent));
      if |found| > 0 then CanonicalId(found[0], agents) else parent
  }

  /** The entries table filtered by an agent shows this entry. */
  predicate ShownFor(id: string, e: Entry, agents: seq<Agent>, entries: seq<Entry>) {
    Print(e.parentId) == id || CanonicalParent(e, agents, entries) == id
  }

  predicate CountedFor(a: Agent, e: Entry, entries: seq<Entry>) {
    e in entries && ParentIn(ValidIds(a, entries))(e)
  }

  /** If the parent is not an agent, the entry found under its id is a node entry. */
  predicate LandsOnNode(e: Entry, agents: seq<Agent>, entries: seq<Entry>) {
    var parent := Print(e.parentId);
    |Filter(agents, WithId(parent))| == 0 ==>
      var found := Filter(entries, WithSpiffeId(parent));
      |found| > 0 ==> IsNode(found[0])
  }

  lemma SameIdSamePosition(agents: seq<Agent>, i: nat, j: nat)
    requires DistinctIds(agents) && i < |agents| && j < |agents|
    ensures IdOf(agents[i]) == IdOf(agents[j]) ==> i == j
  {
  }

  lemma CanonicalOfDistinct(e: Entry, agents: seq<Agent>, i: nat)
    requires i < |agents| && DistinctIds(agents) && IdOf(agents[i]) != ""
    requires CanonicalId(e, agents) == IdOf(agents[i])
    ensures Covers(agents[i], e)
  {
    var covering := Filter(agents, Covering(e));
    assert covering[0] in agents && Covers(covering[0], e);
    var k := CanonicalIsFirst(e, agents);
    SameIdSamePosition(agents, i, k);
  }

  /** Every row shown for an agent is counted for it, when ids are distinct and parent look-ups land on node entries. */
  lemma ShownIsCounted(agents: seq<Agent>, i: nat, entries: seq<Entry>, e: Entry)
    requires i < |agents| && DistinctIds(agents) && IdOf(agents[i]) != ""
    requires e in entries && LandsOnNode(e, agents, entries)
    requires ShownFor(IdOf(agents[i]), e, agents, entries)
    ensures CountedFor(agents[i], e, entries)
  {
    var a, parent := agents[i], Print(e.parentId);
    if parent != IdOf(a) {
      var found := Filter(entries, WithSpiffeId(parent));
      var node := found[0];
      assert node in entries && IsNode(node) && Print(node.spiffeId) == parent;
      CanonicalOfDistinct(node, agents, i);
      assert node in AgentEntries(a, entries);
    }
  }

  /** A node entry is covered by one agent at most, and no two entries share its spiffe id. */
  ghost predicate NodesAreUnambiguous(agents: seq<Agent>, entries: seq<Entry>) {
    && (forall e, i, j | e in Nodes(entries) && 0 <= i < |agents| && 0 <= j < |agents| ::
          Covers(agents[i], e) && Covers(agents[j], e) ==> i == j)
    && (forall e, e' | e in Nodes(entries) && e' in entries && Print(e.spiffeId) == Print(e'.spiffeId) :: e == e')
    && (forall e, i | e in Nodes(entries) && 0 <= i < |agents| :: Print(e.spiffeId) != IdOf(agents[i]))
  }

  /** The look-up of a node entry's id finds no agent and that entry. */
  lemma NodeIsFound(agents: seq<Agent>, entries: seq<Entry>, node: Entry)
    requires NodesAreUnambiguous(agents, entries) && node in Nodes(entries)
    ensures |Filter(agents, WithId(Print(node.spiffeId)))| == 0
    ensures var found := Filter(entries, WithSpiffeId(Print(node.spiffeId))); |found| > 0 && found[0] == node
  {
    hide Print;
    var parent := Print(node.spiffeId);
    forall a | a in agents ensures !WithId(parent)(a) {
      var j :| 0 <= j < |agents| && agents[j] == a;
    }
    FilterNone(agents, WithId(parent));
    var found := Filter(entries, WithSpiffeId(parent));
    assert node in found && found[0] in found;
  }

  lemma CanonicalOfOnly(agents: seq<Agent>, i: nat, entries: seq<Entry>, node: Entry)
    requires i < |agents| && NodesAreUnambiguous(agents, entries)
    requires node in Nodes(entries) && Covers(agents[i], node)
    ensures CanonicalId(node, agents) == IdOf(agents[i])
  {
    assert agents[i] in agents;
    var k := CanonicalIsFirst(node, agents);
  }

  lemma CountedThroughNode(agents: seq<Agent>, i: nat, entries: seq<Entry>, e: Entry)
    requires i < |agents| && NodesAreUnambiguous(agents, entries)
    requires CountedFor(agents[i], e, entries) && Print(e.parentId) != IdOf(agents[i])
    ensures CanonicalParent(e, agents, entries) == IdOf(agents[i])
  {
    var parent := Print(e.parentId);
    var node :| node in AgentEntries(agents[i], entries) && Print(node.spiffeId) == parent;
    NodeIsFound(agents, entries, node);
    hide Print;
    CanonicalOfOnly(agents, i, entries, node);
  }

  /** Under that condition the two tables agree entry by entry: an agent's rows are the entries counted for it. */
  lemma ShownIffCounted(agents: seq<Agent>, i: nat, entries: seq<Entry>, e: Entry)
    requires i < |agents| && DistinctIds(agents) && IdOf(agents[i]) != ""
    requires e in entries && LandsOnNode(e, agents, entries) && NodesAreUnambiguous(agents, entries)
    ensures ShownFor(IdOf(agents[i]), e, agents, entries) <==> CountedFor(agents[i], e, entries)
  {
    if ShownFor(IdOf(agents[i]), e, agents, entries) {
      ShownIsCounted(agents, i, entries, e);
    }
    if CountedFor(agents[i], e, entries) && Print(e.parentId) != IdOf(agents[i]) {
      CountedThroughNode(agents, i, entries, e);
    }
  }

  /** No two different entries have the spiffe id that is the parent of e. */
  ghost predicate ParentIsOneEntry(e: Entry, entries: seq<Entry>) {
    forall x, y | x in entries && y in entries ::
      Print(x.spiffeId) == Print(e.parentId) && Print(y.spiffeId) == Print(e.parentId) ==> x == y
  }

  /** The parent of e is the spiffe id of a node entry that the agent covers. */
  ghost predicate CoversParent(a: Agent, e: Entry, entries: seq<Entry>) {
    exists n | n in Nodes(entries) :: Print(n.spiffeId) == Print(e.parentId) && Covers(a, n)
  }

  /**
    A row shown for an agent that is not its parent is counted exactly when its look-up lands on a node entry, or
    the agent covers another node entry under the parent's id.
   */
  lemma ShownCountedExactly(agents: seq<Agent>, i: nat, entries: seq<Entry>, e: Entry)
    requires i < |agents| && DistinctIds(agents) && IdOf(agents[i]) != ""
    requires e in entries && Print(e.parentId) != IdOf(agents[i])
    requires ShownFor(IdOf(agents[i]), e, agents, entries)
    ensures CountedFor(agents[i], e, entries) <==>
            LandsOnNode(e, agents, entries) || CoversParent(agents[i], e, entries)
  {
    var a, parent := agents[i], Print(e.parentId);
    if LandsOnNode(e, agents, entries) {
      ShownIsCounted(agents, i, entries, e);
    }
    hide CanonicalParent;
    hide Print;
    if CountedFor(a, e, entries) {
      var n :| n in AgentEntries(a, entries) && Print(n.spiffeId) == parent;
      InAgentEntries(a, entries, n);
    }
    if n :| n in Nodes(entries) && Print(n.spiffeId) == parent && Covers(a, n) {
      InAgentEntries(a, entries, n);
    }
  }

  /** With one entry to the parent's id, landing on a node entry is all that matters. */
  lemma ShownCountedForOneEntry(agents: seq<Agent>, i: nat, entries: seq<Entry>, e: Entry)
    requires i < |agents| && DistinctIds(agents) && IdOf(agents[i]) != ""
    requires e in entries && Print(e.parentId) != IdOf(agents[i]) && ParentIsOneEntry(e, entries)
    requires ShownFor(IdOf(agents[i]), e, agents, entries)
    ensures CountedFor(agents[i], e, entries) <==> LandsOnNode(e, agents, entries)
  {
    ShownCountedExactly(agents, i, entries, e);
    if n :| n in Nodes(entries) && Print(n.spiffeId) == Print(e.parentId) && Covers(agents[i], n) {
      InAgentEntries(agents[i], entries, n);
      var found := Filter(entries, WithSpiffeId(Print(e.parentId)));
      assert n in found && found[0] in found;
    }
  }

  /** Without a node entry behind the parent a row can be shown that is not counted: the tables then disagree. */
  lemma ShownNotCounted() returns (a: Agent, workload: Entry, e: Entry)
    ensures DistinctIds([a]) && IdOf(a) != ""
    ensures ShownFor(IdOf(a), e, [a], [workload, e]) && !CountedFor(a, e, [workload, e])
    ensures !LandsOnNode(e, [a], [workload, e])
  {
    a := Agent(Of("t", "/agent"), []);
    workload := Entry(Of("t", "/w"), Of("t", "/agent"), []);
    e := Entry(Of("t", "/x"), Of("t", "/w"), []);
    var es := [workload, e];
    assert Print(e.parentId) == PREFIX + "t" + "/w" && Print(workload.spiffeId) == PREFIX + "t" + "/w";
    assert IdOf(a) == PREFIX + "t" + "/agent" && Print(e.spiffeId) == PREFIX + "t" + "/x";
    assert "/w"[1] == 'w' && "/agent"[1] == 'a' && "/x"[1] == 'x';
    assert |Print(e.parentId)| != |IdOf(a)|;
    var parent := Print(e.parentId);
    FilterNone([a], WithId(parent));
    assert Filter(es, WithSpiffeId(parent)) == [workload] + Filter([e], WithSpiffeId(parent)) by {
      assert es[1..] == [e];
    }
    FilterAll([a], Covering(workload));
    FilterNone(es, IsNode);
    assert AgentEntries(a, es) == [];
  }

  // ----- The rows of the entries table

  /** An entry whose parent is an agent is shown under that agent. */
  lemma ParentIsAgent(agents: seq<Agent>, i: nat, entries: seq<Entry>, e: Entry)
    requires i < |agents| && Print(e.parentId) == IdOf(agents[i])
    ensures CanonicalParent(e, agents, entries) == IdOf(agents[i])
  {
    assert agents[i] in agents;
    hide Print;
  }

  /** Otherwise it is shown under the first agent to cover the first entry of the parent's id, if one does. */
  lemma ParentIsEntry(agents: seq<Agent>, entries: seq<Entry>, j: nat, e: Entry)
    requires forall i | 0 <= i < |agents| :: IdOf(agents[i]) != Print(e.parentId)
    requires j < |entries| && Print(entries[j].spiffeId) == Print(e.parentId)
    requires forall k | 0 <= k < j :: Print(entries[k].spiffeId) != Print(e.parentId)
    ensures forall i | 0 <= i < |agents| && Covers(agents[i], entries[j]) ::
      (forall k | 0 <= k < i :: !Covers(agents[k], entries[j])) ==>
      CanonicalParent(e, agents, entries) == IdOf(agents[i])
    ensures (forall i | 0 <= i < |agents| :: !Covers(agents[i], entries[j])) ==>
      CanonicalParent(e, agents, entries) == ""
  {
    var parent, node := Print(e.parentId), entries[j];
    hide Print;
    FilterNone(agents, WithId(parent));
    FilterNone(entries[..j], WithSpiffeId(parent));
    FilterSplit(entries, WithSpiffeId(parent), j);
    hide Filter;
    hide Covers;
    if exists a | a in agents :: Covers(a, node) {
      var n := CanonicalIsFirst(node, agents);
    } else {
      FilterNone(agents, Covering(node));
    }
  }

  /** And under its parent where that names neither. */
  lemma ParentIsUnknown(agents: seq<Agent>, entries: seq<Entry>, e: Entry)
    requires forall i | 0 <= i < |agents| :: IdOf(agents[i]) != Print(e.parentId)
    requires forall k | 0 <= k < |entries| :: Print(entries[k].spiffeId) != Print(e.parentId)
    ensures CanonicalParent(e, agents, entries) == Print(e.parentId)
  {
    hide Print;
    FilterNone(agents, WithId(Print(e.parentId)));
    FilterNone(entries, WithSpiffeId(Print(e.parentId)));
  }

  datatype AttestorInfo = AttestorInfo(spiffeid: string, plugin: string, cluster: string)

  datatype Row = Row(
    spiffeid: string, parentId: string, platformType: string, clusterName: string, canonicalAgentId: string)

  function InfoFor(id: string): AttestorInfo -> bool {
    (m: AttestorInfo) => m.spiffeid == id
  }

  /** The first record of an agent, or empty fields. */
  function AgentMetadata(id: string, infos: seq<AttestorInfo>): AttestorInfo {
    var found := Filter(infos, InfoFor(id));
    if |found| > 0 then found[0] else AttestorInfo(id, "", "")
  }

  function OrNone(s: string): string {
    if s == "" then "None" else s
  }

  function RowOf(infos: seq<AttestorInfo>, agents: seq<Agent>, entries: seq<Entry>): Entry -> Row {
    (e: Entry) =>
      var canonical := CanonicalParent(e, agents, entries);
      var m := AgentMetadata(canonical, infos);
      Row(Print(e.spiffeId), Print(e.parentId), OrNone(m.plugin), OrNone(m.cluster), canonical)
  }

  /** The loop's test: by cluster, by parent or by canonical agent. */
  function Matches(cluster: Option<string>, agentId: Option<string>): Row -> bool {
    (r: Row) =>
      || (cluster.Some? && r.clusterName == cluster.value)
      || (agentId.Some? && r.parentId == agentId.value)
      || (agentId.Some? && r.canonicalAgentId == agentId.value)
  }

  function Shown(id: string, agents: seq<Agent>, entries: seq<Entry>): Entry -> bool {
    (e: Entry) => ShownFor(id, e, agents, entries)
  }

  lemma MapOfCons<T, U>(f: T -> U, x: T, xs: seq<T>)
    ensures Map(f, [x] + xs) == [f(x)] + Map(f, xs)
    ensures Map(f, []) == []
  {
  }

  lemma {:induction false} FilterOfMap<T, U>(xs: seq<T>, f: T -> U, p: U -> bool, q: T -> bool)
    requires forall x | x in xs :: p(f(x)) == q(x)
    ensures Filter(Map(f, xs), p) == Map(f, Filter(xs, q))
  {
    if xs == [] {
      assert Map(f, xs) == [] && Map(f, Filter(xs, q)) == [];
    } else {
      var x, rest := xs[0], xs[1..];
      assert xs == [x] + rest && forall y | y in rest :: y in xs;
      FilterOfMap(rest, f, p, q);
      MapOfCons(f, x, rest);
      MapOfCons(f, x, Filter(rest, q));
      hide Map;
      FilterAppend([x], rest, q);
      FilterAppend([f(x)], Map(f, rest), p);
      FilterOne(x, q);
      FilterOne(f(x), p);
    }
  }

  /** Filtered by an agent alone, the table shows the rows of the entries shown for that agent, in order. */
  lemma RowsForAgent(id: string, infos: seq<AttestorInfo>, agents: seq<Agent>, entries: seq<Entry>)
    ensures Filter(Map(RowOf(infos, agents, entries), entries), Matches(None, Some(id))) ==
            Map(RowOf(infos, agents, entries), Filter(entries, Shown(id, agents, entries)))
  {
    hide CanonicalParent;
    hide AgentMetadata;
    FilterOfMap(entries, RowOf(infos, agents, entries), Matches(None, Some(id)), Shown(id, agents, entries));
  }

  /** An agent's rows never outnumber the entries counted for it, under the conditions of ShownIsCounted. */
  lemma RowsAtMostCount(agents: seq<Agent>, i: nat, entries: seq<Entry>)
    requires i < |agents| && DistinctIds(agents) && IdOf(agents[i]) != ""
    requires forall e | e in entries :: LandsOnNode(e, agents, entries)
    ensures |Filter(entries, Shown(IdOf(agents[i]), agents, entries))| <= NumberEntriesOfAgent(agents[i], entries)
    ensures NodesAreUnambiguous(agents, entries) ==>
      |Filter(entries, Shown(IdOf(agents[i]), agents, entries))| == NumberEntriesOfAgent(agents[i], entries)
  {
    var p, q := Shown(IdOf(agents[i]), agents, entries), ParentIn(ValidIds(agents[i], entries));
    forall e | e in entries
      ensures p(e) ==> q(e)
      ensures NodesAreUnambiguous(agents, entries) && q(e) ==> p(e)
    {
      if p(e) {
        ShownIsCounted(agents, i, entries, e);
      }
      if NodesAreUnambiguous(agents, entries) {
        ShownIffCounted(agents, i, entries, e);
      }
    }
    LargerFilter(entries, p, q);
  }
}
