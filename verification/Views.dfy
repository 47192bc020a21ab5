/** The read queries: left joins, grouping and GROUP_CONCAT, and what they show of the simple picture. */
module Views {
  import opened Wrappers
  import opened Sequences
  import opened Text
  import opened Schema
  import opened Registry
  import opened Refinement

  // ----- Joins

  function SomeOf<T>(x: T): Option<T> {
    Some(x)
  }

  /** A left join keeps a row without partners once, with NULLs. */
  function OrNull<T>(xs: seq<T>): seq<Option<T>> {
    if xs == [] then [None] else Map(SomeOf, xs)
  }

  function OfAgent(id: nat): MemberRow -> bool {
    (m: MemberRow) => m.agentId == Some(id)
  }

  function OfCluster(id: nat): MemberRow -> bool {
    (m: MemberRow) => m.clusterId == Some(id)
  }

  function ClusterWithId(id: Option<nat>): ClusterRow -> bool {
    (c: ClusterRow) => Some(c.id) == id
  }

  function AgentWithId(id: Option<nat>): AgentRow -> bool {
    (a: AgentRow) => Some(a.id) == id
  }

  datatype AgentJoin = AgentJoin(agent: AgentRow, cluster: Option<ClusterRow>)

  function ClustersOfMember(t: Tables, a: AgentRow): Option<MemberRow> -> seq<AgentJoin> {
    (m: Option<MemberRow>) =>
      Map(c => AgentJoin(a, c), OrNull(if m.None? then [] else Filter(t.clusters, ClusterWithId(m.value.clusterId))))
  }

  function JoinAgent(t: Tables): AgentRow -> seq<AgentJoin> {
    (a: AgentRow) => FlatMap(OrNull(Filter(t.members, OfAgent(a.id))), ClustersOfMember(t, a))
  }

  /** agents LEFT JOIN cluster_memberships LEFT JOIN clusters. */
  function AgentsJoined(t: Tables): seq<AgentJoin> {
    FlatMap(t.agents, JoinAgent(t))
  }

  datatype ClusterJoin = ClusterJoin(cluster: ClusterRow, agent: Option<AgentRow>)

  function AgentsOfMember(t: Tables, c: ClusterRow): Option<MemberRow> -> seq<ClusterJoin> {
    (m: Option<MemberRow>) =>
      Map(a => ClusterJoin(c, a), OrNull(if m.None? then [] else Filter(t.agents, AgentWithId(m.value.agentId))))
  }

  function JoinCluster(t: Tables): ClusterRow -> seq<ClusterJoin> {
    (c: ClusterRow) => FlatMap(OrNull(Filter(t.members, OfCluster(c.id))), AgentsOfMember(t, c))
  }

  /** clusters LEFT JOIN cluster_memberships LEFT JOIN agents. */
  function ClustersJoined(t: Tables): seq<ClusterJoin> {
    FlatMap(t.clusters, JoinCluster(t))
  }

  // ----- One row per agent

  lemma {:induction false} OneMatch<T(!new)>(xs: seq<T>, p: T -> bool, x: T)
    requires x in xs && p(x) && Pairwise(xs, (y, z) => !p(y) || !p(z))
    ensures Filter(xs, p) == [x]
  {
    var r := (y, z) => !p(y) || !p(z);
    assert xs == [xs[0]] + xs[1..];
    PairwiseCons(xs[0], xs[1..], r);
    if p(xs[0]) {
      FilterNone(xs[1..], p);
    } else {
      OneMatch(xs[1..], p, x);
    }
  }

  lemma PairwiseWeaken<T(!new)>(xs: seq<T>, r: (T, T) -> bool, r': (T, T) -> bool)
    requires Pairwise(xs, r) && forall x, y | r(x, y) :: r'(x, y)
    ensures Pairwise(xs, r')
  {
  }

  /** The cluster row an agent row joins with. */
  function HomeRow(t: Tables, a: AgentRow): Option<ClusterRow> {
    match FindMember(t.members, a.id)
    case None => None
    case Some(m) => FindClusterById(t.clusters, m.clusterId)
  }

  function JoinedAgent(t: Tables): AgentRow -> AgentJoin {
    (a: AgentRow) => AgentJoin(a, HomeRow(t, a))
  }

  lemma MembersOfAgent(t: Tables, id: nat)
    requires Integrity(t)
    ensures Filter(t.members, OfAgent(id)) ==
            if FindMember(t.members, id).None? then [] else [FindMember(t.members, id).value]
  {
    var p := OfAgent(id);
    if FindMember(t.members, id).None? {
      FilterNone(t.members, p);
    } else {
      PairwiseWeaken(t.members, MembersDiffer, (y, z) => !p(y) || !p(z));
      OneMatch(t.members, p, FindMember(t.members, id).value);
    }
  }

  lemma ClusterOfMember(t: Tables, m: MemberRow)
    requires Integrity(t) && m in t.members
    ensures var c := FindClusterById(t.clusters, m.clusterId);
      c.Some? && Filter(t.clusters, ClusterWithId(m.clusterId)) == [c.value]
  {
    assert PointsAtRows(t, m);
    var p, c := ClusterWithId(m.clusterId), FindClusterById(t.clusters, m.clusterId).value;
    PairwiseWeaken(t.clusters, ClustersDiffer, (y, z) => !p(y) || !p(z));
    OneMatch(t.clusters, p, c);
  }

  lemma AgentOfMember(t: Tables, m: MemberRow) returns (a: AgentRow)
    requires Integrity(t) && m in t.members
    ensures a in t.agents && m.agentId == Some(a.id) && Filter(t.agents, AgentWithId(m.agentId)) == [a]
  {
    assert PointsAtRows(t, m);
    a :| a in t.agents && a.id == m.agentId.value;
    var p := AgentWithId(m.agentId);
    PairwiseWeaken(t.agents, AgentsDiffer, (y, z) => !p(y) || !p(z));
    OneMatch(t.agents, p, a);
  }

  lemma MapOne<T, U>(f: T -> U, x: T)
    ensures Map(f, [x]) == [f(x)]
  {
  }

  lemma OrNullOne<T>(x: T)
    ensures OrNull([x]) == [Some(x)]
  {
  }

  /** The double left join neither drops nor repeats an agent. */
  lemma JoinAgentIsOneRow(t: Tables, a: AgentRow)
    requires Integrity(t)
    ensures JoinAgent(t)(a) == [JoinedAgent(t)(a)]
  {
    hide Integrity;
    hide FlatMap;
    hide Map;
    MembersOfAgent(t, a.id);
    var m := FindMember(t.members, a.id);
    FlatMapOne(m, ClustersOfMember(t, a));
    if m.Some? {
      OrNullOne(m.value);
      ClusterOfMember(t, m.value);
      OrNullOne(HomeRow(t, a).value);
    }
    MapOne(c => AgentJoin(a, c), HomeRow(t, a));
    assert ClustersOfMember(t, a)(m) == [JoinedAgent(t)(a)];
  }

  lemma {:induction false} FlatMapOfSingles<T, U>(xs: seq<T>, f: T -> seq<U>, g: T -> U)
    requires forall x | x in xs :: f(x) == [g(x)]
    ensures FlatMap(xs, f) == Map(g, xs)
  {
    if xs == [] {
    } else {
      FlatMapOfSingles(xs[1..], f, g);
      assert Map(g, xs) == [g(xs[0])] + Map(g, xs[1..]);
    }
  }

  lemma AgentsJoinedIsOneRowEach(t: Tables)
    requires Integrity(t)
    ensures AgentsJoined(t) == Map(JoinedAgent(t), t.agents)
  {
    forall a | a in t.agents ensures JoinAgent(t)(a) == [JoinedAgent(t)(a)] {
      JoinAgentIsOneRow(t, a);
    }
    FlatMapOfSingles(t.agents, JoinAgent(t), JoinedAgent(t));
  }

  // ----- GetAgentsMetadata

  /** WHERE agents.spiffeid IN (...), absent when nothing is requested. */
  function Requested(spiffeids: seq<string>): AgentJoin -> bool {
    (j: AgentJoin) => spiffeids == [] || j.agent.spiffeid in spiffeids
  }

  function ToInfo(j: AgentJoin): AgentInfo {
    AgentInfo(
      j.agent.spiffeid,
      if j.agent.plugin.Some? then j.agent.plugin.value else "",
      if j.cluster.Some? then j.cluster.value.name else "")
  }

  function Metadata(t: Tables, spiffeids: seq<string>): seq<AgentInfo> {
    Map(ToInfo, Filter(AgentsJoined(t), Requested(spiffeids)))
  }

  predicate DifferentAgents(a: AgentInfo, b: AgentInfo) {
    a.spiffeid != b.spiffeid
  }

  predicate DifferentJoins(a: AgentJoin, b: AgentJoin) {
    a.agent.spiffeid != b.agent.spiffeid
  }

  lemma MapKeepsPairwise<T(!new), U(!new)>(xs: seq<T>, f: T -> U, r: (T, T) -> bool, r': (U, U) -> bool)
    requires Pairwise(xs, r) && forall x, y | r(x, y) :: r'(f(x), f(y))
    ensures Pairwise(Map(f, xs), r')
  {
  }

  /** The plugin and cluster a registry records for an agent, "" standing for none. */
  function InfoOf(g: Registry, s: string): AgentInfo
    requires s in g.plugins
  {
    AgentInfo(
      s,
      if g.plugins[s].Some? then g.plugins[s].value else "",
      if s in g.homes then g.homes[s] else "")
  }

  lemma InfoOfAgent(t: Tables, a: AgentRow)
    requires Integrity(t) && a in t.agents
    ensures a.spiffeid in Abstract(t).plugins
    ensures ToInfo(JoinedAgent(t)(a)) == InfoOf(Abstract(t), a.spiffeid)
  {
    var f := FindAgent(t.agents, a.spiffeid).value;
    SameIdSameAgent(t, a, f);
    hide Integrity;
    PluginsGet(t.agents, a.spiffeid);
    HomesGet(t, a.spiffeid);
  }

  lemma MetadataIsDistinct(t: Tables, spiffeids: seq<string>)
    requires Integrity(t)
    ensures Pairwise(Metadata(t, spiffeids), DifferentAgents)
  {
    AgentsJoinedIsOneRowEach(t);
    assert Pairwise(t.agents, AgentsDiffer);
    hide Integrity;
    hide Pairwise;
    var p := Requested(spiffeids);
    MapKeepsPairwise(t.agents, JoinedAgent(t), AgentsDiffer, DifferentJoins);
    FilterKeepsPairwise(AgentsJoined(t), p, DifferentJoins);
    MapKeepsPairwise(Filter(AgentsJoined(t), p), ToInfo, DifferentJoins, DifferentAgents);
  }

  lemma FromMap<T, U>(xs: seq<T>, f: T -> U, y: U) returns (x: T)
    requires y in Map(f, xs)
    ensures x in xs && f(x) == y
  {
    var i :| 0 <= i < |Map(f, xs)| && Map(f, xs)[i] == y;
    x := xs[i];
  }

  lemma MetadataIsSound(t: Tables, spiffeids: seq<string>, i: AgentInfo)
    requires Integrity(t) && i in Metadata(t, spiffeids)
    ensures i.spiffeid in Abstract(t).plugins && i == InfoOf(Abstract(t), i.spiffeid)
    ensures spiffeids == [] || i.spiffeid in spiffeids
  {
    AgentsJoinedIsOneRowEach(t);
    hide Integrity;
    hide Abstract;
    hide Map;
    hide AgentsJoined;
    var j := FromMap(Filter(AgentsJoined(t), Requested(spiffeids)), ToInfo, i);
    var a := FromMap(t.agents, JoinedAgent(t), j);
    InfoOfAgent(t, a);
  }

  lemma InMap<T, U>(xs: seq<T>, f: T -> U, x: T)
    requires x in xs
    ensures f(x) in Map(f, xs)
  {
  }

  lemma MetadataIsComplete(t: Tables, spiffeids: seq<string>, s: string)
    requires Integrity(t) && s in Abstract(t).plugins && (spiffeids == [] || s in spiffeids)
    ensures InfoOf(Abstract(t), s) in Metadata(t, spiffeids)
  {
    AgentsJoinedIsOneRowEach(t);
    PluginsGet(t.agents, s);
    hide Integrity;
    var a := FindAgent(t.agents, s).value;
    InfoOfAgent(t, a);
    InMap(t.agents, JoinedAgent(t), a);
    InMap(Filter(AgentsJoined(t), Requested(spiffeids)), ToInfo, JoinedAgent(t)(a));
  }

  /** One row for each known agent asked for (all of them if none is named), with its plugin and its cluster. */
  lemma MetadataIsExact(t: Tables, spiffeids: seq<string>)
    requires Integrity(t)
    ensures var g := Abstract(t); var infos := Metadata(t, spiffeids);
      && Pairwise(infos, DifferentAgents)
      && (forall i | i in infos :: i.spiffeid in g.plugins && i == InfoOf(g, i.spiffeid))
      && (forall s | s in g.plugins :: InfoOf(g, s) in infos <==> spiffeids == [] || s in spiffeids)
  {
    MetadataIsDistinct(t, spiffeids);
    hide Integrity;
    hide Abstract;
    hide Metadata;
    forall i | i in Metadata(t, spiffeids)
      ensures i.spiffeid in Abstract(t).plugins && i == InfoOf(Abstract(t), i.spiffeid)
      ensures spiffeids == [] || i.spiffeid in spiffeids
    {
      MetadataIsSound(t, spiffeids, i);
    }
    forall s | s in Abstract(t).plugins && (spiffeids == [] || s in spiffeids)
      ensures InfoOf(Abstract(t), s) in Metadata(t, spiffeids)
    {
      MetadataIsComplete(t, spiffeids, s);
    }
  }

  // ----- GROUP BY clusters.name

  function InGroup(name: string): ClusterJoin -> bool {
    (j: ClusterJoin) => j.cluster.name == name
  }

  /** The non-NULL agents of joined rows, which is what GROUP_CONCAT sees. */
  function AgentNames(rows: seq<ClusterJoin>): seq<string> {
    if rows == [] then []
    else if rows[0].agent.Some? then [rows[0].agent.value.spiffeid] + AgentNames(rows[1..])
    else AgentNames(rows[1..])
  }

  function GroupOf(t: Tables, name: string): seq<string> {
    AgentNames(Filter(ClustersJoined(t), InGroup(name)))
  }

  function FindAgentById(rows: seq<AgentRow>, id: Option<nat>): (r: Option<AgentRow>)
    ensures r.Some? ==> r.value in rows && id == Some(r.value.id)
    ensures r.None? ==> forall a | a in rows :: id != Some(a.id)
  {
    if rows == [] then None
    else if id == Some(rows[0].id) then Some(rows[0])
    else FindAgentById(rows[1..], id)
  }

  function MemberName(t: Tables): MemberRow -> string {
    (m: MemberRow) => var a := FindAgentById(t.agents, m.agentId); if a.Some? then a.value.spiffeid else ""
  }

  lemma {:induction false} FilterFlatMap<T, U>(xs: seq<T>, f: T -> seq<U>, p: U -> bool, q: T -> bool)
    requires forall x | x in xs :: forall y | y in f(x) :: p(y) == q(x)
    ensures Filter(FlatMap(xs, f), p) == FlatMap(Filter(xs, q), f)
  {
    if xs == [] {
    } else {
      var x := xs[0];
      FilterAppend(f(x), FlatMap(xs[1..], f), p);
      FilterFlatMap(xs[1..], f, p, q);
      if q(x) {
        FilterAll(f(x), p);
      } else {
        FilterNone(f(x), p);
      }
    }
  }

  lemma {:induction false} AgentNamesAppend(xs: seq<ClusterJoin>, ys: seq<ClusterJoin>)
    ensures AgentNames(xs + ys) == AgentNames(xs) + AgentNames(ys)
  {
    if xs == [] {
      assert xs + ys == ys;
    } else {
      assert (xs + ys)[1..] == xs[1..] + ys;
      AgentNamesAppend(xs[1..], ys);
    }
  }

  lemma JoinedMember(t: Tables, c: ClusterRow, m: MemberRow)
    requires Integrity(t) && m in t.members
    ensures AgentNames(AgentsOfMember(t, c)(Some(m))) == [MemberName(t)(m)]
  {
    hide Integrity;
    hide Map;
    var a := AgentOfMember(t, m);
    var b := FindAgentById(t.agents, m.agentId).value;
    SameIdSameAgent(t, a, b);
    OrNullOne(a);
    MapOne(x => ClusterJoin(c, x), Some(a));
    assert AgentsOfMember(t, c)(Some(m)) == [ClusterJoin(c, Some(a))];
    assert [ClusterJoin(c, Some(a))][1..] == [];
  }

  lemma MapCons<T, U>(f: T -> U, xs: seq<T>)
    requires xs != []
    ensures Map(f, xs) == [f(xs[0])] + Map(f, xs[1..])
  {
  }

  lemma {:induction false} NamesOfMembers(t: Tables, c: ClusterRow, ms: seq<MemberRow>)
    requires Integrity(t) && forall m | m in ms :: m in t.members
    ensures AgentNames(FlatMap(Map(SomeOf, ms), AgentsOfMember(t, c))) == Map(MemberName(t), ms)
  {
    hide Integrity;
    if ms == [] {
    } else {
      hide Map;
      NamesOfMembers(t, c, ms[1..]);
      MapCons(SomeOf, ms);
      MapCons(MemberName(t), ms);
      JoinedMember(t, c, ms[0]);
      AgentNamesAppend(AgentsOfMember(t, c)(Some(ms[0])), FlatMap(Map(SomeOf, ms[1..]), AgentsOfMember(t, c)));
    }
  }

  lemma NamesOfCluster(t: Tables, c: ClusterRow)
    requires Integrity(t)
    ensures AgentNames(JoinCluster(t)(c)) == Map(MemberName(t), Filter(t.members, OfCluster(c.id)))
  {
    var ms := Filter(t.members, OfCluster(c.id));
    hide Integrity;
    if ms == [] {
      FlatMapOne(None, AgentsOfMember(t, c));
      MapOne(x => ClusterJoin(c, x), None);
      assert JoinCluster(t)(c) == [ClusterJoin(c, None)];
    } else {
      NamesOfMembers(t, c, ms);
    }
  }

  lemma OneCluster(t: Tables, name: string)
    requires Integrity(t)
    ensures Filter(t.clusters, Named(name)) ==
            if FindCluster(t.clusters, name).None? then [] else [FindCluster(t.clusters, name).value]
  {
    var p := Named(name);
    if FindCluster(t.clusters, name).None? {
      FilterNone(t.clusters, p);
    } else {
      PairwiseWeaken(t.clusters, ClustersDiffer, (y, z) => !p(y) || !p(z));
      OneMatch(t.clusters, p, FindCluster(t.clusters, name).value);
    }
  }

  /** The rows of a group: those of the one cluster of that name. */
  lemma GroupRows(t: Tables, name: string)
    requires Integrity(t)
    ensures Filter(ClustersJoined(t), InGroup(name)) ==
            if FindCluster(t.clusters, name).None? then []
            else JoinCluster(t)(FindCluster(t.clusters, name).value)
  {
    OneCluster(t, name);
    hide Integrity;
    FilterFlatMap(t.clusters, JoinCluster(t), InGroup(name), Named(name));
    if FindCluster(t.clusters, name).Some? {
      FlatMapOne(FindCluster(t.clusters, name).value, JoinCluster(t));
    }
  }

  /** The names in a group: those of the cluster's members. */
  lemma GroupIsMembers(t: Tables, name: string)
    requires Integrity(t)
    ensures var c := FindCluster(t.clusters, name);
      GroupOf(t, name) == if c.None? then [] else Map(MemberName(t), Filter(t.members, OfCluster(c.value.id)))
  {
    GroupRows(t, name);
    hide Integrity;
    hide JoinCluster;
    hide Filter;
    hide Map;
    hide MemberName;
    var c := FindCluster(t.clusters, name);
    if c.Some? {
      NamesOfCluster(t, c.value);
    }
  }

  lemma MembersHaveDistinctNames(t: Tables, ms: seq<MemberRow>, id: nat)
    requires Integrity(t) && ms == Filter(t.members, OfCluster(id))
    ensures NoDuplicates(Map(MemberName(t), ms))
  {
    FilterKeepsPairwise(t.members, OfCluster(id), MembersDiffer);
    forall i, j | 0 <= i < j < |ms| ensures MemberName(t)(ms[i]) != MemberName(t)(ms[j]) {
      assert MembersDiffer(ms[i], ms[j]);
      assert ms[i] in t.members && ms[j] in t.members;
      var a := AgentOfMember(t, ms[i]);
      var b := AgentOfMember(t, ms[j]);
      SameIdSameAgent(t, a, FindAgentById(t.agents, ms[i].agentId).value);
      SameIdSameAgent(t, b, FindAgentById(t.agents, ms[j].agentId).value);
      SameIdSameAgent(t, a, b);
    }
  }

  /** A membership row assigns the agent it names to the cluster it points at. */
  lemma MemberIsHome(t: Tables, m: MemberRow, c: ClusterRow)
    requires Integrity(t) && m in t.members && c in t.clusters && m.clusterId == Some(c.id)
    ensures ClusterOf(t, MemberName(t)(m)) == Some(c.name)
  {
    var a := AgentOfMember(t, m);
    SameIdSameAgent(t, a, FindAgentById(t.agents, m.agentId).value);
    LinkFixesCluster(t, a.spiffeid, c.name, a, m, c);
  }

  lemma HomeHasMember(t: Tables, s: string) returns (m: MemberRow, c: ClusterRow)
    requires Integrity(t) && ClusterOf(t, s).Some?
    ensures m in t.members && c in t.clusters && m.clusterId == Some(c.id)
    ensures MemberName(t)(m) == s && c.name == ClusterOf(t, s).value
    ensures FindCluster(t.clusters, c.name) == Some(c)
  {
    var a;
    a, m, c := LinkOf(t, s);
    SameIdSameAgent(t, a, FindAgentById(t.agents, m.agentId).value);
    var i :| 0 <= i < |t.clusters| && t.clusters[i] == c;
    FindTheCluster(t.clusters, i);
  }

  lemma GroupHoldsHome(t: Tables, name: string, s: string)
    requires Integrity(t)
    ensures s in GroupOf(t, name) <==> ClusterOf(t, s) == Some(name)
  {
    GroupIsMembers(t, name);
    hide Integrity;
    hide ClusterOf;
    hide GroupOf;
    hide Filter;
    hide Map;
    hide MemberName;
    var found := FindCluster(t.clusters, name);
    if s in GroupOf(t, name) {
      var m := FromMap(Filter(t.members, OfCluster(found.value.id)), MemberName(t), s);
      MemberIsHome(t, m, found.value);
    }
    if ClusterOf(t, s) == Some(name) {
      var m, c := HomeHasMember(t, s);
      InMap(Filter(t.members, OfCluster(c.id)), MemberName(t), m);
    }
  }

  /** A group holds the agents assigned to the cluster, each once. */
  lemma GroupIsExact(t: Tables, name: string)
    requires Integrity(t)
    ensures NoDuplicates(GroupOf(t, name))
    ensures forall s :: s in GroupOf(t, name) <==> Get(Abstract(t).homes, s) == Some(name)
  {
    GroupIsMembers(t, name);
    hide GroupOf;
    var c := FindCluster(t.clusters, name);
    if c.Some? {
      MembersHaveDistinctNames(t, Filter(t.members, OfCluster(c.value.id)), c.value.id);
    }
    forall s ensures s in GroupOf(t, name) <==> ClusterOf(t, s) == Some(name) {
      GroupHoldsHome(t, name, s);
    }
    hide Integrity;
    forall s ensures s in GroupOf(t, name) <==> Get(Abstract(t).homes, s) == Some(name) {
      HomesGet(t, s);
    }
  }

  // ----- GROUP_CONCAT and Split

  /** NULL for a group without agents; the order of the agents is the engine's choice. */
  function GroupConcat(agents: seq<string>): Option<string> {
    if agents == [] then None else Some(Join(agents, ','))
  }

  function ListOf(concat: Option<string>): seq<string> {
    match concat
    case None => []
    case Some(s) => Split(s, ',')
  }

  /** Splitting the concatenation gives the group back exactly when no spiffeid holds a comma. */
  lemma ListOfGroupConcat(agents: seq<string>)
    ensures ListOf(GroupConcat(agents)) == agents <==> Free(agents, ',')
    ensures multiset(ListOf(GroupConcat(agents))) == multiset(agents) <==> Free(agents, ',')
  {
    if agents != [] {
      SplitInvertsJoin(agents, ',');
      PiecesAreFree(Join(agents, ','), ',');
      var list := ListOf(GroupConcat(agents));
      if multiset(list) == multiset(agents) {
        forall a | a in agents ensures ',' !in a {
          assert a in multiset(agents);
          assert a in list;
        }
      }
    }
  }

  // ----- GetAgentClusterName, and the agreement of the views

  function IsAgent(spiffeid: string): AgentJoin -> bool {
    (j: AgentJoin) => j.agent.spiffeid == spiffeid
  }

  function HomeRows(t: Tables, spiffeid: string): seq<AgentJoin> {
    Filter(AgentsJoined(t), IsAgent(spiffeid))
  }

  function ClusterColumn(j: AgentJoin): Option<string> {
    match j.cluster
    case None => None
    case Some(c) => Some(c.name)
  }

  lemma NoHomeRowOfUnknown(t: Tables, s: string)
    requires Integrity(t) && FindAgent(t.agents, s).None?
    ensures HomeRows(t, s) == []
  {
    AgentsJoinedIsOneRowEach(t);
    hide Integrity;
    hide AgentsJoined;
    hide Map;
    hide HomeRow;
    forall j | j in AgentsJoined(t) ensures !IsAgent(s)(j) {
      var a := FromMap(t.agents, JoinedAgent(t), j);
    }
    FilterNone(AgentsJoined(t), IsAgent(s));
  }

  lemma HomeRowOfKnown(t: Tables, s: string)
    requires Integrity(t) && FindAgent(t.agents, s).Some?
    ensures HomeRows(t, s) == [JoinedAgent(t)(FindAgent(t.agents, s).value)]
  {
    AgentsJoinedIsOneRowEach(t);
    assert Pairwise(t.agents, AgentsDiffer);
    hide Integrity;
    hide Pairwise;
    hide AgentsJoined;
    hide Map;
    hide HomeRow;
    hide Filter;
    var a, p := FindAgent(t.agents, s).value, IsAgent(s);
    InMap(t.agents, JoinedAgent(t), a);
    MapKeepsPairwise(t.agents, JoinedAgent(t), AgentsDiffer, DifferentJoins);
    PairwiseWeaken(AgentsJoined(t), DifferentJoins, (y, z) => !p(y) || !p(z));
    OneMatch(AgentsJoined(t), p, JoinedAgent(t)(a));
  }

  lemma HomeRowsAreExact(t: Tables, s: string)
    requires Integrity(t)
    ensures var rows := HomeRows(t, s);
      if s in Abstract(t).plugins then |rows| == 1 && ClusterColumn(rows[0]) == ClusterOf(t, s) else rows == []
  {
    PluginsGet(t.agents, s);
    hide Integrity;
    hide HomeRows;
    hide Plugins;
    hide FindMember;
    hide FindClusterById;
    if s in Abstract(t).plugins {
      HomeRowOfKnown(t, s);
    } else {
      NoHomeRowOfUnknown(t, s);
    }
  }

  /**
    The agents listed under a cluster are those whose own look-up names that cluster, whatever order the engine
    concatenates them in, exactly when no spiffeid in the cluster holds a comma.
   */
  lemma ViewsAgree(t: Tables, name: string, order: seq<string>)
    requires Integrity(t) && multiset(order) == multiset(GroupOf(t, name))
    ensures (forall a :: a in ListOf(GroupConcat(order)) <==> ClusterOf(t, a) == Some(name)) <==> Free(order, ',')
  {
    GroupIsExact(t, name);
    hide Integrity;
    forall a ensures a in order <==> ClusterOf(t, a) == Some(name) {
      HomesGet(t, a);
      assert a in order <==> a in multiset(order);
      assert a in GroupOf(t, name) <==> a in multiset(GroupOf(t, name));
    }
    ListOfGroupConcat(order);
    if order != [] {
      PiecesAreFree(Join(order, ','), ',');
    }
  }
}
