/** Each SQL statement, run where the code runs it, keeps the tables sound and acts on the simple picture. */
module Refinement {
  import opened Wrappers
  import opened Sequences
  import opened Schema
  import opened Registry

  // ----- Look-ups in a longer table

  lemma {:induction false} FindClusterAppend(rows: seq<ClusterRow>, row: ClusterRow, name: string)
    ensures FindCluster(rows + [row], name) ==
            if FindCluster(rows, name).Some? then FindCluster(rows, name)
            else if row.name == name then Some(row) else None
  {
    if rows == [] {
    } else {
      assert (rows + [row])[1..] == rows[1..] + [row];
      FindClusterAppend(rows[1..], row, name);
    }
  }

  lemma {:induction false} FindClusterByIdAppend(rows: seq<ClusterRow>, row: ClusterRow, id: Option<nat>)
    requires FindClusterById(rows, id).Some?
    ensures FindClusterById(rows + [row], id) == FindClusterById(rows, id)
  {
    assert (rows + [row])[1..] == rows[1..] + [row];
    if id != Some(rows[0].id) {
      FindClusterByIdAppend(rows[1..], row, id);
    }
  }

  lemma {:induction false} FindAgentAppend(rows: seq<AgentRow>, row: AgentRow, spiffeid: string)
    ensures FindAgent(rows + [row], spiffeid) ==
            if FindAgent(rows, spiffeid).Some? then FindAgent(rows, spiffeid)
            else if row.spiffeid == spiffeid then Some(row) else None
  {
    if rows == [] {
    } else {
      assert (rows + [row])[1..] == rows[1..] + [row];
      FindAgentAppend(rows[1..], row, spiffeid);
    }
  }

  lemma {:induction false} FindMemberAppend(rows: seq<MemberRow>, row: MemberRow, agentId: nat)
    ensures FindMember(rows + [row], agentId) ==
            if FindMember(rows, agentId).Some? then FindMember(rows, agentId)
            else if row.agentId == Some(agentId) then Some(row) else None
  {
    if rows == [] {
    } else {
      assert (rows + [row])[1..] == rows[1..] + [row];
      FindMemberAppend(rows[1..], row, agentId);
    }
  }

  /** The joined rows behind one assignment. */
  ghost predicate Link(t: Tables, s: string, n: string, a: AgentRow, m: MemberRow, c: ClusterRow) {
    && a in t.agents && a.spiffeid == s
    && m in t.members && m.agentId == Some(a.id)
    && c in t.clusters && m.clusterId == Some(c.id) && c.name == n
  }

  lemma LinkFixesCluster(t: Tables, s: string, n: string, a: AgentRow, m: MemberRow, c: ClusterRow)
    requires Integrity(t) && Link(t, s, n, a, m, c)
    ensures ClusterOf(t, s) == Some(n)
  {
  }

  lemma LinkOf(t: Tables, s: string) returns (a: AgentRow, m: MemberRow, c: ClusterRow)
    requires ClusterOf(t, s).Some?
    ensures Link(t, s, ClusterOf(t, s).value, a, m, c)
  {
    a := FindAgent(t.agents, s).value;
    m := FindMember(t.members, a.id).value;
    c := FindClusterById(t.clusters, m.clusterId).value;
  }

  /** Assigned agents are assigned to registered clusters. */
  lemma HomesAreClusters(t: Tables)
    ensures forall s | s in Abstract(t).homes :: Abstract(t).homes[s] in Abstract(t).clusters
  {
  }

  lemma HomesAre(t: Tables, homes: map<string, string>)
    requires forall s :: ClusterOf(t, s) == Get(homes, s)
    ensures Homes(t) == homes
  {
    forall s ensures Get(Homes(t), s) == Get(homes, s) {
      HomesGet(t, s);
    }
    SameMaps(Homes(t), homes);
  }

  lemma ClustersAre(rows: seq<ClusterRow>, clusters: map<string, Meta>)
    requires forall n :: MetaNamed(rows, n) == Get(clusters, n)
    ensures Clusters(rows) == clusters
  {
    forall n ensures Get(Clusters(rows), n) == Get(clusters, n) {
      ClustersGet(rows, n);
    }
    SameMaps(Clusters(rows), clusters);
  }

  lemma PluginsAre(rows: seq<AgentRow>, plugins: map<string, Option<string>>)
    requires forall s :: PluginOf(rows, s) == Get(plugins, s)
    ensures Plugins(rows) == plugins
  {
    forall s ensures Get(Plugins(rows), s) == Get(plugins, s) {
      PluginsGet(rows, s);
    }
    SameMaps(Plugins(rows), plugins);
  }

  lemma SameHomes(t: Tables, t': Tables)
    requires forall s :: ClusterOf(t', s) == ClusterOf(t, s)
    ensures Homes(t') == Homes(t)
  {
    forall s ensures ClusterOf(t', s) == Get(Homes(t), s) {
      HomesGet(t, s);
    }
    HomesAre(t', Homes(t));
  }

  /** Membership rows keep pointing at rows when the tables they point into only gain rows. */
  lemma StillPointing(t: Tables, t': Tables)
    requires forall a | a in t.agents :: HasAgentId(t'.agents, a.id)
    requires forall c | c in t.clusters :: HasClusterId(t'.clusters, c.id)
    ensures forall m | PointsAtRows(t, m) :: PointsAtRows(t', m)
  {
  }

  // ----- INSERT INTO clusters

  lemma InsertClusterKeepsIntegrity(t: Tables, c: ClusterInfo, now: string)
    requires Integrity(t) && InsertCluster(t, c, now).Rows?
    ensures Integrity(InsertCluster(t, c, now).tables)
  {
  }

  lemma ClustersAppend(rows: seq<ClusterRow>, row: ClusterRow)
    requires FindCluster(rows, row.name).None?
    ensures Clusters(rows + [row]) == Clusters(rows)[row.name := MetaOf(row)]
  {
    forall n ensures MetaNamed(rows + [row], n) == Get(Clusters(rows)[row.name := MetaOf(row)], n) {
      FindClusterAppend(rows, row, n);
      ClustersGet(rows, n);
    }
    ClustersAre(rows + [row], Clusters(rows)[row.name := MetaOf(row)]);
  }

  lemma InsertClusterKeepsHome(t: Tables, row: ClusterRow, s: string)
    requires Integrity(t)
    ensures ClusterOf(t.(clusters := t.clusters + [row]), s) == ClusterOf(t, s)
  {
    var a := FindAgent(t.agents, s);
    if a.Some? {
      var m := FindMember(t.members, a.value.id);
      if m.Some? {
        assert PointsAtRows(t, m.value);
        FindClusterByIdAppend(t.clusters, row, m.value.clusterId);
      }
    }
  }

  lemma InsertClusterStep(t: Tables, c: ClusterInfo, now: string)
    requires Integrity(t)
    ensures InsertCluster(t, c, now).Constraint? <==> c.name in Abstract(t).clusters
    ensures InsertCluster(t, c, now).Rows? ==>
      var t', g := InsertCluster(t, c, now).tables, Abstract(t);
      Integrity(t') && Abstract(t') == g.(clusters := g.clusters[c.name := NewMeta(c, now)])
  {
    if InsertCluster(t, c, now).Rows? {
      var t' := InsertCluster(t, c, now).tables;
      var row := t'.clusters[|t.clusters|];
      InsertClusterKeepsIntegrity(t, c, now);
      ClustersAppend(t.clusters, row);
      forall s ensures ClusterOf(t', s) == ClusterOf(t, s) {
        InsertClusterKeepsHome(t, row, s);
      }
      SameHomes(t, t');
    }
  }

  // ----- UPDATE clusters

  function Moved(homes: map<string, string>, from: string, to: string): map<string, string> {
    map s | s in homes :: if homes[s] == from then to else homes[s]
  }

  /** The rename alone: the cluster's agents move to its new name with it. */
  function Rename(g: Registry, c: ClusterInfo): Registry
    requires c.name in g.clusters
  {
    Registry(
      (g.clusters - {c.name})[c.editedName := NewMeta(c, g.clusters[c.name].createdAt)],
      g.plugins,
      Moved(g.homes, c.name, c.editedName))
  }

  lemma {:induction false} NamedCount(rows: seq<ClusterRow>, name: string)
    requires UniqueNames(rows)
    ensures |Filter(rows, Named(name))| == if FindCluster(rows, name).Some? then 1 else 0
  {
    if rows == [] {
    } else {
      NamedCount(rows[1..], name);
      if rows[0].name == name {
        assert forall c | c in rows[1..] :: c.name != name;
      }
    }
  }

  lemma {:induction false} FindByIdAfterEdit(rows: seq<ClusterRow>, c: ClusterInfo, id: Option<nat>)
    ensures FindClusterById(EditRows(rows, c), id) ==
            match FindClusterById(rows, id) case None => None case Some(r) => Some(EditRow(r, c))
  {
    if rows == [] {
    } else {
      assert EditRows(rows, c)[1..] == EditRows(rows[1..], c);
      FindByIdAfterEdit(rows[1..], c, id);
    }
  }

  lemma EditKeepsNamesUnique(rows: seq<ClusterRow>, c: ClusterInfo)
    requires UniqueNames(rows) && FindCluster(rows, c.name).Some?
    ensures UniqueNames(EditRows(rows, c)) <==> c.editedName == c.name || FindCluster(rows, c.editedName).None?
  {
  }

  lemma EditKeepsIntegrity(t: Tables, c: ClusterInfo)
    requires Integrity(t) && UniqueNames(EditRows(t.clusters, c))
    ensures Integrity(t.(clusters := EditRows(t.clusters, c)))
  {
    var edited := EditRows(t.clusters, c);
    var t' := t.(clusters := edited);
    forall r | r in t.clusters ensures HasClusterId(edited, r.id) {
      var i :| 0 <= i < |t.clusters| && t.clusters[i] == r;
      assert edited[i] in edited && edited[i].id == r.id;
    }
    StillPointing(t, t');
    assert forall r | r in edited :: r.id <= t.lastCluster;
  }

  lemma FindAfterEdit(rows: seq<ClusterRow>, c: ClusterInfo, n: string, i: nat)
    requires UniqueNames(rows) && UniqueNames(EditRows(rows, c))
    requires i < |rows| && rows[i].name == c.name
    ensures FindCluster(EditRows(rows, c), n) ==
      if n == c.editedName then Some(EditRow(rows[i], c))
      else if n == c.name then None
      else FindCluster(rows, n)
  {
  }

  lemma ClustersAfterEdit(rows: seq<ClusterRow>, c: ClusterInfo)
    requires UniqueNames(rows) && UniqueNames(EditRows(rows, c)) && FindCluster(rows, c.name).Some?
    ensures c.name in Clusters(rows)
    ensures Clusters(EditRows(rows, c)) ==
            (Clusters(rows) - {c.name})[c.editedName := NewMeta(c, Clusters(rows)[c.name].createdAt)]
  {
    ClustersGet(rows, c.name);
    hide Clusters;
    var i :| 0 <= i < |rows| && rows[i] == FindCluster(rows, c.name).value;
    var expected := (Clusters(rows) - {c.name})[c.editedName := NewMeta(c, Clusters(rows)[c.name].createdAt)];
    forall n ensures MetaNamed(EditRows(rows, c), n) == Get(expected, n) {
      FindAfterEdit(rows, c, n, i);
      ClustersGet(rows, n);
    }
    ClustersAre(EditRows(rows, c), expected);
  }

  lemma HomeAfterEdit(t: Tables, c: ClusterInfo, s: string)
    ensures ClusterOf(t.(clusters := EditRows(t.clusters, c)), s) ==
            if ClusterOf(t, s) == Some(c.name) then Some(c.editedName) else ClusterOf(t, s)
  {
    var a := FindAgent(t.agents, s);
    if a.Some? {
      var m := FindMember(t.members, a.value.id);
      if m.Some? {
        FindByIdAfterEdit(t.clusters, c, m.value.clusterId);
      }
    }
  }

  lemma HomesAfterEdit(t: Tables, c: ClusterInfo)
    ensures Homes(t.(clusters := EditRows(t.clusters, c))) == Moved(Homes(t), c.name, c.editedName)
  {
    hide ClusterOf;
    hide Homes;
    var t', homes := t.(clusters := EditRows(t.clusters, c)), Moved(Homes(t), c.name, c.editedName);
    forall s ensures ClusterOf(t', s) == Get(homes, s) {
      HomeAfterEdit(t, c, s);
      HomesGet(t, s);
    }
    HomesAre(t', homes);
  }

  lemma UpdateClusterStep(t: Tables, c: ClusterInfo)
    requires Integrity(t)
    ensures var g := Abstract(t); var r := UpdateCluster(t, c);
      if c.name !in g.clusters then r == Rows(t, 0)
      else if c.editedName != c.name && c.editedName in g.clusters then r.Constraint?
      else r.Rows? && r.affected == 1 && Integrity(r.tables) && Abstract(r.tables) == Rename(g, c)
  {
    var g, rows, edited := Abstract(t), t.clusters, EditRows(t.clusters, c);
    NamedCount(rows, c.name);
    ClustersGet(rows, c.name);
    ClustersGet(rows, c.editedName);
    if c.name !in g.clusters {
      assert edited == rows;
    } else {
      EditKeepsNamesUnique(rows, c);
      if UniqueNames(edited) {
        var t' := t.(clusters := edited);
        EditKeepsIntegrity(t, c);
        ClustersAfterEdit(rows, c);
        HomesAfterEdit(t, c);
      }
    }
  }

  lemma FindTheCluster(rows: seq<ClusterRow>, i: nat)
    requires UniqueNames(rows) && i < |rows|
    ensures FindCluster(rows, rows[i].name) == Some(rows[i])
  {
  }

  // ----- DELETE FROM cluster_memberships

  lemma DropMembersKeepsIntegrity(t: Tables, id: nat)
    requires Integrity(t)
    ensures Integrity(t.(members := Filter(t.members, NotInCluster(id))))
  {
    FilterKeepsPairwise(t.members, NotInCluster(id), MembersDiffer);
    StillPointing(t, t.(members := Filter(t.members, NotInCluster(id))));
  }

  /** Of the membership rows that are kept, an agent's is its own row or none. */
  lemma FindMemberKept(t: Tables, p: MemberRow -> bool, agentId: nat)
    requires Integrity(t)
    ensures FindMember(Filter(t.members, p), agentId) ==
            var m := FindMember(t.members, agentId); if m.Some? && p(m.value) then m else None
  {
  }

  /** Row ids and names identify the same cluster row. */
  lemma ClusterByIdIsByName(t: Tables, c: ClusterRow)
    requires Integrity(t) && c in t.clusters
    ensures FindClusterById(t.clusters, Some(c.id)) == Some(c)
    ensures forall id | FindClusterById(t.clusters, id).Some? ::
      FindClusterById(t.clusters, id).value.name == c.name <==> id == Some(c.id)
  {
  }

  lemma HomeAfterDeleteMembers(t: Tables, name: string, s: string)
    requires Integrity(t)
    ensures ClusterOf(DeleteMembersOf(t, name), s) ==
            if ClusterOf(t, s) == Some(name) then None else ClusterOf(t, s)
  {
    hide Integrity;
    var a, c := FindAgent(t.agents, s), FindCluster(t.clusters, name);
    if a.Some? {
      var m := FindMember(t.members, a.value.id);
      if c.Some? {
        FindMemberKept(t, NotInCluster(c.value.id), a.value.id);
        ClusterByIdIsByName(t, c.value);
      }
    }
  }

  lemma DeleteMembersStep(t: Tables, name: string)
    requires Integrity(t)
    ensures var t' := DeleteMembersOf(t, name);
      Integrity(t') && Abstract(t') == Unassign(Abstract(t), name)
  {
    hide ClusterOf;
    hide Homes;
    hide Integrity;
    hide Clusters;
    hide Plugins;
    hide Filter;
    var t', g := DeleteMembersOf(t, name), Abstract(t);
    if ClusterId(t, name).Some? {
      DropMembersKeepsIntegrity(t, ClusterId(t, name).value);
    }
    forall s ensures ClusterOf(t', s) == Get(Unassign(g, name).homes, s) {
      HomeAfterDeleteMembers(t, name, s);
      HomesGet(t, s);
    }
    HomesAre(t', Unassign(g, name).homes);
  }

  // ----- DELETE FROM clusters

  predicate Vacant(g: Registry, name: string) {
    forall s | s in g.homes :: g.homes[s] != name
  }

  lemma FindAfterDrop(rows: seq<ClusterRow>, name: string, n: string)
    requires UniqueNames(rows)
    ensures FindCluster(Filter(rows, NotNamed(name)), n) == if n == name then None else FindCluster(rows, n)
  {
  }

  lemma ClustersAfterDrop(rows: seq<ClusterRow>, name: string)
    requires UniqueNames(rows)
    ensures Clusters(Filter(rows, NotNamed(name))) == Clusters(rows) - {name}
  {
    hide Clusters;
    forall n ensures MetaNamed(Filter(rows, NotNamed(name)), n) == Get(Clusters(rows) - {name}, n) {
      FindAfterDrop(rows, name, n);
      ClustersGet(rows, n);
    }
    ClustersAre(Filter(rows, NotNamed(name)), Clusters(rows) - {name});
  }

  lemma DropClusterKeepsIntegrity(t: Tables, name: string)
    requires Integrity(t) && Vacant(Abstract(t), name)
    ensures Integrity(t.(clusters := Filter(t.clusters, NotNamed(name))))
  {
    var kept := Filter(t.clusters, NotNamed(name));
    FilterKeepsPairwise(t.clusters, NotNamed(name), ClustersDiffer);
    forall m | m in t.members ensures PointsAtRows(t.(clusters := kept), m) {
      assert PointsAtRows(t, m);
      var a :| a in t.agents && a.id == m.agentId.value;
      var c :| c in t.clusters && c.id == m.clusterId.value;
      LinkFixesCluster(t, a.spiffeid, c.name, a, m, c);
      assert a.spiffeid in Homes(t) && Homes(t)[a.spiffeid] == c.name;
      assert c in kept;
    }
  }

  lemma FindClusterKept(t: Tables, p: ClusterRow -> bool, id: Option<nat>)
    requires Integrity(t)
    ensures FindClusterById(Filter(t.clusters, p), id) ==
            var c := FindClusterById(t.clusters, id); if c.Some? && p(c.value) then c else None
  {
  }

  lemma DropClusterKeepsHome(t: Tables, name: string, s: string)
    requires Integrity(t) && Vacant(Abstract(t), name)
    ensures ClusterOf(t.(clusters := Filter(t.clusters, NotNamed(name))), s) == ClusterOf(t, s)
  {
    hide Integrity;
    HomesGet(t, s);
    var a := FindAgent(t.agents, s);
    if a.Some? {
      var m := FindMember(t.members, a.value.id);
      if m.Some? {
        FindClusterKept(t, NotNamed(name), m.value.clusterId);
      }
    }
  }

  /** Deleting a cluster row is sound once no membership row points at it. */
  lemma DeleteClusterStep(t: Tables, name: string)
    requires Integrity(t) && Vacant(Abstract(t), name)
    ensures var g := Abstract(t); var r := DeleteCluster(t, name);
      r.Rows? && Integrity(r.tables) && Abstract(r.tables) == g.(clusters := g.clusters - {name})
    ensures var r := DeleteCluster(t, name);
      if name in Abstract(t).clusters then r.affected == 1 else r.affected == 0 && r.tables == t
  {
    var t' := DeleteCluster(t, name).tables;
    ClustersGet(t.clusters, name);
    NamedCount(t.clusters, name);
    if name !in Abstract(t).clusters {
      FilterAll(t.clusters, NotNamed(name));
    }
    DropClusterKeepsIntegrity(t, name);
    ClustersAfterDrop(t.clusters, name);
    hide ClusterOf;
    hide Homes;
    hide Integrity;
    forall s ensures ClusterOf(t', s) == ClusterOf(t, s) {
      DropClusterKeepsHome(t, name, s);
    }
    SameHomes(t, t');
  }

  // ----- INSERT OR IGNORE INTO agents

  /** Only rows without a plugin were added, behind the rows that were there. */
  ghost predicate OnlyNewAgents(before: seq<AgentRow>, after: seq<AgentRow>) {
    before <= after && forall i | |before| <= i < |after| :: after[i].plugin.None?
  }

  lemma NewAgentKeepsIntegrity(t: Tables, row: AgentRow)
    requires Integrity(t) && FindAgent(t.agents, row.spiffeid).None? && row.id == t.lastAgent + 1
    ensures Integrity(t.(agents := t.agents + [row], lastAgent := t.lastAgent + 1))
  {
  }

  lemma NewAgentHasNoHome(t: Tables, row: AgentRow, s: string)
    requires Integrity(t) && FindAgent(t.agents, row.spiffeid).None? && row.id == t.lastAgent + 1
    ensures ClusterOf(t.(agents := t.agents + [row], lastAgent := t.lastAgent + 1), s) == ClusterOf(t, s)
  {
    FindAgentAppend(t.agents, row, s);
    assert forall m | m in t.members :: m.agentId != Some(row.id);
  }

  lemma PluginsAppend(rows: seq<AgentRow>, row: AgentRow)
    requires FindAgent(rows, row.spiffeid).None?
    ensures Plugins(rows + [row]) == Plugins(rows)[row.spiffeid := row.plugin]
  {
    hide Plugins;
    forall s ensures PluginOf(rows + [row], s) == Get(Plugins(rows)[row.spiffeid := row.plugin], s) {
      FindAgentAppend(rows, row, s);
      PluginsGet(rows, s);
    }
    PluginsAre(rows + [row], Plugins(rows)[row.spiffeid := row.plugin]);
  }

  lemma AgentRowAdded(t: Tables, spiffeid: string, plugin: Option<string>)
    requires Integrity(t) && FindAgent(t.agents, spiffeid).None?
    ensures var row := AgentRow(t.lastAgent + 1, spiffeid, plugin);
      var t' := t.(agents := t.agents + [row], lastAgent := t.lastAgent + 1);
      Integrity(t') && Homes(t') == Homes(t) && Plugins(t'.agents) == Plugins(t.agents)[spiffeid := plugin]
  {
    var row := AgentRow(t.lastAgent + 1, spiffeid, plugin);
    var t' := t.(agents := t.agents + [row], lastAgent := t.lastAgent + 1);
    NewAgentKeepsIntegrity(t, row);
    forall s ensures ClusterOf(t', s) == ClusterOf(t, s) {
      NewAgentHasNoHome(t, row, s);
    }
    PluginsAppend(t.agents, row);
    hide ClusterOf;
    hide Homes;
    hide Integrity;
    SameHomes(t, t');
  }

  lemma InsertAgentStep(t: Tables, s: string)
    requires Integrity(t)
    ensures var t' := InsertAgentOrIgnore(t, s);
      && Integrity(t') && Abstract(t') == Learn(Abstract(t), [s])
      && t'.clusters == t.clusters && t'.members == t.members && OnlyNewAgents(t.agents, t'.agents)
  {
    hide Homes;
    hide Plugins;
    hide Clusters;
    hide Integrity;
    hide Learn;
    PluginsGet(t.agents, s);
    if FindAgent(t.agents, s).None? {
      AgentRowAdded(t, s, None);
    }
    LearnOne(Abstract(t), s);
  }

  lemma {:induction false} InsertAgentsStep(t: Tables, spiffeids: seq<string>)
    requires Integrity(t)
    ensures var t' := InsertAgentsOrIgnore(t, spiffeids);
      && Integrity(t') && Abstract(t') == Learn(Abstract(t), spiffeids)
      && t'.clusters == t.clusters && t'.members == t.members && OnlyNewAgents(t.agents, t'.agents)
    decreases |spiffeids|
  {
    hide Integrity;
    hide Abstract;
    hide Learn;
    if spiffeids == [] {
      LearnNone(Abstract(t));
    } else {
      var s, rest := spiffeids[0], spiffeids[1..];
      InsertAgentStep(t, s);
      InsertAgentsStep(InsertAgentOrIgnore(t, s), rest);
      LearnCons(Abstract(t), s, rest);
      assert [s] + rest == spiffeids;
    }
  }

  // ----- INSERT OR ABORT INTO cluster_memberships

  lemma TakenMeansHome(t: Tables, s: string)
    requires Integrity(t) && FindAgent(t.agents, s).Some?
    ensures AgentTaken(t.members, AgentId(t, s)) <==> ClusterOf(t, s).Some?
  {
  }

  /** A further row with references, for an agent that has none yet, keeps the tables sound. */
  lemma MemberRowKeepsIntegrity(t: Tables, row: MemberRow)
    requires Integrity(t) && PointsAtRows(t, row) && row.id == t.lastMember + 1
    requires forall m | m in t.members :: m.agentId != row.agentId
    ensures Integrity(t.(members := t.members + [row], lastMember := t.lastMember + 1))
  {
    PairwiseSnoc(t.members, row, MembersDiffer);
    hide Pairwise;
    hide HasAgentId;
    hide HasClusterId;
  }

  lemma NewMemberKeepsIntegrity(t: Tables, s: string, n: string)
    requires Integrity(t) && FindAgent(t.agents, s).Some? && FindCluster(t.clusters, n).Some?
    requires InsertMember(t, s, n).Some?
    ensures Integrity(InsertMember(t, s, n).value)
  {
    hide Integrity;
    var row := InsertMember(t, s, n).value.members[|t.members|];
    assert FindAgent(t.agents, s).value in t.agents && FindCluster(t.clusters, n).value in t.clusters;
    MemberRowKeepsIntegrity(t, row);
  }

  lemma SameIdSameAgent(t: Tables, a: AgentRow, b: AgentRow)
    requires Integrity(t) && a in t.agents && b in t.agents
    ensures a.id == b.id || a.spiffeid == b.spiffeid ==> a == b
  {
  }

  lemma HomeAfterInsertMember(t: Tables, s: string, n: string, x: string)
    requires Integrity(t) && FindAgent(t.agents, s).Some? && FindCluster(t.clusters, n).Some?
    requires InsertMember(t, s, n).Some?
    ensures ClusterOf(InsertMember(t, s, n).value, x) == if x == s then Some(n) else ClusterOf(t, x)
  {
    var t' := InsertMember(t, s, n).value;
    var row, a := t'.members[|t.members|], FindAgent(t.agents, x);
    if a.Some? {
      FindMemberAppend(t.members, row, a.value.id);
      assert FindAgent(t.agents, s).value in t.agents;
      if x == s {
        assert row in t'.members && FindCluster(t.clusters, n).value in t.clusters;
        LinkFixesCluster(t', s, n, a.value, row, FindCluster(t.clusters, n).value) by {
          NewMemberKeepsIntegrity(t, s, n);
        }
      } else {
        SameIdSameAgent(t, a.value, FindAgent(t.agents, s).value);
      }
    }
  }

  lemma InsertMemberStep(t: Tables, s: string, n: string)
    requires Integrity(t) && s in Abstract(t).plugins && n in Abstract(t).clusters
    ensures InsertMember(t, s, n).None? <==> s in Abstract(t).homes
    ensures InsertMember(t, s, n).Some? ==>
      var t' := InsertMember(t, s, n).value;
      && Integrity(t') && Abstract(t') == Assign(Abstract(t), n, [s])
      && t'.clusters == t.clusters && t'.agents == t.agents
  {
    hide Integrity;
    hide Homes;
    hide ClusterOf;
    hide Clusters;
    hide Plugins;
    hide AgentTaken;
    PluginsGet(t.agents, s);
    ClustersGet(t.clusters, n);
    HomesGet(t, s);
    TakenMeansHome(t, s);
    if InsertMember(t, s, n).Some? {
      var t', homes := InsertMember(t, s, n).value, Assign(Abstract(t), n, [s]).homes;
      NewMemberKeepsIntegrity(t, s, n);
      forall x ensures ClusterOf(t', x) == Get(homes, x) {
        HomeAfterInsertMember(t, s, n, x);
        HomesGet(t, x);
      }
      HomesAre(t', homes);
    }
  }

  lemma {:induction false} InsertMembersStep(t: Tables, n: string, spiffeids: seq<string>)
    requires Integrity(t) && n in Abstract(t).clusters && forall s | s in spiffeids :: s in Abstract(t).plugins
    ensures InsertMembers(t, n, spiffeids).Some? <==> Assignable(Abstract(t), spiffeids)
    ensures InsertMembers(t, n, spiffeids).Some? ==>
      var t' := InsertMembers(t, n, spiffeids).value;
      && Integrity(t') && Abstract(t') == Assign(Abstract(t), n, spiffeids)
      && t'.clusters == t.clusters && t'.agents == t.agents
    decreases |spiffeids|
  {
    hide Integrity;
    hide Abstract;
    hide Assign;
    hide Assignable;
    if spiffeids == [] {
      AssignNone(Abstract(t), n);
    } else {
      var s, rest := spiffeids[0], spiffeids[1..];
      InsertMemberStep(t, s, n);
      assert [s] + rest == spiffeids;
      AssignableCons(Abstract(t), n, s, rest);
      if InsertMember(t, s, n).Some? {
        InsertMembersStep(InsertMember(t, s, n).value, n, rest);
      }
    }
  }

  // ----- INSERT INTO agents ... ON CONFLICT DO UPDATE

  function WithPlugin(row: Option<AgentRow>, s: string, plugin: Option<string>): Option<AgentRow> {
    match row
    case None => None
    case Some(a) => Some(SetPlugin(a, s, plugin))
  }

  lemma {:induction false} FindAfterSetPlugin(
    rows: seq<AgentRow>, rows': seq<AgentRow>, s: string, plugin: Option<string>, x: string)
    requires |rows'| == |rows| && forall i | 0 <= i < |rows| :: rows'[i] == SetPlugin(rows[i], s, plugin)
    ensures FindAgent(rows', x) == WithPlugin(FindAgent(rows, x), s, plugin)
  {
    if rows == [] {
    } else {
      FindAfterSetPlugin(rows[1..], rows'[1..], s, plugin, x);
    }
  }

  lemma SetPluginKeepsHomes(t: Tables, s: string, plugin: Option<string>)
    requires FindAgent(t.agents, s).Some?
    ensures Homes(UpsertAgent(t, s, plugin)) == Homes(t)
  {
    hide Homes;
    var t' := UpsertAgent(t, s, plugin);
    forall x ensures ClusterOf(t', x) == ClusterOf(t, x) {
      FindAfterSetPlugin(t.agents, t'.agents, s, plugin, x);
    }
    SameHomes(t, t');
  }

  lemma SetPluginStep(t: Tables, s: string, plugin: Option<string>)
    requires FindAgent(t.agents, s).Some?
    ensures var t' := UpsertAgent(t, s, plugin);
      Homes(t') == Homes(t) && Plugins(t'.agents) == Plugins(t.agents)[s := plugin]
    ensures forall x :: AgentId(t, x).Some? ==> AgentId(UpsertAgent(t, s, plugin), x) == AgentId(t, x)
  {
    hide Homes;
    hide Plugins;
    var t' := UpsertAgent(t, s, plugin);
    forall x ensures FindAgent(t'.agents, x) == WithPlugin(FindAgent(t.agents, x), s, plugin) {
      FindAfterSetPlugin(t.agents, t'.agents, s, plugin, x);
    }
    SetPluginKeepsHomes(t, s, plugin);
    forall x ensures PluginOf(t'.agents, x) == Get(Plugins(t.agents)[s := plugin], x) {
      PluginsGet(t.agents, x);
    }
    PluginsAre(t'.agents, Plugins(t.agents)[s := plugin]);
  }

  lemma SameKeysStayDistinct(rows: seq<AgentRow>, rows': seq<AgentRow>)
    requires |rows'| == |rows| && Pairwise(rows, AgentsDiffer)
    requires forall i | 0 <= i < |rows| :: rows'[i].id == rows[i].id && rows'[i].spiffeid == rows[i].spiffeid
    ensures Pairwise(rows', AgentsDiffer)
    ensures forall a' | a' in rows' :: exists a | a in rows :: a.id == a'.id
    ensures forall a | a in rows :: HasAgentId(rows', a.id)
  {
  }

  lemma SetPluginKeepsIntegrity(t: Tables, s: string, plugin: Option<string>)
    requires Integrity(t) && FindAgent(t.agents, s).Some?
    ensures Integrity(UpsertAgent(t, s, plugin))
  {
    var t' := UpsertAgent(t, s, plugin);
    SameKeysStayDistinct(t.agents, t'.agents);
    hide Pairwise;
    StillPointing(t, t');
  }

  lemma UpsertAgentStep(t: Tables, s: string, plugin: Option<string>)
    requires Integrity(t)
    ensures var t', g := UpsertAgent(t, s, plugin), Abstract(t);
      && Integrity(t') && Abstract(t') == g.(plugins := g.plugins[s := plugin])
      && t'.clusters == t.clusters && t'.members == t.members
    ensures forall x :: AgentId(t, x).Some? ==> AgentId(UpsertAgent(t, s, plugin), x) == AgentId(t, x)
  {
    hide Integrity;
    hide Homes;
    hide Plugins;
    hide Clusters;
    if FindAgent(t.agents, s).None? {
      AgentRowAdded(t, s, plugin);
      forall x ensures AgentId(t, x).Some? ==> AgentId(UpsertAgent(t, s, plugin), x) == AgentId(t, x) {
        FindAgentAppend(t.agents, AgentRow(t.lastAgent + 1, s, plugin), x);
      }
    } else {
      SetPluginStep(t, s, plugin);
      SetPluginKeepsIntegrity(t, s, plugin);
    }
  }
}
