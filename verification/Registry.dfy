/**
  The simple picture behind the tables: cluster metadata by name, workload plugins by agent, and
  the one cluster each assigned agent belongs to.
 */
module Registry {
  import opened Wrappers
  import opened Sequences
  import opened Schema

  datatype Meta = Meta(createdAt: string, domainName: string, managedBy: string, platformType: string)

  datatype Registry = Registry(
    clusters: map<string, Meta>, plugins: map<string, Option<string>>, homes: map<string, string>)

  // ----- The picture of a state of the tables

  function MetaOf(c: ClusterRow): Meta {
    Meta(c.createdAt, c.domainName, c.managedBy, c.platformType)
  }

  function FindMember(rows: seq<MemberRow>, agentId: nat): (r: Option<MemberRow>)
    ensures r.Some? ==> r.value in rows && r.value.agentId == Some(agentId)
    ensures r.None? ==> forall m | m in rows :: m.agentId != Some(agentId)
  {
    if rows == [] then None
    else if rows[0].agentId == Some(agentId) then Some(rows[0])
    else FindMember(rows[1..], agentId)
  }

  function FindClusterById(rows: seq<ClusterRow>, id: Option<nat>): (r: Option<ClusterRow>)
    ensures r.Some? ==> r.value in rows && id == Some(r.value.id)
    ensures r.None? ==> forall c | c in rows :: id != Some(c.id)
  {
    if rows == [] then None
    else if id == Some(rows[0].id) then Some(rows[0])
    else FindClusterById(rows[1..], id)
  }

  /** The cluster of an agent: agent row, then membership row, then cluster row. */
  function ClusterOf(t: Tables, spiffeid: string): Option<string> {
    match FindAgent(t.agents, spiffeid)
    case None => None
    case Some(a) =>
      match FindMember(t.members, a.id)
      case None => None
      case Some(m) =>
        match FindClusterById(t.clusters, m.clusterId)
        case None => None
        case Some(c) => Some(c.name)
  }

  function Get<K, V>(m: map<K, V>, k: K): Option<V> {
    if k in m then Some(m[k]) else None
  }

  function MetaNamed(rows: seq<ClusterRow>, name: string): Option<Meta> {
    match FindCluster(rows, name)
    case None => None
    case Some(c) => Some(MetaOf(c))
  }

  function PluginOf(rows: seq<AgentRow>, spiffeid: string): Option<Option<string>> {
    match FindAgent(rows, spiffeid)
    case None => None
    case Some(a) => Some(a.plugin)
  }

  ghost function Clusters(rows: seq<ClusterRow>): map<string, Meta> {
    map n | n in (set c | c in rows :: c.name) :: MetaNamed(rows, n).value
  }

  ghost function Plugins(rows: seq<AgentRow>): map<string, Option<string>> {
    map s | s in (set a | a in rows :: a.spiffeid) :: PluginOf(rows, s).value
  }

  ghost function Homes(t: Tables): map<string, string> {
    map s | s in (set a | a in t.agents :: a.spiffeid) && ClusterOf(t, s).Some? :: ClusterOf(t, s).value
  }

  ghost function Abstract(t: Tables): Registry {
    Registry(Clusters(t.clusters), Plugins(t.agents), Homes(t))
  }

  lemma ClustersGet(rows: seq<ClusterRow>, name: string)
    ensures Get(Clusters(rows), name) == MetaNamed(rows, name)
  {
  }

  lemma PluginsGet(rows: seq<AgentRow>, spiffeid: string)
    ensures Get(Plugins(rows), spiffeid) == PluginOf(rows, spiffeid)
  {
  }

  lemma HomesGet(t: Tables, spiffeid: string)
    ensures Get(Homes(t), spiffeid) == ClusterOf(t, spiffeid)
  {
  }

  /** Maps with the same entries are the same map. */
  lemma SameMaps<K(!new), V>(m: map<K, V>, m': map<K, V>)
    requires forall k :: Get(m, k) == Get(m', k)
    ensures m == m'
  {
    assert forall k :: k in m <==> Get(m, k).Some?;
    assert forall k :: k in m' <==> Get(m', k).Some?;
    assert forall k | k in m :: Get(m, k) == Some(m[k]) && Get(m', k) == Some(m'[k]);
  }

  // ----- The operations on the picture

  predicate Assignable(g: Registry, spiffeids: seq<string>) {
    NoDuplicates(spiffeids) && forall s | s in spiffeids :: s !in g.homes
  }

  /** Unknown agents become known, without a plugin. */
  function Learn(g: Registry, spiffeids: seq<string>): Registry {
    g.(plugins := map s | s in g.plugins.Keys + (set x | x in spiffeids) ::
         if s in g.plugins then g.plugins[s] else None)
  }

  function Assign(g: Registry, name: string, spiffeids: seq<string>): (r: Registry)
    ensures r.clusters == g.clusters && r.plugins == g.plugins
  {
    g.(homes := map s | s in g.homes.Keys + (set x | x in spiffeids) ::
         if s in spiffeids then name else g.homes[s])
  }

  function Unassign(g: Registry, name: string): Registry {
    g.(homes := map s | s in g.homes && g.homes[s] != name :: g.homes[s])
  }

  lemma LearnNone(g: Registry)
    ensures Learn(g, []) == g
  {
  }

  lemma AssignNone(g: Registry, name: string)
    ensures Assign(g, name, []) == g && Assignable(g, [])
  {
  }

  lemma LearnOne(g: Registry, s: string)
    ensures Learn(g, [s]) == if s in g.plugins then g else g.(plugins := g.plugins[s := None])
  {
  }

  lemma LearnCons(g: Registry, s: string, rest: seq<string>)
    ensures Learn(Learn(g, [s]), rest) == Learn(g, [s] + rest)
  {
    assert Learn(Learn(g, [s]), rest).plugins == Learn(g, [s] + rest).plugins;
  }

  /** Assigning a list is assigning its elements one after the other; no element may be assigned already. */
  lemma AssignableCons(g: Registry, n: string, s: string, rest: seq<string>)
    ensures Assign(Assign(g, n, [s]), n, rest) == Assign(g, n, [s] + rest)
    ensures Assignable(g, [s] + rest) <==> s !in g.homes && Assignable(Assign(g, n, [s]), rest)
  {
    var all := [s] + rest;
    assert Assign(Assign(g, n, [s]), n, rest).homes == Assign(g, n, all).homes;
    NoDuplicatesCons(s, rest);
    assert s in all && forall x :: x in all <==> x == s || x in rest;
  }

  function NewMeta(c: ClusterInfo, createdAt: string): Meta {
    Meta(createdAt, c.domainName, c.managedBy, c.platformType)
  }

  datatype Op = Create(info: ClusterInfo) | Edit(info: ClusterInfo) | Delete(name: string)

  datatype Reason = ClusterExists | NoSuchCluster | AgentConflict

  /** Why an operation is refused, if it is. */
  function Refusal(g: Registry, op: Op): Option<Reason> {
    match op
    case Create(c) =>
      if c.name in g.clusters then Some(ClusterExists)
      else if !Assignable(g, c.agentsList) then Some(AgentConflict)
      else None
    case Edit(c) =>
      if c.name !in g.clusters then Some(NoSuchCluster)
      else if c.editedName != c.name && c.editedName in g.clusters then Some(ClusterExists)
      else if !Assignable(Unassign(g, c.name), c.agentsList) then Some(AgentConflict)
      else None
    case Delete(name) =>
      if name !in g.clusters then Some(NoSuchCluster) else None
  }

  /** What an accepted operation does; now is the time of the accepted attempt. */
  function After(g: Registry, op: Op, now: string): Registry
    requires Refusal(g, op).None?
  {
    match op
    case Create(c) =>
      Registry(
        g.clusters[c.name := NewMeta(c, now)],
        Learn(g, c.agentsList).plugins,
        Assign(g, c.name, c.agentsList).homes)
    case Edit(c) =>
      Registry(
        (g.clusters - {c.name})[c.editedName := NewMeta(c, g.clusters[c.name].createdAt)],
        Learn(g, c.agentsList).plugins,
        Assign(Unassign(g, c.name), c.editedName, c.agentsList).homes)
    case Delete(name) =>
      Registry(g.clusters - {name}, g.plugins, Unassign(g, name).homes)
  }

  /**
    What an accepted edit means, name by name and agent by agent: the old name is gone unless kept, the new name
    has the new metadata and the old creation time and exactly the listed agents, everything else is as it was.
   */
  lemma EditMeans(g: Registry, c: ClusterInfo, now: string)
    requires Refusal(g, Edit(c)).None?
    ensures var g' := After(g, Edit(c), now);
      && (forall n :: Get(g'.clusters, n) ==
            if n == c.editedName then
              Some(Meta(g.clusters[c.name].createdAt, c.domainName, c.managedBy, c.platformType))
            else if n == c.name then None
            else Get(g.clusters, n))
      && (forall s :: Get(g'.homes, s) ==
            if s in c.agentsList then Some(c.editedName)
            else if Get(g.homes, s) == Some(c.name) then None
            else Get(g.homes, s))
      && (forall s :: Get(g'.plugins, s) ==
            if s in g.plugins then Some(g.plugins[s]) else if s in c.agentsList then Some(None) else None)
  {
  }

  /** What an accepted creation means, and likewise a deletion. */
  lemma CreateMeans(g: Registry, c: ClusterInfo, now: string)
    requires Refusal(g, Create(c)).None?
    ensures var g' := After(g, Create(c), now);
      && (forall n :: Get(g'.clusters, n) ==
            if n == c.name then Some(Meta(now, c.domainName, c.managedBy, c.platformType)) else Get(g.clusters, n))
      && (forall s :: Get(g'.homes, s) == if s in c.agentsList then Some(c.name) else Get(g.homes, s))
      && (forall s :: Get(g'.plugins, s) ==
            if s in g.plugins then Some(g.plugins[s]) else if s in c.agentsList then Some(None) else None)
  {
  }

  lemma DeleteMeans(g: Registry, name: string, now: string)
    requires Refusal(g, Delete(name)).None?
    ensures var g' := After(g, Delete(name), now);
      && (forall n :: Get(g'.clusters, n) == if n == name then None else Get(g.clusters, n))
      && (forall s :: Get(g'.homes, s) == if Get(g.homes, s) == Some(name) then None else Get(g.homes, s))
      && g'.plugins == g.plugins
  {
  }

  /** What an operation is refused for. */
  lemma RefusedFor(g: Registry, c: ClusterInfo)
    ensures var r := Refusal(g, Create(c));
      && (r == Some(ClusterExists) <==> c.name in g.clusters)
      && (r == Some(AgentConflict) <==>
            && c.name !in g.clusters
            && !(NoDuplicates(c.agentsList) && forall s | s in c.agentsList :: s !in g.homes))
      && r != Some(NoSuchCluster)
    ensures var r := Refusal(g, Edit(c)); var free := c.editedName == c.name || c.editedName !in g.clusters;
      && (r == Some(NoSuchCluster) <==> c.name !in g.clusters)
      && (r == Some(ClusterExists) <==> c.name in g.clusters && !free)
      && (r == Some(AgentConflict) <==>
            && c.name in g.clusters && free
            && !(NoDuplicates(c.agentsList) && forall s | s in c.agentsList ::
                   Get(g.homes, s) in {None, Some(c.name)}))
    ensures Refusal(g, Delete(c.name)) == if c.name in g.clusters then None else Some(NoSuchCluster)
  {
  }

  /**
    An edit is accepted exactly when the cluster exists, its new name is its own or free, and each agent is listed
    once and is free or already in the cluster.
   */
  lemma EditAccepted(g: Registry, c: ClusterInfo)
    ensures Refusal(g, Edit(c)).None? <==>
      && c.name in g.clusters
      && (c.editedName == c.name || c.editedName !in g.clusters)
      && NoDuplicates(c.agentsList)
      && forall s | s in c.agentsList :: Get(g.homes, s) in {None, Some(c.name)}
  {
  }
}
