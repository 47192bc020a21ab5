/** From the database to the dashboards: what the pages show of the clusters that were registered. */
module EndToEnd {
  import opened Wrappers
  import opened Sequences
  import opened Text
  import opened Spiffe
  import opened Schema
  import opened Registry
  import opened Transactions
  import opened Runs
  import opened Views
  import Store
  import opened Association
  import opened Dashboards
  import opened SpiffeHelper

  /** What GetAgentsMetadata promises of its answer when these agents are asked for (all of them if none is named). */
  ghost predicate MetadataOf(g: Registry, asked: seq<string>, infos: seq<AgentInfo>) {
    && (forall i, j | 0 <= i < j < |infos| :: infos[i].spiffeid != infos[j].spiffeid)
    && (forall i | i in infos :: i.spiffeid in g.plugins && i == InfoOf(g, i.spiffeid))
    && (forall s | s in g.plugins :: InfoOf(g, s) in infos <==> asked == [] || s in asked)
  }

  /** The answer has all there is to know about this agent. */
  predicate Answered(g: Registry, asked: seq<string>, s: string) {
    asked == [] || s in asked || s !in g.plugins
  }

  /** The records as the pages hold them. */
  function Attestor(i: AgentInfo): AttestorInfo {
    AttestorInfo(i.spiffeid, i.plugin, i.cluster)
  }

  function PluginText(g: Registry, s: string): string {
    if s in g.plugins && g.plugins[s].Some? then g.plugins[s].value else ""
  }

  function ClusterText(g: Registry, s: string): string {
    if s in g.plugins && s in g.homes then g.homes[s] else ""
  }

  lemma RecordOfAgent(g: Registry, asked: seq<string>, infos: seq<AgentInfo>, s: string)
    requires MetadataOf(g, asked, infos) && Answered(g, asked, s)
    ensures AgentMetadata(s, Map(Attestor, infos)) == AttestorInfo(s, PluginText(g, s), ClusterText(g, s))
  {
    var records, p := Map(Attestor, infos), InfoFor(s);
    if s in g.plugins {
      var record := Attestor(InfoOf(g, s));
      InMap(infos, Attestor, InfoOf(g, s));
      assert record in Filter(records, p);
      var first := Filter(records, p)[0];
      assert first in records && first.spiffeid == s;
      var i := FromMap(infos, Attestor, first);
      assert i == InfoOf(g, s);
    } else {
      forall r | r in records ensures !p(r) {
        var i := FromMap(infos, Attestor, r);
      }
      FilterNone(records, p);
    }
  }

  /** A row of the entries table shows the plugin and the cluster registered for the entry's canonical agent. */
  lemma RowShowsRegistry(
    g: Registry, asked: seq<string>, infos: seq<AgentInfo>, agents: seq<Agent>, entries: seq<Entry>, e: Entry)
    requires MetadataOf(g, asked, infos) && Answered(g, asked, CanonicalParent(e, agents, entries))
    ensures var row := RowOf(Map(Attestor, infos), agents, entries)(e);
      && row.platformType == OrNone(PluginText(g, row.canonicalAgentId))
      && row.clusterName == OrNone(ClusterText(g, row.canonicalAgentId))
  {
    RecordOfAgent(g, asked, infos, CanonicalParent(e, agents, entries));
    hide CanonicalParent;
    hide AgentMetadata;
  }

  /**
    Filtered by a cluster, the table shows an entry exactly when its canonical agent is registered in the cluster;
    only a cluster that is itself named "None" is confused with having none.
   */
  lemma RowsOfCluster(
    t: Tables, asked: seq<string>, infos: seq<AgentInfo>, agents: seq<Agent>, entries: seq<Entry>, e: Entry,
    name: string)
    requires MetadataOf(Abstract(t), asked, infos) && name != ""
    requires Answered(Abstract(t), asked, CanonicalParent(e, agents, entries))
    ensures var home := Get(Abstract(t).homes, CanonicalParent(e, agents, entries));
      (Matches(Some(name), None)(RowOf(Map(Attestor, infos), agents, entries)(e)) <==> home == Some(name)) <==>
      name != "None" || home !in {None, Some("")}
  {
    var g, s := Abstract(t), CanonicalParent(e, agents, entries);
    RowShowsRegistry(g, asked, infos, agents, entries, e);
    assert s in g.homes ==> s in g.plugins;
    hide CanonicalParent;
    hide AgentMetadata;
  }

  /** Below an agent, a row shows that agent with its registered plugin and cluster, "None" where there is none. */
  lemma RowBelowAgent(
    g: Registry, asked: seq<string>, infos: seq<AgentInfo>,
    agents: seq<Agent>, i: nat, entries: seq<Entry>, e: Entry)
    requires i < |agents| && Print(e.parentId) == IdOf(agents[i])
    requires MetadataOf(g, asked, infos) && Answered(g, asked, IdOf(agents[i]))
    ensures var row, id := RowOf(Map(Attestor, infos), agents, entries)(e), IdOf(agents[i]);
      && row.spiffeid == Print(e.spiffeId) && row.parentId == id && row.canonicalAgentId == id
      && row.platformType == (if Get(g.plugins, id) in {None, Some(None), Some(Some(""))} then "None"
                              else g.plugins[id].value)
      && row.clusterName == (if id !in g.plugins || Get(g.homes, id) in {None, Some("")} then "None" else g.homes[id])
  {
    ParentIsAgent(agents, i, entries, e);
    RowShowsRegistry(g, asked, infos, agents, entries, e);
    hide CanonicalParent;
    hide AgentMetadata;
    hide Print;
  }

  // ----- From the handlers to the answers

  function CalmAt(now: string): Weather {
    Weather(false, [], false, false, now)
  }

  lemma FoundAtOnce(t: Tables, op: Op, tries: seq<Try>, now: string)
    requires tries == [Try([], CalmAt(now))]
    ensures FoundBy(t, tries, 0) == t && FirstCalm(t, op, tries, 0)
  {
    assert tries[..1] == tries && tries[1..] == [];
    assert OthersOf(tries) == tries[0].others + OthersOf([]) == [];
  }

  /** One cluster with its agents, none of which has a plugin. */
  function OnlyCluster(c: ClusterInfo, name: string, createdAt: string): Registry {
    Registry(
      map[name := Meta(createdAt, c.domainName, c.managedBy, c.platformType)],
      map s | s in c.agentsList :: None,
      map s | s in c.agentsList :: name)
  }

  lemma FirstOnly(c: ClusterInfo, now: string)
    requires NoDuplicates(c.agentsList)
    ensures var g := Registry(map[], map[], map[]);
      Refusal(g, Create(c)).None? && After(g, Create(c), now) == OnlyCluster(c, c.name, now)
  {
  }

  lemma EmptyPicture()
    ensures Integrity(EMPTY) && Abstract(EMPTY) == Registry(map[], map[], map[])
  {
  }

  /** The server of a fresh database, after its one cluster was defined. */
  method DefineOnly(c: ClusterInfo, now: string) returns (server: Store.Server)
    requires c.name != "" && c.platformType != "" && c.editedName == "" && NoDuplicates(c.agentsList)
    ensures server.db.Valid() && server.db.Picture() == OnlyCluster(c, c.name, now)
    ensures fresh(server) && fresh(server.db) && fresh(server.db.database)
  {
    hide Abstract;
    hide Integrity;
    hide TookEffect;
    hide NoEffect;
    hide RefusedWith;
    hide OnlyCluster;
    var database := new Store.Database();
    var db := new Store.LocalSqliteDb(database);
    server := new Store.Server(db);
    var tries := [Try([], CalmAt(now))];
    EmptyPicture();
    FoundAtOnce(EMPTY, Create(c), tries, now);
    FirstOnly(c, now);
    var err := server.DefineCluster(c, tries);
  }

  /** The listed cluster has these fields and agents. */
  ghost predicate IsListed(info: ClusterInfo, c: ClusterInfo, name: string, createdAt: string) {
    && info.name == name && info.creationTime == createdAt
    && info.domainName == c.domainName && info.managedBy == c.managedBy && info.platformType == c.platformType
    && NoDuplicates(info.agentsList) && forall a :: a in info.agentsList <==> a in c.agentsList
  }

  lemma ShownIsListed(t: Tables, info: ClusterInfo, c: ClusterInfo, name: string, createdAt: string)
    requires Abstract(t).clusters == OnlyCluster(c, name, createdAt).clusters
    requires Abstract(t).homes == OnlyCluster(c, name, createdAt).homes
    requires forall a | a in c.agentsList :: ',' !in a
    requires Store.Shows(t, info)
    ensures IsListed(info, c, name, createdAt)
  {
    hide Abstract;
    assert info.name == name;
    forall a ensures Get(Abstract(t).homes, a) == Some(name) <==> a in c.agentsList {
      assert Get(OnlyCluster(c, name, createdAt).homes, a) == if a in c.agentsList then Some(name) else None;
    }
  }

  lemma ShownOnly(t: Tables, infos: seq<ClusterInfo>, c: ClusterInfo, name: string, createdAt: string)
    requires Abstract(t).clusters == OnlyCluster(c, name, createdAt).clusters
    requires Abstract(t).homes == OnlyCluster(c, name, createdAt).homes
    requires forall a | a in c.agentsList :: ',' !in a
    requires forall i, j | 0 <= i < j < |infos| :: infos[i].name != infos[j].name
    requires forall n | n in Abstract(t).clusters :: exists i | 0 <= i < |infos| :: infos[i].name == n
    requires forall i | 0 <= i < |infos| :: Store.Shows(t, infos[i])
    ensures |infos| == 1 && IsListed(infos[0], c, name, createdAt)
  {
    hide Abstract;
    hide Store.Shows;
    assert name in Abstract(t).clusters;
    forall i | 0 <= i < |infos| ensures IsListed(infos[i], c, name, createdAt) {
      ShownIsListed(t, infos[i], c, name, createdAt);
    }
    assert forall i, j | 0 <= i < |infos| && 0 <= j < |infos| && infos[i].name == infos[j].name :: i == j;
    var k :| 0 <= k < |infos| && infos[k].name == name;
    assert infos[0].name == name && infos[|infos| - 1].name == name;
  }

  /** A defined cluster is listed with its own fields and the time it was defined at. */
  method DefineThenList(c: ClusterInfo, now: string) returns (infos: seq<ClusterInfo>)
    requires c.name != "" && c.platformType != "" && c.editedName == "" && NoDuplicates(c.agentsList)
    requires forall a | a in c.agentsList :: ',' !in a
    ensures |infos| == 1 && IsListed(infos[0], c, c.name, now)
  {
    hide Abstract;
    hide Integrity;
    hide Store.Shows;
    var server := DefineOnly(c, now);
    hide OnlyCluster;
    var res := server.db.GetClusters(false);
    infos := res.value;
    ghost var t := server.db.database.Contents();
    assert server.db.Picture() == Abstract(t);
    ShownOnly(t, infos, c, c.name, now);
  }

  lemma EditOnlyAccepted(c: ClusterInfo, edit: ClusterInfo, createdAt: string)
    requires edit.name == c.name && NoDuplicates(edit.agentsList)
    ensures Refusal(OnlyCluster(c, c.name, createdAt), Edit(edit)).None?
  {
    EditAccepted(OnlyCluster(c, c.name, createdAt), edit);
    hide Refusal;
  }

  lemma EditOnly(c: ClusterInfo, edit: ClusterInfo, createdAt: string, now: string)
    requires edit.name == c.name && NoDuplicates(edit.agentsList)
    ensures var g := OnlyCluster(c, c.name, createdAt);
      && Refusal(g, Edit(edit)).None?
      && After(g, Edit(edit), now).clusters == OnlyCluster(edit, edit.editedName, createdAt).clusters
      && After(g, Edit(edit), now).homes == OnlyCluster(edit, edit.editedName, createdAt).homes
  {
    var g, only := OnlyCluster(c, c.name, createdAt), OnlyCluster(edit, edit.editedName, createdAt);
    EditOnlyAccepted(c, edit, createdAt);
    EditMeans(g, edit, now);
    var g' := After(g, Edit(edit), now);
    hide After;
    hide Refusal;
    forall s ensures Get(g'.homes, s) == Get(only.homes, s) {
    }
    SameMaps(g'.homes, only.homes);
    SameMaps(g'.clusters, only.clusters);
  }

  /** Edited, it is listed under its new name with its new fields and agents, and the time it was first defined at. */
  method EditThenList(c: ClusterInfo, edit: ClusterInfo, now: string, later: string)
    returns (infos: seq<ClusterInfo>)
    requires c.name != "" && c.platformType != "" && c.editedName == "" && NoDuplicates(c.agentsList)
    requires edit.name == c.name && edit.platformType != "" && edit.editedName != "" && NoDuplicates(edit.agentsList)
    requires forall a | a in edit.agentsList :: ',' !in a
    ensures |infos| == 1 && IsListed(infos[0], edit, edit.editedName, now)
  {
    hide Abstract;
    hide Integrity;
    hide Store.Shows;
    hide TookEffect;
    hide NoEffect;
    hide RefusedWith;
    hide OnlyCluster;
    var server := DefineOnly(c, now);
    var tries := [Try([], CalmAt(later))];
    FoundAtOnce(server.db.database.Contents(), Edit(edit), tries, later);
    EditOnly(c, edit, now, later);
    var err := server.EditCluster(edit, tries);
    var res := server.db.GetClusters(false);
    infos := res.value;
    ghost var t := server.db.database.Contents();
    assert server.db.Picture() == Abstract(t);
    ShownOnly(t, infos, edit, edit.editedName, now);
  }

  /** An agent's plugin is found again as it was registered; an empty one is none. */
  method RegisterThenAsk(server: Store.Server, info: AgentInfo) returns (res: Result<AgentInfo, Store.QueryError>)
    requires server.db.Valid() && info.spiffeid != ""
    modifies server.db.database
    ensures info.plugin != "" ==> res == Ok(AgentInfo(info.spiffeid, info.plugin, ""))
    ensures info.plugin == "" ==> res == Err(Store.QueryFailed)
  {
    hide Abstract;
    hide Integrity;
    var ok := server.DefineSelectors(info, false);
    res := server.db.GetAgentPluginInfo(info.spiffeid, false);
    if res.Err? {
      match res.error
      case QueryFailed =>
      case NotFound =>
    }
  }

  // ----- Where the listings go wrong: inputs, from the handlers to the answers

  function Named(name: string, platformType: string, agentsList: seq<string>): ClusterInfo {
    ClusterInfo(name, "", "", "", "", platformType, agentsList)
  }

  /** A listing is split from its cluster's agents, each once, in some order. */
  lemma OrderOfSplit(t: Tables, name: string, list: seq<string>) returns (order: seq<string>)
    requires Integrity(t) && Store.IsSplitGroup(t, name, list)
    ensures list == ListOf(GroupConcat(order)) && NoDuplicates(order)
    ensures forall s :: s in order <==> Get(Abstract(t).homes, s) == Some(name)
  {
    order :| multiset(order) == multiset(GroupOf(t, name)) && list == ListOf(GroupConcat(order));
    GroupIsExact(t, name);
    NoDuplicatesOfPermutation(GroupOf(t, name), order);
    SameElements(order, GroupOf(t, name));
  }

  lemma EmptyExactly<T(!new)>(xs: seq<T>)
    ensures xs == [] <==> forall x :: x !in xs
  {
    if xs != [] {
      assert xs[0] in xs;
    }
  }

  lemma OnlyElement(xs: seq<string>, s: string)
    requires NoDuplicates(xs) && forall x :: x in xs <==> x == s
    ensures xs == [s]
  {
    assert s in xs;
    var rest := xs[1..];
    assert xs == [xs[0]] + rest && xs[0] in xs;
    NoDuplicatesCons(xs[0], rest);
    assert forall x | x in rest :: x in xs;
    EmptyExactly(rest);
  }

  /** A cluster's only agent is listed as the pieces between its commas. */
  method OnlyAgentListed(name: string, platformType: string, s: string) returns (list: seq<string>)
    requires name != "" && platformType != ""
    ensures list == Split(s, ',')
  {
    hide Abstract;
    hide Integrity;
    hide Store.IsSplitGroup;
    var server := DefineOnly(Named(name, platformType, [s]), "");
    var db := server.db;
    var res := db.GetClusterAgents(name, false);
    list := res.value;
    ghost var order := OrderOfSplit(db.database.Contents(), name, list);
    OnlyElement(order, s);
  }

  /** The agent "a,b" is listed as the two agents "a" and "b". */
  method CommaIsListedAsTwo() returns (list: seq<string>)
    ensures list == ["a", "b"]
  {
    list := OnlyAgentListed("c", "k8s", "a,b");
    assert "a" + [','] + "b" == "a,b";
    SplitInTwoFree("a", ',', "b");
  }

  /** An agent that was only listed in a cluster has a NULL plugin, which the look-up reports as a query error. */
  method PluginOfListedAgent(name: string, platformType: string, s: string)
    returns (res: Result<AgentInfo, Store.QueryError>)
    requires name != "" && platformType != ""
    ensures res == Err(Store.QueryFailed)
  {
    hide Abstract;
    hide Integrity;
    var server := DefineOnly(Named(name, platformType, [s]), "");
    var db := server.db;
    assert s in [s] && db.Picture().plugins[s] == None;
    res := db.GetAgentPluginInfo(s, false);
    match res.error
    case QueryFailed =>
    case NotFound =>
  }

  lemma EveryRowIsNone(agents: seq<Agent>, entries: seq<Entry>)
    ensures forall r | r in Map(RowOf([], agents, entries), entries) :: r.clusterName == "None"
  {
    var rows := Map(RowOf([], agents, entries), entries);
    forall r | r in rows ensures r.clusterName == "None" {
      var i :| 0 <= i < |entries| && rows[i] == r;
      assert r == RowOf([], agents, entries)(entries[i]);
    }
  }

  /** A cluster named "None" has no agents, and yet the table filtered by it shows every entry. */
  method NoneListsEverything(platformType: string, agents: seq<AgentObject>, entries: seq<EntryObject>)
    returns (listed: seq<string>, rows: seq<Row>)
    requires platformType != ""
    modifies agents, entries
    ensures listed == []
    ensures rows == Map(RowOf([], AgentValues(agents), EntryValues(entries)), EntryValues(entries))
  {
    hide Abstract;
    hide Integrity;
    hide Store.IsSplitGroup;
    hide RowOf;
    hide Filter;
    hide Map;
    var server := DefineOnly(Named("None", platformType, []), "");
    var db := server.db;
    var listing := db.GetClusterAgents("None", false);
    listed := listing.value;
    ghost var order := OrderOfSplit(db.database.Contents(), "None", listed);
    EmptyExactly(order);
    var metadata := db.GetAgentsMetadata([], false);
    EmptyExactly(metadata.value);
    rows := EntryList(Map(Attestor, metadata.value), Some(agents), Some(entries), Some("None"), None);
    EveryRowIsNone(AgentValues(agents), EntryValues(entries));
    ghost var all := Map(RowOf([], AgentValues(agents), EntryValues(entries)), EntryValues(entries));
    FilterAll(all, (r: Row) => r.clusterName == "None");
  }

  /** An agent named by its position is registered in the cluster and the entry is below it. */
  predicate BelowRegistered(
    homes: map<string, string>, name: string, entries: seq<Entry>, agents: seq<Agent>, i: nat, j: nat)
    requires i < |agents| && j < |entries|
  {
    Get(homes, IdOf(agents[i])) == Some(name) && ParentIn(ValidIds(agents[i], entries))(entries[j])
  }

  function RegisteredPairs(
    homes: map<string, string>, name: string, entries: seq<Entry>, agents: seq<Agent>): set<(nat, nat)>
  {
    set i: nat, j: nat |
      0 <= i < |agents| && 0 <= j < |entries| && BelowRegistered(homes, name, entries, agents, i, j) :: (i, j)
  }

  /** The clusters page counts the pairs of an agent registered in the cluster and an entry below it (commas aside). */
  lemma ClusterPageCounts(t: Tables, info: ClusterInfo, entries: seq<Entry>, agents: seq<Agent>)
    requires Store.Shows(t, info)
    requires forall a | Get(Abstract(t).homes, a) == Some(info.name) :: ',' !in a
    ensures NumberEntriesOfCluster(info.agentsList, entries, agents) ==
            |RegisteredPairs(Abstract(t).homes, info.name, entries, agents)|
  {
    ClusterCountIsPairs(info.agentsList, entries, agents);
    var homes := Abstract(t).homes;
    hide Abstract;
    hide ValidIds;
    hide IdOf;
    forall i: nat, j: nat | i < |agents| && j < |entries|
      ensures Below(info.agentsList, entries, agents, i, j) <==>
              BelowRegistered(homes, info.name, entries, agents, i, j)
    {
    }
    hide Below;
    hide BelowRegistered;
    assert Pairs(info.agentsList, entries, agents) == RegisteredPairs(homes, info.name, entries, agents);
  }
}
