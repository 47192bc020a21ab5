/** The database connection, the transaction helper, the store and the server's guards around it. */
module Store {
  import opened Wrappers
  import opened Sequences
  import opened Text
  import opened Schema
  import opened Registry
  import opened Refinement
  import opened Transactions
  import opened Runs
  import opened Views

  /** The SQLite connection: three tables updated in place, and a snapshot to roll back to. */
  class Database {
    var agents: seq<AgentRow>
    var clusters: seq<ClusterRow>
    var members: seq<MemberRow>
    var lastAgent: nat
    var lastCluster: nat
    var lastMember: nat
    var snapshot: Tables

    function Contents(): Tables
      reads this
    {
      Tables(agents, clusters, members, lastAgent, lastCluster, lastMember)
    }

    constructor ()
      ensures Contents() == EMPTY
    {
      agents, clusters, members := [], [], [];
      lastAgent, lastCluster, lastMember := 0, 0, 0;
      snapshot := EMPTY;
    }

    method Restore()
      modifies this
      ensures Contents() == old(snapshot)
    {
      agents, clusters, members := snapshot.agents, snapshot.clusters, snapshot.members;
      lastAgent, lastCluster, lastMember := snapshot.lastAgent, snapshot.lastCluster, snapshot.lastMember;
    }

    method BeginTx(fails: bool) returns (ok: bool)
      modifies this`snapshot
      ensures ok == !fails && Contents() == old(Contents())
      ensures ok ==> snapshot == Contents()
    {
      ok := !fails;
      if ok {
        snapshot := Contents();
      }
    }

    method Commit(fails: bool) returns (ok: bool)
      modifies this
      ensures ok == !fails && Contents() == if fails then old(snapshot) else old(Contents())
    {
      ok := !fails;
      if fails {
        Restore();
      }
    }

    method Rollback(fails: bool) returns (ok: bool)
      modifies this
      ensures ok == !fails && Contents() == if fails then old(Contents()) else old(snapshot)
    {
      ok := !fails;
      if !fails {
        Restore();
      }
    }

    method ExecInsertCluster(c: ClusterInfo, now: string) returns (violated: bool)
      modifies this`clusters, this`lastCluster
      ensures violated == InsertCluster(old(Contents()), c, now).Constraint?
      ensures Contents() == if violated then old(Contents()) else InsertCluster(old(Contents()), c, now).tables
    {
      violated := FindCluster(clusters, c.name).Some?;
      if !violated {
        lastCluster := lastCluster + 1;
        clusters := clusters +
          [ClusterRow(lastCluster, c.name, now, c.domainName, c.managedBy, c.platformType)];
      }
    }

    method ExecUpdateCluster(c: ClusterInfo) returns (violated: bool, affected: nat)
      modifies this`clusters
      ensures violated == UpdateCluster(old(Contents()), c).Constraint?
      ensures !violated ==> UpdateCluster(old(Contents()), c) == Rows(Contents(), affected)
      ensures violated ==> Contents() == old(Contents())
    {
      var edited := EditRows(clusters, c);
      affected := |Filter(clusters, Named(c.name))|;
      violated := !UniqueNames(edited);
      if !violated {
        clusters := edited;
      }
    }

    method ExecDeleteCluster(name: string) returns (affected: nat)
      modifies this`clusters
      ensures DeleteCluster(old(Contents()), name) == Rows(Contents(), affected)
    {
      affected := |Filter(clusters, Named(name))|;
      clusters := Filter(clusters, NotNamed(name));
    }

    method ExecDeleteMembers(name: string)
      modifies this`members
      ensures Contents() == DeleteMembersOf(old(Contents()), name)
    {
      var id := ClusterId(Contents(), name);
      if id.Some? {
        members := Filter(members, NotInCluster(id.value));
      }
    }

    method ExecInsertAgents(vals: seq<string>)
      modifies this`agents, this`lastAgent
      ensures Contents() == InsertAgentsOrIgnore(old(Contents()), vals)
    {
      var i := 0;
      while i < |vals|
        invariant 0 <= i <= |vals|
        invariant InsertAgentsOrIgnore(Contents(), vals[i..]) == InsertAgentsOrIgnore(old(Contents()), vals)
      {
        assert vals[i..][0] == vals[i] && vals[i..][1..] == vals[i + 1..];
        if FindAgent(agents, vals[i]).None? {
          lastAgent := lastAgent + 1;
          agents := agents + [AgentRow(lastAgent, vals[i], None)];
        }
        i := i + 1;
      }
    }

    /** Rows are (spiffeid, cluster name) pairs, each resolved by a sub-select; a conflict undoes the statement. */
    method ExecInsertMembers(vals: seq<(string, string)>, ghost name: string, ghost spiffeids: seq<string>)
      returns (violated: bool)
      requires |vals| == |spiffeids| && forall i | 0 <= i < |vals| :: vals[i] == (spiffeids[i], name)
      modifies this`members, this`lastMember
      ensures violated == InsertMembers(old(Contents()), name, spiffeids).None?
      ensures Contents() == if violated then old(Contents()) else InsertMembers(old(Contents()), name, spiffeids).value
    {
      var oldMembers, oldLast := members, lastMember;
      var i := 0;
      violated := false;
      while i < |vals|
        invariant 0 <= i <= |vals|
        invariant agents == old(agents) && clusters == old(clusters)
        invariant InsertMembers(Contents(), name, spiffeids[i..]) == InsertMembers(old(Contents()), name, spiffeids)
      {
        assert spiffeids[i..][0] == spiffeids[i] && spiffeids[i..][1..] == spiffeids[i + 1..];
        var agentId, clusterId := AgentId(Contents(), vals[i].0), ClusterId(Contents(), vals[i].1);
        if AgentTaken(members, agentId) {
          members, lastMember := oldMembers, oldLast;
          violated := true;
          return;
        }
        lastMember := lastMember + 1;
        members := members + [MemberRow(lastMember, agentId, clusterId)];
        i := i + 1;
      }
    }

    method ExecUpsertAgent(spiffeid: string, plugin: Option<string>)
      modifies this`agents, this`lastAgent
      ensures Contents() == UpsertAgent(old(Contents()), spiffeid, plugin)
    {
      if FindAgent(agents, spiffeid).Some? {
        agents := seq(|agents|, i requires 0 <= i < |agents| reads this => SetPlugin(agents[i], spiffeid, plugin));
      } else {
        lastAgent := lastAgent + 1;
        agents := agents + [AgentRow(lastAgent, spiffeid, plugin)];
      }
    }
  }

  /** The statements of one open transaction. */
  class TornjakTxHelper {
    const db: Database

    constructor (db: Database)
      ensures this.db == db
    {
      this.db := db;
    }

    method RollbackHandler(error: DbError, fails: bool) returns (outcome: Outcome)
      modifies db
      ensures db.Contents() == if fails then old(db.Contents()) else old(db.snapshot)
      ensures outcome == Permanent(error, !fails)
    {
      var ok := db.Rollback(fails);
      outcome := Permanent(error, ok);
    }

    method InsertClusterMetadata(c: ClusterInfo, f: Fault, now: string) returns (err: Option<DbError>)
      modifies db
      ensures Ran(old(db.Contents()), InsertClusterStmt(c), f, now, err) && db.snapshot == old(db.snapshot)
    {
      if f.ExecFault? {
        return Some(SqlError);
      }
      var violated := db.ExecInsertCluster(c, now);
      return if violated then Some(PostFailure(ClusterExists)) else None;
    }

    method UpdateClusterMetadata(c: ClusterInfo, f: Fault, ghost now: string) returns (err: Option<DbError>)
      modifies db
      ensures Ran(old(db.Contents()), UpdateClusterStmt(c), f, now, err)
      ensures db.snapshot == old(db.snapshot)
    {
      if f.ExecFault? {
        return Some(SqlError);
      }
      var violated, numRows := db.ExecUpdateCluster(c);
      if violated {
        return Some(PostFailure(ClusterExists));
      }
      if f.CountFault? {
        return Some(SqlError);
      }
      if numRows != 1 {
        return Some(PostFailure(NoSuchCluster));
      }
      return None;
    }

    method DeleteClusterMetadata(name: string, f: Fault, ghost now: string) returns (err: Option<DbError>)
      modifies db
      ensures Ran(old(db.Contents()), DeleteClusterStmt(name), f, now, err)
      ensures db.snapshot == old(db.snapshot)
    {
      if f.ExecFault? {
        return Some(SqlError);
      }
      var numRows := db.ExecDeleteCluster(name);
      if f.CountFault? {
        return Some(SqlError);
      }
      if numRows != 1 {
        return Some(PostFailure(NoSuchCluster));
      }
      return None;
    }

    method DeleteClusterAgents(name: string, f: Fault, ghost now: string) returns (err: Option<DbError>)
      modifies db
      ensures Ran(old(db.Contents()), DeleteMembersStmt(name), f, now, err)
      ensures db.snapshot == old(db.snapshot)
    {
      if f.ExecFault? {
        return Some(SqlError);
      }
      db.ExecDeleteMembers(name);
      return None;
    }

    method AddAgentBatchToCluster(
      name: string, agentsList: seq<string>, faults: seq<Fault>, ghost now: string)
      returns (err: Option<DbError>)
      modifies db
      ensures RanScript(old(db.Contents()), AddBatch(name, agentsList), faults, now, err)
      ensures db.snapshot == old(db.snapshot)
    {
      if |agentsList| == 0 {
        return None;
      }
      var agents: seq<string> := [];
      for i := 0 to |agentsList|
        invariant agents == agentsList[..i]
      {
        agents := agents + [agentsList[i]];
      }
      assert agents == agentsList;
      if FirstFault(faults).ExecFault? {
        return Some(SqlError);
      }
      db.ExecInsertAgents(agents);
      var vals: seq<(string, string)> := [];
      for i := 0 to |agentsList|
        invariant |vals| == i && forall j | 0 <= j < i :: vals[j] == (agentsList[j], name)
      {
        vals := vals + [(agentsList[i], name)];
      }
      RunThen(db.Contents(), InsertMembersStmt(name, agentsList), End, LaterFaults(faults), now);
      if FirstFault(LaterFaults(faults)).ExecFault? {
        return Some(SqlError);
      }
      var violated := db.ExecInsertMembers(vals, name, agentsList);
      return if violated then Some(PostFailure(AgentConflict)) else None;
    }

    /** The statement ran as specified, from t to what the tables hold now. */
    ghost predicate Ran(t: Tables, stmt: Stmt, f: Fault, now: string, err: Option<DbError>)
      reads db
    {
      RunStmt(t, stmt, f, now) ==
      match err
      case None => StmtOk(db.Contents())
      case Some(e) => StmtErr(e, db.Contents())
    }

    ghost predicate RanScript(t: Tables, script: Script, faults: seq<Fault>, now: string, err: Option<DbError>)
      reads db
    {
      RunScript(t, script, faults, now) ==
      match err
      case None => StmtOk(db.Contents())
      case Some(e) => StmtErr(e, db.Contents())
    }
  }

  datatype QueryError = QueryFailed | NotFound

  /** A row of GetClusters: the grouped columns and the concatenated agents. */
  datatype GroupRow = GroupRow(cluster: ClusterRow, agents: Option<string>)

  ghost predicate IsGroup(t: Tables, row: GroupRow, order: seq<string>) {
    && row.cluster in t.clusters
    && multiset(order) == multiset(GroupOf(t, row.cluster.name))
    && row.agents == GroupConcat(order)
  }

  /** What splitting a group's concatenation at the commas gives, in whatever order the agents came. */
  ghost predicate IsSplitGroup(t: Tables, name: string, list: seq<string>) {
    exists order :: multiset(order) == multiset(GroupOf(t, name)) && list == ListOf(GroupConcat(order))
  }

  predicate DifferentGroups(a: GroupRow, b: GroupRow) {
    a.cluster.name != b.cluster.name
  }

  predicate HasGroup(rows: seq<GroupRow>, name: string) {
    exists r | r in rows :: r.cluster.name == name
  }

  lemma AddGroup(rows: seq<GroupRow>, row: GroupRow)
    requires Pairwise(rows, DifferentGroups) && !HasGroup(rows, row.cluster.name)
    ensures Pairwise(rows + [row], DifferentGroups) && HasGroup(rows + [row], row.cluster.name)
    ensures forall name | HasGroup(rows, name) :: HasGroup(rows + [row], name)
  {
  }

  function SelectorInfo(a: AgentRow): AgentInfo {
    AgentInfo(a.spiffeid, if a.plugin.Some? then a.plugin.value else "", "")
  }

  /** The listing holds exactly the agents with a plugin, each once. */
  ghost predicate ListsPlugins(plugins: map<string, Option<string>>, infos: seq<AgentInfo>) {
    && (forall i, j | 0 <= i < j < |infos| :: infos[i].spiffeid != infos[j].spiffeid)
    && (forall i | i in infos :: i.cluster == "" && Get(plugins, i.spiffeid) == Some(Some(i.plugin)))
    && (forall s | s in plugins && plugins[s].Some? :: AgentInfo(s, plugins[s].value, "") in infos)
  }

  lemma RowFixesPlugin(agents: seq<AgentRow>, a: AgentRow)
    requires Pairwise(agents, AgentsDiffer) && a in agents
    ensures Get(Plugins(agents), a.spiffeid) == Some(a.plugin)
  {
    PluginsGet(agents, a.spiffeid);
    var b := FindAgent(agents, a.spiffeid).value;
    var i, j :| 0 <= i < |agents| && 0 <= j < |agents| && agents[i] == a && agents[j] == b;
  }

  lemma SelectorsInAnyOrder(agents: seq<AgentRow>, rows: seq<AgentRow>, infos: seq<AgentInfo>)
    requires Pairwise(agents, AgentsDiffer)
    requires multiset(rows) == multiset(SelectorRows(agents)) && infos == Map(SelectorInfo, rows)
    ensures ListsPlugins(Plugins(agents), infos)
  {
    FilterKeepsPairwise(agents, HasPlugin, AgentsDiffer);
    PairwiseOfPermutation(SelectorRows(agents), rows, AgentsDiffer);
    SameElements(rows, SelectorRows(agents));
    hide Map;
    hide Plugins;
    forall i | i in infos ensures i.cluster == "" && Get(Plugins(agents), i.spiffeid) == Some(Some(i.plugin)) {
      var k :| 0 <= k < |infos| && infos[k] == i;
      assert rows[k] in rows && HasPlugin(rows[k]);
      RowFixesPlugin(agents, rows[k]);
    }
    forall s | s in Plugins(agents) && Plugins(agents)[s].Some?
      ensures AgentInfo(s, Plugins(agents)[s].value, "") in infos
    {
      PluginsGet(agents, s);
      var a := FindAgent(agents, s).value;
      assert a in rows;
      var k :| 0 <= k < |rows| && rows[k] == a;
      assert infos[k] == AgentInfo(s, Plugins(agents)[s].value, "");
    }
  }

  /** A listed cluster carries its metadata, and exactly its agents when none of them holds a comma. */
  ghost predicate Shows(t: Tables, info: ClusterInfo) {
    && Get(Abstract(t).clusters, info.name) ==
       Some(Meta(info.creationTime, info.domainName, info.managedBy, info.platformType))
    && ((forall a :: a in info.agentsList <==> Get(Abstract(t).homes, a) == Some(info.name))
        && NoDuplicates(info.agentsList)
        <==> forall a | Get(Abstract(t).homes, a) == Some(info.name) :: ',' !in a)
  }

  function GroupInfo(row: GroupRow): ClusterInfo {
    var c := row.cluster;
    ClusterInfo(c.name, "", c.createdAt, c.domainName, c.managedBy, c.platformType, ListOf(row.agents))
  }

  lemma ListIsMembership(t: Tables, name: string, order: seq<string>)
    requires Integrity(t) && multiset(order) == multiset(GroupOf(t, name))
    ensures var list := ListOf(GroupConcat(order));
      (forall a :: a in list <==> Get(Abstract(t).homes, a) == Some(name)) && NoDuplicates(list)
      <==> forall a | Get(Abstract(t).homes, a) == Some(name) :: ',' !in a
  {
    ViewsAgree(t, name, order);
    GroupIsExact(t, name);
    SameElements(order, GroupOf(t, name));
    NoDuplicatesOfPermutation(GroupOf(t, name), order);
    hide Integrity;
    hide GroupOf;
    hide Homes;
    forall a ensures Get(Abstract(t).homes, a) == ClusterOf(t, a) {
      HomesGet(t, a);
    }
    ListOfGroupConcat(order);
  }

  lemma GroupShows(t: Tables, row: GroupRow, order: seq<string>)
    requires Integrity(t) && IsGroup(t, row, order)
    ensures Shows(t, GroupInfo(row))
  {
    var c := row.cluster;
    var i :| 0 <= i < |t.clusters| && t.clusters[i] == c;
    FindTheCluster(t.clusters, i);
    ClustersGet(t.clusters, c.name);
    ListIsMembership(t, c.name, order);
  }

  lemma OneInfoPerCluster(t: Tables, rows: seq<GroupRow>, infos: seq<ClusterInfo>)
    requires Pairwise(rows, DifferentGroups) && forall c | c in t.clusters :: HasGroup(rows, c.name)
    requires |infos| == |rows| && forall i | 0 <= i < |rows| :: infos[i].name == rows[i].cluster.name
    ensures forall i, j | 0 <= i < j < |infos| :: infos[i].name != infos[j].name
    ensures forall n | n in Abstract(t).clusters :: exists i | 0 <= i < |infos| :: infos[i].name == n
  {
  }

  lemma ClustersListed(t: Tables, rows: seq<GroupRow>, orders: seq<seq<string>>, infos: seq<ClusterInfo>)
    requires Integrity(t) && infos == Map(GroupInfo, rows) && |orders| == |rows|
    requires forall i | 0 <= i < |rows| :: IsGroup(t, rows[i], orders[i])
    requires Pairwise(rows, DifferentGroups) && forall c | c in t.clusters :: HasGroup(rows, c.name)
    ensures forall i, j | 0 <= i < j < |infos| :: infos[i].name != infos[j].name
    ensures forall n | n in Abstract(t).clusters :: exists i | 0 <= i < |infos| :: infos[i].name == n
    ensures forall i | 0 <= i < |infos| :: Shows(t, infos[i])
  {
    OneInfoPerCluster(t, rows, infos);
    hide Integrity;
    hide Shows;
    forall i | 0 <= i < |infos| ensures Shows(t, infos[i]) {
      GroupShows(t, rows[i], orders[i]);
    }
  }

  lemma HomeRowsInAnyOrder(t: Tables, s: string, rows: seq<AgentJoin>)
    requires Integrity(t) && multiset(rows) == multiset(HomeRows(t, s))
    ensures |rows| == 0 ==> s !in Abstract(t).homes
    ensures |rows| > 0 ==> ClusterColumn(rows[0]) == Get(Abstract(t).homes, s)
  {
    hide Integrity;
    hide HomeRows;
    HomeRowsAreExact(t, s);
    HomesGet(t, s);
    SameElements(rows, HomeRows(t, s));
    if |rows| > 0 {
      assert rows[0] in rows;
    } else {
      assert |HomeRows(t, s)| == |multiset(HomeRows(t, s))| == |multiset(rows)| == 0;
    }
  }

  lemma MetadataInAnyOrder(t: Tables, spiffeids: seq<string>, rows: seq<AgentJoin>, infos: seq<AgentInfo>)
    requires Integrity(t) && infos == Map(ToInfo, rows)
    requires multiset(rows) == multiset(Filter(AgentsJoined(t), Requested(spiffeids)))
    ensures forall i, j | 0 <= i < j < |infos| :: infos[i].spiffeid != infos[j].spiffeid
    ensures var g := Abstract(t);
      && (forall i | i in infos :: i.spiffeid in g.plugins && i == InfoOf(g, i.spiffeid))
      && (forall s | s in g.plugins :: InfoOf(g, s) in infos <==> spiffeids == [] || s in spiffeids)
  {
    MetadataIsExact(t, spiffeids);
    MapOfPermutation(ToInfo, rows, Filter(AgentsJoined(t), Requested(spiffeids)));
    hide Integrity;
    SameElements(infos, Metadata(t, spiffeids));
    PairwiseOfPermutation(Metadata(t, spiffeids), infos, DifferentAgents);
  }

  class LocalSqliteDb {
    const database: Database

    constructor (database: Database)
      ensures this.database == database
    {
      this.database := database;
    }

    ghost predicate Valid()
      reads database
    {
      Integrity(database.Contents())
    }

    ghost function Picture(): Registry
      reads database
    {
      Abstract(database.Contents())
    }

    // ----- Cluster operations

    method CreateClusterEntryOp(c: ClusterInfo, w: Weather) returns (outcome: Outcome)
      modifies database
      ensures Attempted(database.Contents(), outcome) == Attempt(old(database.Contents()), Create(c), w)
    {
      var begun := database.BeginTx(w.beginFails);
      if !begun {
        return Transient;
      }
      var txHelper := new TornjakTxHelper(database);
      RunThen(database.Contents(), InsertClusterStmt(c), AddBatch(c.name, c.agentsList), w.faults, w.now);
      var err := txHelper.InsertClusterMetadata(c, FirstFault(w.faults), w.now);
      if err.Some? {
        outcome := txHelper.RollbackHandler(err.value, w.rollbackFails);
        return;
      }
      err := txHelper.AddAgentBatchToCluster(c.name, c.agentsList, LaterFaults(w.faults), w.now);
      if err.Some? {
        outcome := txHelper.RollbackHandler(err.value, w.rollbackFails);
        return;
      }
      var committed := database.Commit(w.commitFails);
      return if committed then Done else Transient;
    }

    method EditClusterEntryOp(c: ClusterInfo, w: Weather) returns (outcome: Outcome)
      modifies database
      ensures Attempted(database.Contents(), outcome) == Attempt(old(database.Contents()), Edit(c), w)
    {
      var begun := database.BeginTx(w.beginFails);
      if !begun {
        return Transient;
      }
      var txHelper := new TornjakTxHelper(database);
      ghost var add := AddBatch(c.editedName, c.agentsList);
      RunThen(database.Contents(), UpdateClusterStmt(c), Then(DeleteMembersStmt(c.editedName), add), w.faults, w.now);
      var err := txHelper.UpdateClusterMetadata(c, FirstFault(w.faults), w.now);
      if err.Some? {
        outcome := txHelper.RollbackHandler(err.value, w.rollbackFails);
        return;
      }
      RunThen(database.Contents(), DeleteMembersStmt(c.editedName), add, LaterFaults(w.faults), w.now);
      err := txHelper.DeleteClusterAgents(c.editedName, FirstFault(LaterFaults(w.faults)), w.now);
      if err.Some? {
        outcome := txHelper.RollbackHandler(err.value, w.rollbackFails);
        return;
      }
      err := txHelper.AddAgentBatchToCluster(c.editedName, c.agentsList, LaterFaults(LaterFaults(w.faults)), w.now);
      if err.Some? {
        outcome := txHelper.RollbackHandler(err.value, w.rollbackFails);
        return;
      }
      var committed := database.Commit(w.commitFails);
      return if committed then Done else Transient;
    }

    method DeleteClusterEntryOp(name: string, w: Weather) returns (outcome: Outcome)
      modifies database
      ensures Attempted(database.Contents(), outcome) == Attempt(old(database.Contents()), Delete(name), w)
    {
      var begun := database.BeginTx(w.beginFails);
      if !begun {
        return Transient;
      }
      var txHelper := new TornjakTxHelper(database);
      RunThen(database.Contents(), DeleteMembersStmt(name), Then(DeleteClusterStmt(name), End), w.faults, w.now);
      var err := txHelper.DeleteClusterAgents(name, FirstFault(w.faults), w.now);
      if err.Some? {
        outcome := txHelper.RollbackHandler(err.value, w.rollbackFails);
        return;
      }
      RunThen(database.Contents(), DeleteClusterStmt(name), End, LaterFaults(w.faults), w.now);
      err := txHelper.DeleteClusterMetadata(name, FirstFault(LaterFaults(w.faults)), w.now);
      if err.Some? {
        outcome := txHelper.RollbackHandler(err.value, w.rollbackFails);
        return;
      }
      var committed := database.Commit(w.commitFails);
      return if committed then Done else Transient;
    }

    method AttemptOp(op: Op, w: Weather) returns (outcome: Outcome)
      modifies database
      ensures Attempted(database.Contents(), outcome) == Attempt(old(database.Contents()), op, w)
    {
      match op
      case Create(c) => outcome := CreateClusterEntryOp(c, w);
      case Edit(c) => outcome := EditClusterEntryOp(c, w);
      case Delete(name) => outcome := DeleteClusterEntryOp(name, w);
    }

    /** What other callers commit while this one backs off. */
    method RunOthers(events: seq<Event>)
      modifies database
      ensures database.Contents() == Run(old(database.Contents()), events)
    {
      for i := 0 to |events|
        invariant database.Contents() == Run(old(database.Contents()), events[..i])
      {
        assert events[..i + 1][..i] == events[..i];
        match events[i]
        case ClusterAttempt(op, w) => var _ := AttemptOp(op, w);
        case AgentUpsert(info, fails) => var _ := CreateAgentEntry(info, fails);
      }
      assert events[..|events|] == events;
    }

    /** Retries op while its failures are transient and tries remain; the last outcome is the caller's. */
    method RetryOp(op: Op, tries: seq<Try>) returns (outcome: Outcome)
      requires tries != []
      modifies database
      ensures Attempted(database.Contents(), outcome) == Retry(old(database.Contents()), op, tries)
    {
      var i := 0;
      while true
        invariant 0 <= i < |tries|
        invariant Retry(database.Contents(), op, tries[i..]) == Retry(old(database.Contents()), op, tries)
        decreases |tries| - i
      {
        RunOthers(tries[i].others);
        outcome := AttemptOp(op, tries[i].weather);
        assert tries[i..][0] == tries[i] && tries[i..][1..] == tries[i + 1..];
        if !outcome.Transient? || i + 1 == |tries| {
          return;
        }
        i := i + 1;
      }
    }

    // ----- Agents

    method CreateAgentEntry(info: AgentInfo, fails: bool) returns (err: Option<DbError>)
      modifies database
      ensures database.Contents() == Step(old(database.Contents()), AgentUpsert(info, fails))
      ensures err.None? <==> !fails
      ensures fails ==> database.Contents() == old(database.Contents())
      ensures old(Valid()) && !fails ==>
        Valid() && Picture() == old(Picture()).(plugins :=
          old(Picture()).plugins[info.spiffeid := if info.plugin == "" then None else Some(info.plugin)])
    {
      if Valid() {
        UpsertAgentStep(database.Contents(), info.spiffeid, PluginColumn(info));
      }
      hide Integrity;
      hide Abstract;
      if fails {
        return Some(SqlError);
      }
      if |info.plugin| > 0 {
        database.ExecUpsertAgent(info.spiffeid, Some(info.plugin));
      } else {
        database.ExecUpsertAgent(info.spiffeid, None);
      }
      return None;
    }

    // ----- Queries: any row order, any concatenation order

    method QuerySelectors() returns (rows: seq<AgentRow>)
      ensures multiset(rows) == multiset(SelectorRows(database.Contents().agents))
    {
      rows := SelectorRows(database.agents);
    }

    method QueryMetadata(spiffeids: seq<string>) returns (rows: seq<AgentJoin>)
      ensures multiset(rows) == multiset(Filter(AgentsJoined(database.Contents()), Requested(spiffeids)))
    {
      rows := Filter(AgentsJoined(database.Contents()), Requested(spiffeids));
    }

    method QueryHome(spiffeid: string) returns (rows: seq<AgentJoin>)
      ensures multiset(rows) == multiset(HomeRows(database.Contents(), spiffeid))
    {
      rows := HomeRows(database.Contents(), spiffeid);
    }

    method QueryGroup(name: string) returns (row: Option<GroupRow>, ghost order: seq<string>)
      ensures row.None? <==> FindCluster(database.clusters, name).None?
      ensures row.Some? ==> IsGroup(database.Contents(), row.value, order) && row.value.cluster.name == name
    {
      var c := FindCluster(database.clusters, name);
      order := GroupOf(database.Contents(), name);
      row := if c.None? then None else Some(GroupRow(c.value, GroupConcat(GroupOf(database.Contents(), name))));
    }

    /** One row per distinct cluster name. */
    method QueryGroups() returns (rows: seq<GroupRow>, ghost orders: seq<seq<string>>)
      ensures |orders| == |rows|
      ensures forall i | 0 <= i < |rows| :: IsGroup(database.Contents(), rows[i], orders[i])
      ensures Pairwise(rows, DifferentGroups)
      ensures forall c | c in database.clusters :: HasGroup(rows, c.name)
    {
      hide GroupOf;
      hide GroupConcat;
      rows, orders := [], [];
      for k := 0 to |database.clusters|
        invariant |orders| == |rows|
        invariant forall i | 0 <= i < |rows| :: IsGroup(database.Contents(), rows[i], orders[i])
        invariant Pairwise(rows, DifferentGroups)
        invariant forall j | 0 <= j < k :: HasGroup(rows, database.clusters[j].name)
      {
        var c := database.clusters[k];
        if !HasGroup(rows, c.name) {
          var group := GroupOf(database.Contents(), c.name);
          var row := GroupRow(c, GroupConcat(group));
          AddGroup(rows, row);
          rows, orders := rows + [row], orders + [group];
        }
      }
    }

    // ----- Views

    method GetAgentSelectors(fails: bool) returns (res: Result<seq<AgentInfo>, QueryError>)
      ensures res.Err? <==> fails
      ensures res.Ok? ==>
        multiset(res.value) == multiset(Map(SelectorInfo, SelectorRows(database.Contents().agents)))
      ensures res.Ok? && Valid() ==> ListsPlugins(Picture().plugins, res.value)
    {
      if fails {
        return Err(QueryFailed);
      }
      var rows := QuerySelectors();
      SameElements(rows, SelectorRows(database.Contents().agents));
      assert forall k | 0 <= k < |rows| :: rows[k] in rows && HasPlugin(rows[k]);
      var sinfos := [];
      MapStep(SelectorInfo, rows, 0);
      for i := 0 to |rows|
        invariant forall k | 0 <= k < |rows| :: rows[k].plugin.Some?
        invariant sinfos == Map(SelectorInfo, rows[..i])
      {
        var spiffeid, plugin := rows[i].spiffeid, rows[i].plugin.value;
        sinfos := sinfos + [AgentInfo(spiffeid, plugin, "")];
        MapStep(SelectorInfo, rows, i);
      }
      MapStep(SelectorInfo, rows, |rows|);
      MapOfPermutation(SelectorInfo, rows, SelectorRows(database.Contents().agents));
      if Valid() {
        SelectorsInAnyOrder(database.Contents().agents, rows, sinfos);
      }
      return Ok(sinfos);
    }

    /** A NULL plugin cannot be scanned into a string: a known agent without a plugin is a query error. */
    method GetAgentPluginInfo(spiffeid: string, fails: bool) returns (res: Result<AgentInfo, QueryError>)
      ensures res == Err(NotFound) <==> !fails && spiffeid !in Picture().plugins
      ensures res.Ok? <==> !fails && Get(Picture().plugins, spiffeid).Some? && Picture().plugins[spiffeid].Some?
      ensures res.Ok? ==> res.value == AgentInfo(spiffeid, Picture().plugins[spiffeid].value, "")
    {
      PluginsGet(database.agents, spiffeid);
      if fails {
        return Err(QueryFailed);
      }
      var row := FindAgent(database.agents, spiffeid);
      if row.None? {
        return Err(NotFound);
      }
      if row.value.plugin.None? {
        return Err(QueryFailed);
      }
      return Ok(AgentInfo(row.value.spiffeid, row.value.plugin.value, ""));
    }

    /** The agents of a registered cluster, in some order, exactly when none of them holds a comma. */
    method GetClusterAgents(name: string, fails: bool) returns (res: Result<seq<string>, QueryError>)
      requires Valid()
      ensures res.Err? <==> fails || name !in Picture().clusters
      ensures res == Err(NotFound) <==> !fails && name !in Picture().clusters
      ensures res.Ok? ==> IsSplitGroup(database.Contents(), name, res.value)
      ensures res.Ok? ==>
        ((forall a :: a in res.value <==> Get(Picture().homes, a) == Some(name)) && NoDuplicates(res.value)
         <==> forall a | Get(Picture().homes, a) == Some(name) :: ',' !in a)
    {
      ClustersGet(database.clusters, name);
      if fails {
        return Err(QueryFailed);
      }
      ghost var order;
      var row;
      row, order := QueryGroup(name);
      if row.None? {
        return Err(NotFound);
      }
      var spiffeidList := [];
      var spiffeids := row.value.agents;
      if spiffeids.Some? {
        spiffeidList := Split(spiffeids.value, ',');
      }
      ListIsMembership(database.Contents(), name, order);
      return Ok(spiffeidList);
    }

    /** The cluster of an agent; an unknown agent and an agent without a cluster are both not found. */
    method GetAgentClusterName(spiffeid: string, fails: bool) returns (res: Result<string, QueryError>)
      requires Valid()
      ensures res == if fails then Err(QueryFailed)
                     else if spiffeid in Picture().homes then Ok(Picture().homes[spiffeid])
                     else Err(NotFound)
    {
      hide Integrity;
      hide Homes;
      hide HomeRows;
      if fails {
        return Err(QueryFailed);
      }
      var rows := QueryHome(spiffeid);
      HomeRowsInAnyOrder(database.Contents(), spiffeid, rows);
      if |rows| == 0 {
        return Err(NotFound);
      }
      var clusterName := ClusterColumn(rows[0]);
      if clusterName.Some? {
        return Ok(clusterName.value);
      }
      return Err(NotFound);
    }

    /** The scan of the metadata rows: a NULL column leaves the field empty. */
    method ScanAgents(rows: seq<AgentJoin>) returns (ainfos: seq<AgentInfo>)
      ensures ainfos == Map(ToInfo, rows)
    {
      hide Map;
      ainfos := [];
      MapStep(ToInfo, rows, 0);
      for i := 0 to |rows|
        invariant ainfos == Map(ToInfo, rows[..i])
      {
        var spiffeid, plugin, cluster := rows[i].agent.spiffeid, rows[i].agent.plugin, ClusterColumn(rows[i]);
        var newAgent := AgentInfo(spiffeid, "", "");
        if plugin.Some? {
          newAgent := newAgent.(plugin := plugin.value);
        }
        if cluster.Some? {
          newAgent := newAgent.(cluster := cluster.value);
        }
        ainfos := ainfos + [newAgent];
        MapStep(ToInfo, rows, i);
      }
      MapStep(ToInfo, rows, |rows|);
    }

    /** One row for each known agent asked for, all of them when none is named. */
    method GetAgentsMetadata(spiffeids: seq<string>, fails: bool) returns (res: Result<seq<AgentInfo>, QueryError>)
      requires Valid()
      ensures res.Err? <==> fails
      ensures res.Ok? ==>
        && (forall i, j | 0 <= i < j < |res.value| :: res.value[i].spiffeid != res.value[j].spiffeid)
        && (forall i | i in res.value :: i.spiffeid in Picture().plugins && i == InfoOf(Picture(), i.spiffeid))
        && (forall s | s in Picture().plugins ::
              InfoOf(Picture(), s) in res.value <==> spiffeids == [] || s in spiffeids)
        && (forall i | i in res.value ::
              && i.plugin == (if Picture().plugins[i.spiffeid].None? then "" else Picture().plugins[i.spiffeid].value)
              && i.cluster == if i.spiffeid in Picture().homes then Picture().homes[i.spiffeid] else "")
    {
      if fails {
        return Err(QueryFailed);
      }
      hide Integrity;
      hide Abstract;
      hide Map;
      hide AgentsJoined;
      var rows := QueryMetadata(spiffeids);
      var ainfos := ScanAgents(rows);
      MetadataInAnyOrder(database.Contents(), spiffeids, rows, ainfos);
      return Ok(ainfos);
    }

    /** The scan of the grouped rows, which reuses one variable for the agents. */
    method ScanClusters(rows: seq<GroupRow>) returns (sinfos: seq<ClusterInfo>)
      ensures sinfos == Map(GroupInfo, rows)
    {
      hide Map;
      hide Split;
      sinfos := [];
      var agentsList: seq<string> := [];
      MapStep(GroupInfo, rows, 0);
      for i := 0 to |rows|
        invariant sinfos == Map(GroupInfo, rows[..i])
      {
        var row := rows[i];
        if row.agents.Some? {
          agentsList := Split(row.agents.value, ',');
        } else {
          agentsList := [];
        }
        sinfos := sinfos + [ClusterInfo(
          row.cluster.name, "", row.cluster.createdAt, row.cluster.domainName,
          row.cluster.managedBy, row.cluster.platformType, agentsList)];
        MapStep(GroupInfo, rows, i);
      }
      MapStep(GroupInfo, rows, |rows|);
    }

    /** Every registered cluster once, with its metadata and (commas aside) its agents. */
    method GetClusters(fails: bool) returns (res: Result<seq<ClusterInfo>, QueryError>)
      requires Valid()
      ensures res.Err? <==> fails
      ensures res.Ok? ==>
        && (forall i, j | 0 <= i < j < |res.value| :: res.value[i].name != res.value[j].name)
        && (forall n | n in Picture().clusters :: exists i | 0 <= i < |res.value| :: res.value[i].name == n)
        && (forall i | 0 <= i < |res.value| :: Shows(database.Contents(), res.value[i]))
    {
      if fails {
        return Err(QueryFailed);
      }
      ghost var orders;
      var rows;
      rows, orders := QueryGroups();
      hide Integrity;
      hide Abstract;
      hide Map;
      hide Shows;
      hide Pairwise;
      hide HasGroup;
      var sinfos := ScanClusters(rows);
      ClustersListed(database.Contents(), rows, orders, sinfos);
      return Ok(sinfos);
    }
  }

  datatype ApiError = MissingField(field: string) | RenamesOnCreate | Failed(outcome: Outcome)

  /** The handlers' guards in front of the store. */
  class Server {
    const db: LocalSqliteDb

    constructor (db: LocalSqliteDb)
      ensures this.db == db
    {
      this.db := db;
    }

    /** What a served cluster request promises; t is the state before it. */
    ghost predicate Served(t: Tables, op: Op, tries: seq<Try>, err: Option<ApiError>)
      reads db.database
    {
      var t' := db.database.Contents();
      && Integrity(t')
      && (err.None? ==> TookEffect(t, op, tries, t'))
      && (err.Some? && !err.value.Failed? ==> t' == t)
      && (err.Some? && err.value.Failed? && Clean(err.value.outcome) ==> NoEffect(t, tries, t'))
      && (err.Some? && err.value.Failed? && err.value.outcome.Permanent? && err.value.outcome.error.PostFailure? ==>
            RefusedWith(t, op, tries, err.value.outcome.error.reason))
      && (err.None? || err.value.Failed? ==>
            DecidedByCalm(t, op, tries, Attempted(t', if err.None? then Done else err.value.outcome)))
    }

    method ServeOp(op: Op, tries: seq<Try>) returns (err: Option<ApiError>)
      requires db.Valid() && tries != []
      modifies db.database
      ensures Served(old(db.database.Contents()), op, tries, err) && (err.Some? ==> err.value.Failed?)
    {
      RetryIsExact(db.database.Contents(), op, tries);
      var outcome := db.RetryOp(op, tries);
      return if outcome.Done? then None else Some(Failed(outcome));
    }

    method DefineCluster(c: ClusterInfo, tries: seq<Try>) returns (err: Option<ApiError>)
      requires db.Valid() && tries != []
      modifies db.database
      ensures Served(old(db.database.Contents()), Create(c), tries, err)
      ensures (err.Some? && !err.value.Failed?) <==> c.name == "" || c.platformType == "" || c.editedName != ""
      ensures err == Some(MissingField("Name")) <==> c.name == ""
      ensures err == Some(MissingField("PlatformType")) <==> c.name != "" && c.platformType == ""
    {
      if |c.name| == 0 {
        return Some(MissingField("Name"));
      } else if |c.platformType| == 0 {
        return Some(MissingField("PlatformType"));
      } else if |c.editedName| > 0 {
        return Some(RenamesOnCreate);
      }
      err := ServeOp(Create(c), tries);
    }

    method EditCluster(c: ClusterInfo, tries: seq<Try>) returns (err: Option<ApiError>)
      requires db.Valid() && tries != []
      modifies db.database
      ensures Served(old(db.database.Contents()), Edit(c), tries, err)
      ensures (err.Some? && !err.value.Failed?) <==> c.name == "" || c.platformType == "" || c.editedName == ""
      ensures err == Some(MissingField("Name")) <==> c.name == ""
      ensures err == Some(MissingField("PlatformType")) <==> c.name != "" && c.platformType == ""
    {
      if |c.name| == 0 {
        return Some(MissingField("Name"));
      } else if |c.platformType| == 0 {
        return Some(MissingField("PlatformType"));
      } else if |c.editedName| == 0 {
        return Some(MissingField("EditedName"));
      }
      err := ServeOp(Edit(c), tries);
    }

    method DeleteCluster(c: ClusterInfo, tries: seq<Try>) returns (err: Option<ApiError>)
      requires db.Valid() && tries != []
      modifies db.database
      ensures Served(old(db.database.Contents()), Delete(c.name), tries, err)
      ensures (err.Some? && !err.value.Failed?) <==> c.name == ""
    {
      if |c.name| == 0 {
        return Some(MissingField("Name"));
      }
      err := ServeOp(Delete(c.name), tries);
    }

    /** Registers an agent's plugin, an empty one as none; its row id, and so its cluster, stays. */
    method DefineSelectors(info: AgentInfo, fails: bool) returns (ok: bool)
      requires db.Valid()
      modifies db.database
      ensures db.Valid() && ok == (info.spiffeid != "" && !fails)
      ensures !ok ==> db.database.Contents() == old(db.database.Contents())
      ensures ok ==> db.Picture() == old(db.Picture()).(plugins :=
        old(db.Picture()).plugins[info.spiffeid := if info.plugin == "" then None else Some(info.plugin)])
    {
      if |info.spiffeid| == 0 {
        return false;
      }
      hide Integrity;
      hide Abstract;
      var err := db.CreateAgentEntry(info, fails);
      return err.None?;
    }
  }
}
