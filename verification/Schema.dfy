/** The three tables of the agent database and the meaning of the SQL statements issued on them. */
module Schema {
  import opened Wrappers
  import opened Sequences

  datatype AgentInfo = AgentInfo(spiffeid: string, plugin: string, cluster: string)

  datatype ClusterInfo = ClusterInfo(
    name: string, editedName: string, creationTime: string, domainName: string,
    managedBy: string, platformType: string, agentsList: seq<string>)

  datatype AgentRow = AgentRow(id: nat, spiffeid: string, plugin: Option<string>)

  datatype ClusterRow = ClusterRow(
    id: nat, name: string, createdAt: string, domainName: string, managedBy: string, platformType: string)

  /** Both references are plain nullable columns: foreign keys are declared but never enforced. */
  datatype MemberRow = MemberRow(id: nat, agentId: Option<nat>, clusterId: Option<nat>)

  /** Rows in row-id order, with the AUTOINCREMENT counters of the three tables. */
  datatype Tables = Tables(
    agents: seq<AgentRow>, clusters: seq<ClusterRow>, members: seq<MemberRow>,
    lastAgent: nat, lastCluster: nat, lastMember: nat)

  const EMPTY := Tables([], [], [], 0, 0, 0)

  // ----- Look-ups (at most one row matches once the UNIQUE constraints hold)

  function FindAgent(rows: seq<AgentRow>, spiffeid: string): (r: Option<AgentRow>)
    ensures r.Some? ==> r.value in rows && r.value.spiffeid == spiffeid
    ensures r.None? ==> forall a | a in rows :: a.spiffeid != spiffeid
  {
    if rows == [] then None
    else if rows[0].spiffeid == spiffeid then Some(rows[0])
    else FindAgent(rows[1..], spiffeid)
  }

  function FindCluster(rows: seq<ClusterRow>, name: string): (r: Option<ClusterRow>)
    ensures r.Some? ==> r.value in rows && r.value.name == name
    ensures r.None? ==> forall c | c in rows :: c.name != name
  {
    if rows == [] then None
    else if rows[0].name == name then Some(rows[0])
    else FindCluster(rows[1..], name)
  }

  /** SELECT id FROM agents WHERE spiffeid=?, NULL when no row matches. */
  function AgentId(t: Tables, spiffeid: string): Option<nat> {
    match FindAgent(t.agents, spiffeid)
    case None => None
    case Some(a) => Some(a.id)
  }

  /** SELECT id FROM clusters WHERE name=?, NULL when no row matches. */
  function ClusterId(t: Tables, name: string): Option<nat> {
    match FindCluster(t.clusters, name)
    case None => None
    case Some(c) => Some(c.id)
  }

  // ----- Statements

  /** What executing a statement yields: a violated UNIQUE constraint, or new tables and a row count. */
  datatype ExecResult = Constraint | Rows(tables: Tables, affected: nat)

  function InsertCluster(t: Tables, c: ClusterInfo, now: string): ExecResult {
    if FindCluster(t.clusters, c.name).Some? then Constraint
    else
      var row := ClusterRow(t.lastCluster + 1, c.name, now, c.domainName, c.managedBy, c.platformType);
      Rows(t.(clusters := t.clusters + [row], lastCluster := t.lastCluster + 1), 1)
  }

  function EditRow(row: ClusterRow, c: ClusterInfo): ClusterRow {
    if row.name == c.name then
      row.(name := c.editedName, domainName := c.domainName, managedBy := c.managedBy, platformType := c.platformType)
    else row
  }

  function EditRows(rows: seq<ClusterRow>, c: ClusterInfo): (r: seq<ClusterRow>)
    ensures |r| == |rows|
    ensures forall i | 0 <= i < |rows| :: r[i] == EditRow(rows[i], c)
  {
    seq(|rows|, i requires 0 <= i < |rows| => EditRow(rows[i], c))
  }

  function Named(name: string): ClusterRow -> bool {
    (c: ClusterRow) => c.name == name
  }

  function NotNamed(name: string): ClusterRow -> bool {
    (c: ClusterRow) => c.name != name
  }

  predicate UniqueNames(rows: seq<ClusterRow>) {
    forall i, j | 0 <= i < j < |rows| :: rows[i].name != rows[j].name
  }

  function UpdateCluster(t: Tables, c: ClusterInfo): ExecResult {
    var rows := EditRows(t.clusters, c);
    if !UniqueNames(rows) then Constraint
    else Rows(t.(clusters := rows), |Filter(t.clusters, Named(c.name))|)
  }

  function DeleteCluster(t: Tables, name: string): ExecResult {
    Rows(t.(clusters := Filter(t.clusters, NotNamed(name))), |Filter(t.clusters, Named(name))|)
  }

  function NotInCluster(id: nat): MemberRow -> bool {
    (m: MemberRow) => m.clusterId != Some(id)
  }

  /** A name without a row selects NULL, and nothing equals NULL: then no row is deleted. */
  function DeleteMembersOf(t: Tables, name: string): Tables {
    match ClusterId(t, name)
    case None => t
    case Some(id) => t.(members := Filter(t.members, NotInCluster(id)))
  }

  function InsertAgentOrIgnore(t: Tables, spiffeid: string): Tables {
    if FindAgent(t.agents, spiffeid).Some? then t
    else t.(agents := t.agents + [AgentRow(t.lastAgent + 1, spiffeid, None)], lastAgent := t.lastAgent + 1)
  }

  function InsertAgentsOrIgnore(t: Tables, spiffeids: seq<string>): Tables
    decreases |spiffeids|
  {
    if spiffeids == [] then t
    else InsertAgentsOrIgnore(InsertAgentOrIgnore(t, spiffeids[0]), spiffeids[1..])
  }

  predicate AgentTaken(members: seq<MemberRow>, agentId: Option<nat>) {
    agentId.Some? && exists m | m in members :: m.agentId == agentId
  }

  function InsertMember(t: Tables, spiffeid: string, name: string): Option<Tables> {
    var agentId := AgentId(t, spiffeid);
    if AgentTaken(t.members, agentId) then None
    else
      Some(t.(members := t.members + [MemberRow(t.lastMember + 1, agentId, ClusterId(t, name))],
           lastMember := t.lastMember + 1))
  }

  /** INSERT OR ABORT: the first conflicting row undoes the whole statement. */
  function InsertMembers(t: Tables, name: string, spiffeids: seq<string>): Option<Tables>
    decreases |spiffeids|
  {
    if spiffeids == [] then Some(t)
    else match InsertMember(t, spiffeids[0], name)
      case None => None
      case Some(t') => InsertMembers(t', name, spiffeids[1..])
  }

  function SetPlugin(row: AgentRow, spiffeid: string, plugin: Option<string>): AgentRow {
    if row.spiffeid == spiffeid then row.(plugin := plugin) else row
  }

  /** INSERT ... ON CONFLICT(spiffeid) DO UPDATE SET plugin. */
  function UpsertAgent(t: Tables, spiffeid: string, plugin: Option<string>): Tables {
    if FindAgent(t.agents, spiffeid).Some? then
      t.(agents := seq(|t.agents|, i requires 0 <= i < |t.agents| => SetPlugin(t.agents[i], spiffeid, plugin)))
    else
      t.(agents := t.agents + [AgentRow(t.lastAgent + 1, spiffeid, plugin)], lastAgent := t.lastAgent + 1)
  }

  // ----- Integrity: what the foreign keys would promise if they were enforced

  predicate AgentsDiffer(a: AgentRow, b: AgentRow) {
    a.id != b.id && a.spiffeid != b.spiffeid
  }

  predicate ClustersDiffer(a: ClusterRow, b: ClusterRow) {
    a.id != b.id && a.name != b.name
  }

  /** Different rows are for different agents: each agent is in at most one cluster. */
  predicate MembersDiffer(a: MemberRow, b: MemberRow) {
    a.id != b.id && a.agentId != b.agentId
  }

  ghost predicate HasAgentId(rows: seq<AgentRow>, id: nat) {
    exists a | a in rows :: a.id == id
  }

  ghost predicate HasClusterId(rows: seq<ClusterRow>, id: nat) {
    exists c | c in rows :: c.id == id
  }

  ghost predicate PointsAtRows(t: Tables, m: MemberRow) {
    && m.agentId.Some? && HasAgentId(t.agents, m.agentId.value)
    && m.clusterId.Some? && HasClusterId(t.clusters, m.clusterId.value)
  }

  ghost predicate Integrity(t: Tables) {
    && Pairwise(t.agents, AgentsDiffer) && (forall a | a in t.agents :: a.id <= t.lastAgent)
    && Pairwise(t.clusters, ClustersDiffer) && (forall c | c in t.clusters :: c.id <= t.lastCluster)
    && Pairwise(t.members, MembersDiffer) && (forall m | m in t.members :: m.id <= t.lastMember)
    && (forall m | m in t.members :: PointsAtRows(t, m))
  }
}
