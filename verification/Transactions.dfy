/**
  Transactions as scripts of statements, attempts with faults, and the retry loop.

  Which calls into the database fail is an input (a Weather per attempt), so every theorem below holds for
  every way the database can misbehave. One assumption: a failed Commit, like a successful Rollback, leaves
  the tables as they were before the transaction. A failed Rollback is taken at its worst: what the
  transaction had done so far stays.
 */
module Transactions {
  import opened Wrappers
  import opened Schema
  import opened Registry
  import opened Refinement

  datatype Stmt =
    | InsertClusterStmt(info: ClusterInfo)
    | UpdateClusterStmt(info: ClusterInfo)
    | DeleteClusterStmt(name: string)
    | DeleteMembersStmt(name: string)
    | InsertAgentsStmt(spiffeids: seq<string>)
    | InsertMembersStmt(name: string, spiffeids: seq<string>)

  /** How a statement can fail by itself: before it has an effect, or when its row count is read. */
  datatype Fault = NoFault | ExecFault | CountFault

  datatype DbError = SqlError | PostFailure(reason: Reason)

  datatype StmtResult = StmtOk(tables: Tables) | StmtErr(error: DbError, tables: Tables)

  function OfConstraint(r: ExecResult, t: Tables, reason: Reason): StmtResult {
    match r
    case Constraint => StmtErr(PostFailure(reason), t)
    case Rows(t', _) => StmtOk(t')
  }

  function OfCount(r: ExecResult, t: Tables, f: Fault): StmtResult {
    match r
    case Constraint => StmtErr(PostFailure(ClusterExists), t)
    case Rows(t', n) =>
      if f.CountFault? then StmtErr(SqlError, t')
      else if n != 1 then StmtErr(PostFailure(NoSuchCluster), t')
      else StmtOk(t')
  }

  /** One statement inside a transaction; the reasons are those the code reports. */
  function RunStmt(t: Tables, stmt: Stmt, f: Fault, now: string): StmtResult {
    if f.ExecFault? then StmtErr(SqlError, t)
    else match stmt
      case InsertClusterStmt(c) => OfConstraint(InsertCluster(t, c, now), t, ClusterExists)
      case UpdateClusterStmt(c) => OfCount(UpdateCluster(t, c), t, f)
      case DeleteClusterStmt(n) => OfCount(DeleteCluster(t, n), t, f)
      case DeleteMembersStmt(n) => StmtOk(DeleteMembersOf(t, n))
      case InsertAgentsStmt(xs) => StmtOk(InsertAgentsOrIgnore(t, xs))
      case InsertMembersStmt(n, xs) =>
        match InsertMembers(t, n, xs)
        case None => StmtErr(PostFailure(AgentConflict), t)
        case Some(t') => StmtOk(t')
  }

  datatype Script = End | Then(first: Stmt, rest: Script)

  function AddBatch(name: string, spiffeids: seq<string>): Script {
    if spiffeids == [] then End
    else Then(InsertAgentsStmt(spiffeids), Then(InsertMembersStmt(name, spiffeids), End))
  }

  function ScriptOf(op: Op): Script {
    match op
    case Create(c) => Then(InsertClusterStmt(c), AddBatch(c.name, c.agentsList))
    case Edit(c) =>
      Then(UpdateClusterStmt(c), Then(DeleteMembersStmt(c.editedName), AddBatch(c.editedName, c.agentsList)))
    case Delete(n) => Then(DeleteMembersStmt(n), Then(DeleteClusterStmt(n), End))
  }

  function FirstFault(faults: seq<Fault>): Fault {
    if faults == [] then NoFault else faults[0]
  }

  function LaterFaults(faults: seq<Fault>): seq<Fault> {
    if faults == [] then [] else faults[1..]
  }

  /** The statements up to the first that fails, with the tables as that point leaves them. */
  function RunScript(t: Tables, script: Script, faults: seq<Fault>, now: string): StmtResult
    decreases script
  {
    match script
    case End => StmtOk(t)
    case Then(stmt, rest) =>
      match RunStmt(t, stmt, FirstFault(faults), now)
      case StmtErr(e, t') => StmtErr(e, t')
      case StmtOk(t') => RunScript(t', rest, LaterFaults(faults), now)
  }

  /** Running a script is running its first statement and then the rest. */
  lemma RunThen(t: Tables, stmt: Stmt, rest: Script, faults: seq<Fault>, now: string)
    ensures RunScript(t, Then(stmt, rest), faults, now) ==
            var r := RunStmt(t, stmt, FirstFault(faults), now);
            if r.StmtErr? then r else RunScript(r.tables, rest, LaterFaults(faults), now)
    ensures RunScript(t, End, faults, now) == StmtOk(t)
  {
  }

  /** The environment of one attempt; now is the wall clock the attempt reads. */
  datatype Weather = Weather(
    beginFails: bool, faults: seq<Fault>, commitFails: bool, rollbackFails: bool, now: string)

  predicate Calm(w: Weather) {
    !w.beginFails && !w.commitFails && !w.rollbackFails && forall f | f in w.faults :: f.NoFault?
  }

  datatype Outcome =
    | Done
    | Transient // BeginTx or Commit failed: worth another attempt
    | Permanent(error: DbError, rolledBack: bool)

  datatype Attempted = Attempted(tables: Tables, outcome: Outcome)

  function Attempt(t: Tables, op: Op, w: Weather): Attempted {
    if w.beginFails then Attempted(t, Transient)
    else match RunScript(t, ScriptOf(op), w.faults, w.now)
      case StmtErr(e, dirty) => Attempted(if w.rollbackFails then dirty else t, Permanent(e, !w.rollbackFails))
      case StmtOk(t') => if w.commitFails then Attempted(t, Transient) else Attempted(t', Done)
  }

  // ----- One attempt refines the operation on the picture

  ghost predicate Refines(r: StmtResult, allowed: bool, reason: Reason, g': Registry) {
    && Integrity(r.tables)
    && (r.StmtOk? ==> allowed && Abstract(r.tables) == g')
    && (r.StmtErr? && r.error.PostFailure? ==> !allowed && r.error.reason == reason)
  }

  lemma AddBatchRefines(t: Tables, n: string, spiffeids: seq<string>, faults: seq<Fault>, now: string)
    requires Integrity(t) && n in Abstract(t).clusters
    ensures var g := Abstract(t);
      Refines(RunScript(t, AddBatch(n, spiffeids), faults, now),
              Assignable(g, spiffeids), AgentConflict, Assign(Learn(g, spiffeids), n, spiffeids))
  {
    var g := Abstract(t);
    hide Integrity;
    hide Abstract;
    hide Assign;
    if spiffeids == [] {
      LearnNone(g);
      AssignNone(g, n);
    } else {
      var known := InsertAgentsOrIgnore(t, spiffeids);
      InsertAgentsStep(t, spiffeids);
      InsertMembersStep(known, n, spiffeids);
      RunThen(known, InsertMembersStmt(n, spiffeids), End, LaterFaults(faults), now);
    }
  }

  /** The tables are sound; success is that of the operation on the picture, a refusal carries its reason. */
  ghost predicate RefinesOp(r: StmtResult, g: Registry, op: Op, now: string) {
    && Integrity(r.tables)
    && (r.StmtOk? ==> Refusal(g, op).None? && Abstract(r.tables) == After(g, op, now))
    && (r.StmtErr? && r.error.PostFailure? ==> Refusal(g, op) == Some(r.error.reason))
  }

  lemma CreateRefines(t: Tables, c: ClusterInfo, faults: seq<Fault>, now: string)
    requires Integrity(t)
    ensures RefinesOp(RunScript(t, ScriptOf(Create(c)), faults, now), Abstract(t), Create(c), now)
  {
    hide Integrity;
    hide Abstract;
    var first := RunStmt(t, InsertClusterStmt(c), FirstFault(faults), now);
    InsertClusterStep(t, c, now);
    if first.StmtOk? {
      AddBatchRefines(first.tables, c.name, c.agentsList, LaterFaults(faults), now);
    }
  }

  /** Renaming a cluster and emptying it under its new name empties the cluster and nothing else. */
  lemma RenameThenUnassign(g: Registry, c: ClusterInfo)
    requires c.name in g.clusters && (c.editedName == c.name || c.editedName !in g.clusters)
    requires forall s | s in g.homes :: g.homes[s] in g.clusters
    ensures Unassign(Rename(g, c), c.editedName).homes == Unassign(g, c.name).homes
  {
  }

  /** An edit is a rename, the emptying of the renamed cluster, and the assignment of the listed agents. */
  lemma EditInSteps(g: Registry, c: ClusterInfo, now: string)
    requires c.name in g.clusters && (c.editedName == c.name || c.editedName !in g.clusters)
    requires forall s | s in g.homes :: g.homes[s] in g.clusters
    ensures var emptied := Unassign(Rename(g, c), c.editedName);
      && c.editedName in emptied.clusters
      && (Refusal(g, Edit(c)) == if Assignable(emptied, c.agentsList) then None else Some(AgentConflict))
      && (Refusal(g, Edit(c)).None? ==>
            After(g, Edit(c), now) == Assign(Learn(emptied, c.agentsList), c.editedName, c.agentsList))
  {
    RenameThenUnassign(g, c);
  }

  lemma EditRefines(t: Tables, c: ClusterInfo, faults: seq<Fault>, now: string)
    requires Integrity(t)
    ensures RefinesOp(RunScript(t, ScriptOf(Edit(c)), faults, now), Abstract(t), Edit(c), now)
  {
    hide Integrity;
    hide Abstract;
    hide RunScript;
    hide Assign;
    hide Unassign;
    hide Learn;
    hide Rename;
    hide Assignable;
    hide UpdateCluster;
    var g, add := Abstract(t), AddBatch(c.editedName, c.agentsList);
    var f1, f2 := LaterFaults(faults), LaterFaults(LaterFaults(faults));
    var first := RunStmt(t, UpdateClusterStmt(c), FirstFault(faults), now);
    RunThen(t, UpdateClusterStmt(c), Then(DeleteMembersStmt(c.editedName), add), faults, now);
    UpdateClusterStep(t, c);
    if first.StmtOk? {
      HomesAreClusters(t);
      EditInSteps(g, c, now);
      var second := RunStmt(first.tables, DeleteMembersStmt(c.editedName), FirstFault(f1), now);
      RunThen(first.tables, DeleteMembersStmt(c.editedName), add, f1, now);
      DeleteMembersStep(first.tables, c.editedName);
      if second.StmtOk? {
        AddBatchRefines(second.tables, c.editedName, c.agentsList, f2, now);
      }
    }
  }

  lemma DeleteRefines(t: Tables, n: string, faults: seq<Fault>, now: string)
    requires Integrity(t)
    ensures RefinesOp(RunScript(t, ScriptOf(Delete(n)), faults, now), Abstract(t), Delete(n), now)
  {
    hide Integrity;
    hide Abstract;
    var first := RunStmt(t, DeleteMembersStmt(n), FirstFault(faults), now);
    DeleteMembersStep(t, n);
    if first.StmtOk? {
      DeleteClusterStep(first.tables, n);
      RunThen(first.tables, DeleteClusterStmt(n), End, LaterFaults(faults), now);
    }
  }

  lemma ScriptRefines(t: Tables, op: Op, faults: seq<Fault>, now: string)
    requires Integrity(t)
    ensures RefinesOp(RunScript(t, ScriptOf(op), faults, now), Abstract(t), op, now)
  {
    match op
    case Create(c) => CreateRefines(t, c, faults, now);
    case Edit(c) => EditRefines(t, c, faults, now);
    case Delete(n) => DeleteRefines(t, n, faults, now);
  }
}
