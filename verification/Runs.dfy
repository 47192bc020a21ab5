/** What holds of every attempt, every retry and every run of the store, whatever fails and however calls interleave. */
module Runs {
  import opened Wrappers
  import opened Sequences
  import opened Schema
  import opened Registry
  import opened Refinement
  import opened Transactions

  /** One write transaction of some caller: SQLite runs these one after the other. */
  datatype Event =
    | ClusterAttempt(op: Op, weather: Weather)
    | AgentUpsert(info: AgentInfo, fails: bool)

  function PluginColumn(info: AgentInfo): Option<string> {
    if |info.plugin| > 0 then Some(info.plugin) else None
  }

  function Step(t: Tables, e: Event): Tables {
    match e
    case ClusterAttempt(op, w) => Attempt(t, op, w).tables
    case AgentUpsert(info, fails) => if fails then t else UpsertAgent(t, info.spiffeid, PluginColumn(info))
  }

  function Run(t: Tables, events: seq<Event>): Tables {
    if events == [] then t
    else Step(Run(t, events[..|events| - 1]), events[|events| - 1])
  }

  // ----- Attempts

  predicate Clean(r: Outcome) {
    r.Permanent? ==> r.rolledBack
  }

  lemma {:induction false} CalmScript(t: Tables, script: Script, faults: seq<Fault>, now: string)
    requires forall f | f in faults :: f.NoFault?
    ensures var r := RunScript(t, script, faults, now); r.StmtErr? ==> r.error.PostFailure?
    decreases script
  {
    match script
    case End =>
    case Then(stmt, rest) =>
      assert faults != [] ==> faults[0] in faults && forall f | f in faults[1..] :: f in faults;
      var r := RunStmt(t, stmt, FirstFault(faults), now);
      if r.StmtOk? {
        CalmScript(r.tables, rest, LaterFaults(faults), now);
      }
  }

  /**
    An attempt is all or nothing and does exactly the abstract operation: it is done only if the operation is
    not refused, a refusal carries the operation's own reason, and without faults nothing but a refusal stops it.
   */
  lemma AttemptIsAtomicAndExact(t: Tables, op: Op, w: Weather)
    requires Integrity(t)
    ensures var r := Attempt(t, op, w); var g := Abstract(t);
      && Integrity(r.tables)
      && (!r.outcome.Done? && Clean(r.outcome) ==> r.tables == t)
      && (r.outcome.Done? ==> Refusal(g, op).None? && Abstract(r.tables) == After(g, op, w.now))
      && (r.outcome.Permanent? && r.outcome.error.PostFailure? ==> Refusal(g, op) == Some(r.outcome.error.reason))
    ensures Calm(w) ==> (Attempt(t, op, w).outcome.Done? <==> Refusal(Abstract(t), op).None?)
  {
    hide Integrity;
    hide Abstract;
    hide Refusal;
    hide After;
    hide RunScript;
    ScriptRefines(t, op, w.faults, w.now);
    if Calm(w) {
      CalmScript(t, ScriptOf(op), w.faults, w.now);
    }
  }

  // ----- Retries

  /** One more attempt, after whatever other callers committed since the last one. */
  datatype Try = Try(others: seq<Event>, weather: Weather)

  /** backoff.Retry: again after a transient failure, while the backoff allows (one Try per allowed attempt). */
  function Retry(t: Tables, op: Op, tries: seq<Try>): Attempted
    requires tries != []
    decreases |tries|
  {
    var r := Attempt(Run(t, tries[0].others), op, tries[0].weather);
    if r.outcome.Transient? && |tries| > 1 then Retry(r.tables, op, tries[1..]) else r
  }

  function OthersOf(tries: seq<Try>): seq<Event> {
    if tries == [] then [] else tries[0].others + OthersOf(tries[1..])
  }

  lemma {:induction false} RunConcat(t: Tables, xs: seq<Event>, ys: seq<Event>)
    ensures Run(t, xs + ys) == Run(Run(t, xs), ys)
    decreases |ys|
  {
    var all := xs + ys;
    if ys == [] {
      assert all == xs;
    } else {
      assert all[..|all| - 1] == xs + ys[..|ys| - 1];
      RunConcat(t, xs, ys[..|ys| - 1]);
    }
  }

  /** The tables the i-th attempt would find if no earlier attempt had left a trace. */
  function FoundBy(t: Tables, tries: seq<Try>, i: nat): Tables
    requires i < |tries|
  {
    Run(t, OthersOf(tries[..i + 1]))
  }

  lemma FoundByLater(t: Tables, tries: seq<Try>, i: nat)
    requires i + 1 < |tries|
    ensures FoundBy(t, tries, 0) == Run(t, tries[0].others)
    ensures FoundBy(t, tries, i + 1) == FoundBy(Run(t, tries[0].others), tries[1..], i)
  {
    assert tries[..1][1..] == [] && tries[..i + 2][1..] == tries[1..][..i + 1];
    assert OthersOf(tries[..1]) == tries[0].others;
    RunConcat(t, tries[0].others, OthersOf(tries[1..][..i + 1]));
  }

  /** What the i-th attempt does there. */
  function AttemptAt(t: Tables, op: Op, tries: seq<Try>, i: nat): Attempted
    requires i < |tries|
  {
    Attempt(FoundBy(t, tries, i), op, tries[i].weather)
  }

  lemma AttemptLater(t: Tables, op: Op, tries: seq<Try>, i: nat)
    requires i + 1 < |tries|
    ensures AttemptAt(t, op, tries, i + 1) == AttemptAt(Run(t, tries[0].others), op, tries[1..], i)
  {
    FoundByLater(t, tries, i);
    hide Attempt;
    hide FoundBy;
    hide Run;
  }

  /** The first attempt, and what is left to retry. */
  lemma RetryStep(t: Tables, op: Op, tries: seq<Try>)
    requires tries != []
    ensures FoundBy(t, tries, 0) == Run(t, tries[0].others)
    ensures var r := AttemptAt(t, op, tries, 0);
      && Retry(t, op, tries) == (if r.outcome.Transient? && |tries| > 1 then Retry(r.tables, op, tries[1..]) else r)
      && (r.outcome.Transient? ==> r.tables == Run(t, tries[0].others))
  {
    assert FoundBy(t, tries, 0) == Run(t, tries[0].others) by {
      assert tries[..1][1..] == [] && OthersOf(tries[..1]) == tries[0].others;
    }
    hide FoundBy;
    hide Run;
    hide RunScript;
  }

  /**
    A retried operation takes effect at most once: the attempts before the k-th were transient and left no trace,
    and the result is that of the k-th attempt alone, run where the other callers had brought the tables. Only a
    transient failure is retried, so the loop ends early unless the budget is spent.
   */
  lemma {:induction false} RetryIsOneAttempt(t: Tables, op: Op, tries: seq<Try>) returns (k: nat)
    requires tries != []
    ensures k < |tries|
    ensures Retry(t, op, tries) == AttemptAt(t, op, tries, k)
    ensures forall i | 0 <= i < k :: AttemptAt(t, op, tries, i).outcome.Transient?
    ensures Retry(t, op, tries).outcome.Transient? ==> k == |tries| - 1
    decreases |tries|
  {
    var r := AttemptAt(t, op, tries, 0);
    RetryStep(t, op, tries);
    hide AttemptAt;
    hide Run;
    hide Retry;
    if r.outcome.Transient? && |tries| > 1 {
      var j := RetryIsOneAttempt(r.tables, op, tries[1..]);
      k := j + 1;
      AttemptLater(t, op, tries, j);
      forall i | 0 <= i < k ensures AttemptAt(t, op, tries, i).outcome.Transient? {
        if i > 0 {
          AttemptLater(t, op, tries, i - 1);
        }
      }
    } else {
      k := 0;
    }
  }

  /** A retry that gives up after transient failures leaves no trace of the operation. */
  lemma GivingUpLeavesNoTrace(t: Tables, op: Op, tries: seq<Try>)
    requires tries != [] && Retry(t, op, tries).outcome.Transient?
    ensures Retry(t, op, tries).tables == Run(t, OthersOf(tries))
  {
    var k := RetryIsOneAttempt(t, op, tries);
    assert tries[..|tries|] == tries;
  }

  // ----- Runs

  lemma StepKeepsIntegrity(t: Tables, e: Event)
    requires Integrity(t)
    ensures Integrity(Step(t, e))
  {
    hide Integrity;
    match e
    case ClusterAttempt(op, w) => AttemptIsAtomicAndExact(t, op, w);
    case AgentUpsert(info, _) => UpsertAgentStep(t, info.spiffeid, PluginColumn(info));
  }

  lemma {:induction false} RunFromKeepsIntegrity(t: Tables, events: seq<Event>)
    requires Integrity(t)
    ensures Integrity(Run(t, events))
    decreases |events|
  {
    if events == [] {
    } else {
      RunFromKeepsIntegrity(t, events[..|events| - 1]);
      StepKeepsIntegrity(Run(t, events[..|events| - 1]), events[|events| - 1]);
    }
  }

  /** Every state the store can reach, by any events in any order with any faults, is sound. */
  lemma RunKeepsIntegrity(events: seq<Event>)
    ensures Integrity(Run(EMPTY, events))
  {
    RunFromKeepsIntegrity(EMPTY, events);
  }

  // ----- What a caller can conclude from a retried operation

  /** The operation was accepted where some attempt found the tables, and happened there once. */
  ghost predicate TookEffect(t: Tables, op: Op, tries: seq<Try>, t': Tables) {
    exists k: nat | k < |tries| ::
      var g := Abstract(FoundBy(t, tries, k));
      Refusal(g, op).None? && Abstract(t') == After(g, op, tries[k].weather.now)
  }

  /** Only other callers' work is in the tables. */
  ghost predicate NoEffect(t: Tables, tries: seq<Try>, t': Tables) {
    exists k: nat | k < |tries| :: t' == FoundBy(t, tries, k)
  }

  ghost predicate RefusedWith(t: Tables, op: Op, tries: seq<Try>, reason: Reason) {
    exists k: nat | k < |tries| :: Refusal(Abstract(FoundBy(t, tries, k)), op) == Some(reason)
  }

  /** The k-th try meets no failure of the database, and all those before it fail in a way worth another attempt. */
  ghost predicate FirstCalm(t: Tables, op: Op, tries: seq<Try>, k: nat) {
    && k < |tries| && Calm(tries[k].weather)
    && forall i | 0 <= i < k :: AttemptAt(t, op, tries, i).outcome.Transient?
  }

  predicate NoStatementFails(w: Weather) {
    forall f | f in w.faults :: f.NoFault?
  }

  /** Which failures are worth another attempt: of BeginTx, or of the Commit of an operation that was not refused. */
  lemma TransientExactly(t: Tables, op: Op, w: Weather)
    requires Integrity(t) && NoStatementFails(w)
    ensures Attempt(t, op, w).outcome.Transient? <==>
            w.beginFails || (w.commitFails && Refusal(Abstract(t), op).None?)
  {
    ScriptRefines(t, op, w.faults, w.now);
    CalmScript(t, ScriptOf(op), w.faults, w.now);
    hide Integrity;
    hide Abstract;
    hide Refusal;
    hide After;
    hide RunScript;
  }

  /** Whatever a calm try finds decides: the operation is done there unless it is refused there. */
  ghost predicate DecidedByCalm(t: Tables, op: Op, tries: seq<Try>, r: Attempted) {
    forall k: nat | FirstCalm(t, op, tries, k) ::
      var found := FoundBy(t, tries, k);
      match Refusal(Abstract(found), op)
      case None => r.outcome.Done? && Abstract(r.tables) == After(Abstract(found), op, tries[k].weather.now)
      case Some(reason) => r == Attempted(found, Permanent(PostFailure(reason), true))
  }

  lemma FirstCalmDecides(t: Tables, op: Op, tries: seq<Try>, k: nat)
    requires FirstCalm(t, op, tries, k)
    requires !AttemptAt(t, op, tries, k).outcome.Transient?
    ensures Retry(t, op, tries) == AttemptAt(t, op, tries, k)
  {
    hide FoundBy;
    hide Attempt;
    hide Retry;
    var n := RetryIsOneAttempt(t, op, tries);
    if n < k {
      assert false;
    }
  }

  /** Without faults an attempt is done, or refused for the operation's own reason with a clean rollback. */
  lemma CalmAttempt(t: Tables, op: Op, w: Weather)
    requires Integrity(t) && Calm(w)
    ensures var r := Attempt(t, op, w); var g := Abstract(t);
      && !r.outcome.Transient?
      && (Refusal(g, op).None? ==> r.outcome.Done? && Abstract(r.tables) == After(g, op, w.now))
      && (Refusal(g, op).Some? ==> r == Attempted(t, Permanent(PostFailure(Refusal(g, op).value), true)))
  {
    AttemptIsAtomicAndExact(t, op, w);
    CalmScript(t, ScriptOf(op), w.faults, w.now);
    hide Integrity;
    hide Abstract;
    hide Refusal;
    hide After;
    hide RunScript;
  }

  lemma CalmDecides(t: Tables, op: Op, tries: seq<Try>)
    requires Integrity(t) && tries != []
    ensures DecidedByCalm(t, op, tries, Retry(t, op, tries))
  {
    forall k: nat | FirstCalm(t, op, tries, k)
      ensures var r, found := Retry(t, op, tries), FoundBy(t, tries, k);
        && (Refusal(Abstract(found), op).None? ==>
              r.outcome.Done? && Abstract(r.tables) == After(Abstract(found), op, tries[k].weather.now))
        && (Refusal(Abstract(found), op).Some? ==>
              r == Attempted(found, Permanent(PostFailure(Refusal(Abstract(found), op).value), true)))
    {
      var found := FoundBy(t, tries, k);
      RunFromKeepsIntegrity(t, OthersOf(tries[..k + 1]));
      CalmAttempt(found, op, tries[k].weather);
      FirstCalmDecides(t, op, tries, k);
    }
  }

  /**
    What the caller of a retried operation can conclude: success means it took effect once where it was allowed,
    failure (after a clean rollback) that it had no effect, a refusal that it was refused somewhere; and the first
    try without database failures settles which.
   */
  lemma RetryIsExact(t: Tables, op: Op, tries: seq<Try>)
    requires Integrity(t) && tries != []
    ensures var r := Retry(t, op, tries);
      && Integrity(r.tables)
      && (r.outcome.Done? ==> TookEffect(t, op, tries, r.tables))
      && (!r.outcome.Done? && Clean(r.outcome) ==> NoEffect(t, tries, r.tables))
      && (r.outcome.Permanent? && r.outcome.error.PostFailure? ==> RefusedWith(t, op, tries, r.outcome.error.reason))
      && DecidedByCalm(t, op, tries, r)
  {
    var k := RetryIsOneAttempt(t, op, tries);
    RunFromKeepsIntegrity(t, OthersOf(tries[..k + 1]));
    AttemptIsAtomicAndExact(FoundBy(t, tries, k), op, tries[k].weather);
    CalmDecides(t, op, tries);
    hide DecidedByCalm;
  }

  // ----- What cluster operations leave alone

  lemma {:induction false} InsertAgentsOnlyNew(t: Tables, spiffeids: seq<string>)
    ensures var t' := InsertAgentsOrIgnore(t, spiffeids);
      OnlyNewAgents(t.agents, t'.agents) && t'.clusters == t.clusters && t'.members == t.members
    decreases |spiffeids|
  {
    if spiffeids == [] {
    } else {
      InsertAgentsOnlyNew(InsertAgentOrIgnore(t, spiffeids[0]), spiffeids[1..]);
    }
  }

  lemma {:induction false} InsertMembersOnlyMembers(t: Tables, name: string, spiffeids: seq<string>)
    requires InsertMembers(t, name, spiffeids).Some?
    ensures var t' := InsertMembers(t, name, spiffeids).value;
      && t'.agents == t.agents && t'.clusters == t.clusters && t.members <= t'.members
      && forall i | |t.members| <= i < |t'.members| :: t'.members[i].clusterId == ClusterId(t, name)
    decreases |spiffeids|
  {
    if spiffeids == [] {
    } else {
      InsertMembersOnlyMembers(InsertMember(t, spiffeids[0], name).value, name, spiffeids[1..]);
    }
  }

  lemma {:induction false} ScriptAddsOnlyAgents(t: Tables, script: Script, faults: seq<Fault>, now: string)
    ensures OnlyNewAgents(t.agents, RunScript(t, script, faults, now).tables.agents)
    decreases script
  {
    match script
    case End =>
    case Then(stmt, rest) =>
      var r := RunStmt(t, stmt, FirstFault(faults), now);
      if stmt.InsertAgentsStmt? {
        InsertAgentsOnlyNew(t, stmt.spiffeids);
      } else if stmt.InsertMembersStmt? && InsertMembers(t, stmt.name, stmt.spiffeids).Some? {
        InsertMembersOnlyMembers(t, stmt.name, stmt.spiffeids);
      }
      if r.StmtOk? {
        ScriptAddsOnlyAgents(r.tables, rest, LaterFaults(faults), now);
      }
  }

  predicate HasPlugin(a: AgentRow) {
    a.plugin.Some?
  }

  /** SELECT spiffeid, plugin FROM agents WHERE plugin IS NOT NULL: what GetAgentSelectors lists. */
  function SelectorRows(rows: seq<AgentRow>): seq<AgentRow> {
    Filter(rows, HasPlugin)
  }

  /** No cluster operation, successful or not, changes what GetAgentSelectors lists. */
  lemma ClusterOpsKeepSelectors(t: Tables, op: Op, w: Weather)
    ensures SelectorRows(Attempt(t, op, w).tables.agents) == SelectorRows(t.agents)
  {
    ScriptAddsOnlyAgents(t, ScriptOf(op), w.faults, w.now);
    var before, after := t.agents, Attempt(t, op, w).tables.agents;
    hide RunScript;
    hide Filter;
    var added := after[|before|..];
    FilterAppend(before, added, HasPlugin);
    FilterNone(added, HasPlugin);
    assert after == before + added;
  }

  lemma {:induction false} FindInLonger(rows: seq<AgentRow>, more: seq<AgentRow>, s: string)
    requires FindAgent(rows, s).Some?
    ensures FindAgent(rows + more, s) == FindAgent(rows, s)
  {
    assert (rows + more)[1..] == rows[1..] + more;
    if rows[0].spiffeid != s {
      FindInLonger(rows[1..], more, s);
    }
  }

  lemma AttemptKeepsAgentId(t: Tables, op: Op, w: Weather, s: string)
    requires AgentId(t, s).Some?
    ensures AgentId(Attempt(t, op, w).tables, s) == AgentId(t, s)
  {
    ScriptAddsOnlyAgents(t, ScriptOf(op), w.faults, w.now);
    var after := Attempt(t, op, w).tables.agents;
    assert after == t.agents + after[|t.agents|..];
    FindInLonger(t.agents, after[|t.agents|..], s);
  }

  lemma StepKeepsAgentId(t: Tables, e: Event, s: string)
    requires Integrity(t) && AgentId(t, s).Some?
    ensures AgentId(Step(t, e), s) == AgentId(t, s)
  {
    hide Integrity;
    hide Abstract;
    hide Attempt;
    hide UpsertAgent;
    match e
    case ClusterAttempt(op, w) => AttemptKeepsAgentId(t, op, w, s);
    case AgentUpsert(info, _) => UpsertAgentStep(t, info.spiffeid, PluginColumn(info));
  }

  /** A known agent keeps its row id for ever, and with it everything recorded under that id. */
  lemma {:induction false} RunKeepsAgentIds(before: seq<Event>, after: seq<Event>, s: string)
    requires AgentId(Run(EMPTY, before), s).Some?
    ensures AgentId(Run(EMPTY, before + after), s) == AgentId(Run(EMPTY, before), s)
    decreases |after|
  {
    hide Integrity;
    hide AgentId;
    hide Step;
    var all := before + after;
    if after == [] {
      assert all == before;
    } else {
      var earlier := after[..|after| - 1];
      assert all[..|all| - 1] == before + earlier;
      RunKeepsAgentIds(before, earlier, s);
      RunKeepsIntegrity(before + earlier);
      StepKeepsAgentId(Run(EMPTY, before + earlier), after[|after| - 1], s);
    }
  }

  /** Registering a workload plugin never moves an agent to another cluster. */
  lemma UpsertKeepsHomes(t: Tables, info: AgentInfo, fails: bool)
    requires Integrity(t)
    ensures Abstract(Step(t, AgentUpsert(info, fails))).homes == Abstract(t).homes
    ensures Abstract(Step(t, AgentUpsert(info, fails))).clusters == Abstract(t).clusters
    ensures Abstract(Step(t, AgentUpsert(info, fails))).plugins == if fails then Abstract(t).plugins else
      Abstract(t).plugins[info.spiffeid := if info.plugin == "" then None else Some(info.plugin)]
  {
    UpsertAgentStep(t, info.spiffeid, PluginColumn(info));
  }

  // ----- Create, then delete

  lemma AfterDelete(t: Tables, name: string, w: Weather)
    requires Attempt(t, Delete(name), w).outcome.Done?
    ensures var t' := Attempt(t, Delete(name), w).tables;
      && t'.agents == t.agents && t'.clusters == Filter(t.clusters, NotNamed(name))
      && t'.members == DeleteMembersOf(t, name).members
  {
    hide RunScript;
    hide Filter;
    RunThen(t, DeleteMembersStmt(name), Then(DeleteClusterStmt(name), End), w.faults, w.now);
    var emptied, later := DeleteMembersOf(t, name), LaterFaults(w.faults);
    RunThen(emptied, DeleteClusterStmt(name), End, later, w.now);
    RunThen(DeleteCluster(emptied, name).tables, DeleteClusterStmt(name), End, LaterFaults(later), w.now);
  }

  lemma OldMembersAreElsewhere(t: Tables)
    requires Integrity(t)
    ensures forall m | m in t.members :: NotInCluster(t.lastCluster + 1)(m)
  {
  }

  lemma AfterAddBatch(t: Tables, name: string, spiffeids: seq<string>, faults: seq<Fault>, now: string)
    requires RunScript(t, AddBatch(name, spiffeids), faults, now).StmtOk?
    ensures var t' := RunScript(t, AddBatch(name, spiffeids), faults, now).tables;
      && t'.clusters == t.clusters && t.members <= t'.members
      && forall i | |t.members| <= i < |t'.members| :: t'.members[i].clusterId == ClusterId(t, name)
  {
    if spiffeids != [] {
      var known := InsertAgentsOrIgnore(t, spiffeids);
      InsertAgentsOnlyNew(t, spiffeids);
      RunThen(t, InsertAgentsStmt(spiffeids), Then(InsertMembersStmt(name, spiffeids), End), faults, now);
      RunThen(known, InsertMembersStmt(name, spiffeids), End, LaterFaults(faults), now);
      InsertMembersOnlyMembers(known, name, spiffeids);
    }
  }

  lemma AfterCreate(t: Tables, c: ClusterInfo, w: Weather)
    requires Attempt(t, Create(c), w).outcome.Done?
    ensures FindCluster(t.clusters, c.name).None?
    ensures var t1 := Attempt(t, Create(c), w).tables; var id := t.lastCluster + 1;
      && t1.clusters == t.clusters + [ClusterRow(id, c.name, w.now, c.domainName, c.managedBy, c.platformType)]
      && t.members <= t1.members && (forall i | |t.members| <= i < |t1.members| :: t1.members[i].clusterId == Some(id))
      && OnlyNewAgents(t.agents, t1.agents)
  {
    hide RunScript;
    hide AddBatch;
    ScriptAddsOnlyAgents(t, ScriptOf(Create(c)), w.faults, w.now);
    RunThen(t, InsertClusterStmt(c), AddBatch(c.name, c.agentsList), w.faults, w.now);
    var first := InsertCluster(t, c, w.now).tables;
    FindClusterAppend(t.clusters, first.clusters[|t.clusters|], c.name);
    AfterAddBatch(first, c.name, c.agentsList, LaterFaults(w.faults), w.now);
  }

  /** Deleting a cluster just created restores both cluster tables row by row; only plugin-less agents remain. */
  lemma CreateThenDelete(t: Tables, c: ClusterInfo, w: Weather, w': Weather)
    requires Integrity(t)
    requires Attempt(t, Create(c), w).outcome.Done?
    requires Attempt(Attempt(t, Create(c), w).tables, Delete(c.name), w').outcome.Done?
    ensures var t2 := Attempt(Attempt(t, Create(c), w).tables, Delete(c.name), w').tables;
      t2.clusters == t.clusters && t2.members == t.members && OnlyNewAgents(t.agents, t2.agents)
  {
    hide Attempt;
    hide Integrity;
    hide RunScript;
    var t1 := Attempt(t, Create(c), w).tables;
    AfterCreate(t, c, w);
    var id, extra := t.lastCluster + 1, t1.members[|t.members|..];
    FindClusterAppend(t.clusters, t1.clusters[|t.clusters|], c.name);
    AfterDelete(t1, c.name, w');
    assert t1.members == t.members + extra;
    FilterAppend(t.members, extra, NotInCluster(id));
    OldMembersAreElsewhere(t);
    FilterAll(t.members, NotInCluster(id));
    FilterNone(extra, NotInCluster(id));
    FilterAppend(t.clusters, [t1.clusters[|t.clusters|]], NotNamed(c.name));
    FilterAll(t.clusters, NotNamed(c.name));
    FilterNone([t1.clusters[|t.clusters|]], NotNamed(c.name));
  }

  // ----- Why the order of statements matters

  lemma SameClusterRow(t: Tables, c: ClusterRow, x: ClusterRow)
    requires Integrity(t) && c in t.clusters && x in t.clusters && c.id == x.id
    ensures c == x
  {
  }

  lemma DanglingAfterDrop(t: Tables, name: string, s: string)
    requires Integrity(t) && ClusterOf(t, s) == Some(name)
    ensures !Integrity(DeleteCluster(t, name).tables)
  {
    var t' := DeleteCluster(t, name).tables;
    var a, m, c := LinkOf(t, s);
    hide ClusterOf;
    forall x | x in t'.clusters ensures x.id != c.id {
      if x.id == c.id {
        SameClusterRow(t, c, x);
      }
    }
    hide Filter;
    assert m in t'.members && !PointsAtRows(t', m);
  }

  /**
    Without enforced foreign keys, deleting a cluster keeps the tables sound exactly when no agent is left in it;
    so the delete transaction must empty the cluster first.
   */
  lemma DeletingTheClusterFirstDangles(t: Tables, name: string)
    requires Integrity(t)
    ensures Integrity(DeleteCluster(t, name).tables) <==> Vacant(Abstract(t), name)
  {
    if Vacant(Abstract(t), name) {
      DeleteClusterStep(t, name);
    } else {
      var s :| s in Abstract(t).homes && Abstract(t).homes[s] == name;
      HomesGet(t, s);
      DanglingAfterDrop(t, name, s);
    }
  }

  /** Memberships of agents that are not yet in the agents table get a NULL id, which UNIQUE never stops. */
  lemma MembersBeforeAgentsInsertNulls(t: Tables, name: string, s: string)
    requires FindAgent(t.agents, s).None?
    ensures InsertMembers(t, name, [s, s]).Some?
    ensures !Integrity(InsertMembers(t, name, [s, s]).value)
  {
    var t1 := InsertMember(t, s, name).value;
    var t2 := InsertMember(t1, s, name).value;
    assert [s, s][1..] == [s] && [s][1..] == [];
    assert InsertMembers(t1, name, [s]) == InsertMembers(t2, name, []) == Some(t2);
    assert t2.members[|t.members|] in t2.members && !PointsAtRows(t2, t2.members[|t.members|]);
  }
}
