# Tornjak, modelled and verified

Dafny model of the logic behind Tornjak's agent back end and entry pages:

- **Cluster registry** (`Schema`, `Registry`, `Refinement`, `Transactions`, `Runs`, `Views`, `Store`): three SQL
  tables with nullable, unenforced references; create, edit and delete transactions with rollback and retry; the
  read queries with their left joins, grouping and `GROUP_CONCAT`. The tables refine a simple picture: cluster
  metadata by name, plugins by agent, one cluster per assigned agent. Which database calls fail, the clock, the
  order of query rows and the work of other callers are inputs, so the results hold for all of them. Nothing is
  proved from foreign keys.
- **Agents and entries** (`Association`, `Dashboards`, `SpiffeHelper`, `ParentOptions`, `EndToEnd`): the simple and
  the one-pass association of node entries with agents, and the pages that count or list along different routes.
  Agents and entries are objects, because the code fills in their undefined selectors in place; the laws are about
  their values.
- **Text forms** (`Text`, `Spiffe`, `EntryForm`, `JsonEditor`): SPIFFE IDs, selectors, the entry form as a state
  machine and the load/apply cycle of the JSON editor.
- **Trust bundles and federation relationships** (`Bundles`): conversion in both directions, with int64 wrap-around.
- **Access control** (`Rbac`): the fold of configuration blocks, its validation and the decision.

Check everything with `dafny verify dfyconfig.toml`.

Assumptions: SQLite runs write transactions one after the other and a failing statement has no effect; a failed
`Commit`, like a successful `Rollback`, leaves the state before the transaction (a failed `Rollback` is taken to
leave everything the transaction had done); what the library codecs print back of the data at hand is what they
parsed (`Bundles.PrintsBack`); each `setState` is applied before the next event.

Findings, with their exact conditions and inputs below: agents whose spiffeid holds a comma break the cluster
listings (`GetClusterAgents`, `CommaIsListedAsTwo`); two agents of one id are counted together by the pie chart only
(`PieChartAgrees`, `PieChartOvercounts`); a selector type with a colon can confuse coverage (`CoverageExactly`,
`ColonsConfuseCoverage`); the entries table can show a row that no count includes (`ShownCountedExactly`,
`ShownNotCounted`); filtered by a cluster named "None" it shows the entries of agents without a cluster
(`RowsOfCluster`, `NoneListsEverything`); DNS names cannot be emptied in the JSON editor (`EditLandsInItsField`,
`ClearedDnsNamesStay`); an overwritten APIv1 block is never validated (`OverwrittenAreNotValidated`,
`OverwrittenBlockIsAccepted`); a known agent with a NULL plugin is reported as a query error rather than as having no
plugin (`GetAgentPluginInfo`, `PluginOfListedAgent`). A bundle with a JWT key that the library parses and does not
marshal, such as a DSA key, is accepted and cannot be converted back (`ConvertedIsConvertible`).

## Model

| member | source | states |
|---|---|---|
| Refinement.InsertClusterStep | pkg/agent/db/sqlite_txhelpers.go:50-65 | the INSERT violates UNIQUE exactly for a registered name; otherwise it adds that one cluster to the picture and keeps the tables sound |
| Refinement.UpdateClusterStep | pkg/agent/db/sqlite_txhelpers.go:69-94 | the UPDATE touches no row for an unknown name, violates UNIQUE exactly when the new name is another cluster's, and otherwise renames the cluster with its agents and keeps its creation time |
| Refinement.DeleteMembersStep | pkg/agent/db/sqlite_txhelpers.go:171-182 | the DELETE unassigns exactly the agents of that cluster, none for an unknown name (NULL sub-select) |
| Refinement.DeleteClusterStep | pkg/agent/db/sqlite_txhelpers.go:98-116 | once the cluster is vacant its row can go: the tables stay sound, only that name leaves the picture, and one row is affected exactly when it existed |
| Refinement.InsertAgentsStep | pkg/agent/db/sqlite_txhelpers.go:121-153 | INSERT OR IGNORE makes the unknown agents known without a plugin, changes no existing row and assigns nobody |
| Refinement.InsertMembersStep | pkg/agent/db/sqlite_txhelpers.go:155-167 | INSERT OR ABORT succeeds exactly when the list has no duplicate and no listed agent is assigned, then assigns all of them, with no NULL reference |
| Refinement.UpsertAgentStep | pkg/agent/db/sqlite.go:72-96 | the upsert sets one plugin, keeps every row id and leaves clusters and memberships alone |
| Refinement.HomesAreClusters | pkg/agent/db/sqlite.go:18-29 | an assigned agent is assigned to a registered cluster |
| Registry.EditMeans | pkg/agent/db/sqlite.go:329-357 | an accepted edit, name by name and agent by agent: new metadata, old creation time, exactly the listed agents, all else unchanged |
| Registry.CreateMeans | pkg/agent/db/sqlite.go:305-326 | an accepted creation, name by name and agent by agent: the new cluster with its own fields and time, exactly the listed agents, all else unchanged |
| Registry.DeleteMeans | pkg/agent/db/sqlite.go:359-382 | an accepted deletion: the cluster goes and its agents have none, all else unchanged |
| Registry.EditAccepted | pkg/agent/db/sqlite.go:329-357 | the exact condition under which an edit is accepted |
| Registry.RefusedFor | pkg/agent/db/sqlite_txhelpers.go:50-167 | for which of the three reasons each operation is refused, exactly |
| Registry.AssignableCons | pkg/agent/db/sqlite_txhelpers.go:155-167 | assigning a list is assigning its elements in turn, and is possible exactly when each step is |
| Transactions.AddBatchRefines | pkg/agent/db/sqlite_txhelpers.go:121-167 | whatever statement fails, the batch leaves sound tables; it succeeds only on an assignable list and is refused with a conflict only on one that is not |
| Transactions.RenameThenUnassign | pkg/agent/db/sqlite.go:338-348 | renaming a cluster and then emptying it under the new name empties that cluster and no other |
| Transactions.EditInSteps | pkg/agent/db/sqlite.go:329-357 | an edit is a rename, the emptying of the renamed cluster and the assignment of the listed agents, with the same acceptance |
| Transactions.ScriptRefines | pkg/agent/db/sqlite.go:305-382 | every create, edit or delete transaction, with any faults, leaves sound tables at every point; if it gets through, it is the abstract operation, and a refusal carries the operation's own reason |
| Runs.AttemptIsAtomicAndExact | pkg/agent/db/sqlite.go:305-382 | an attempt is all or nothing across the three tables, is done only as the abstract operation, and without faults is done exactly when not refused |
| Runs.RetryIsOneAttempt | pkg/agent/db/sqlite.go:384-413 | of any run of retried attempts, with other callers in between, exactly the last one counts; all before were transient and left no trace |
| Runs.GivingUpLeavesNoTrace | pkg/agent/db/sqlite.go:384-413 | when the backoff is spent on transient failures only other callers' work is in the tables |
| Runs.RetryIsExact | pkg/agent/db/sqlite.go:384-413 | a retried operation that reports success took effect once where it was allowed; one that reports failure had none (after a clean rollback); and the first try without database failures, after any that failed transiently, settles it: done exactly when not refused where it finds the tables |
| Runs.CalmDecides | pkg/agent/db/sqlite.go:384-413 | after attempts that failed transiently, a try without failures is done as the abstract operation, or refused with its reason and the tables as found |
| Runs.TransientExactly | pkg/agent/db/sqlite.go:305-382 | unless a statement itself fails, an attempt fails transiently exactly when it cannot begin or the commit of an operation that is not refused fails |
| Runs.RunKeepsIntegrity | pkg/agent/db/sqlite.go:18-29 | in every state reachable by any interleaving of successful, failing and half-rolled-back transactions the memberships are non-NULL, point at existing rows, and put each agent in at most one cluster; names and spiffeids are unique |
| Runs.RunFromKeepsIntegrity | pkg/agent/db/sqlite.go:18-29 | the same from any sound state |
| Runs.ClusterOpsKeepSelectors | pkg/agent/db/sqlite_txhelpers.go:125-141 | no cluster operation changes what the selector listing shows |
| Runs.RunKeepsAgentIds | pkg/agent/db/sqlite.go:72-96 | over every run a known agent keeps its row id |
| Runs.UpsertKeepsHomes | pkg/agent/db/sqlite.go:72-96 | registering a plugin sets that plugin, an empty one as none, and changes neither clusters nor assignments |
| Runs.CreateThenDelete | pkg/agent/db/sqlite.go:305-382 | create then delete restores the clusters and memberships tables row by row; only plugin-less agent rows are added |
| Runs.DeletingTheClusterFirstDangles | pkg/agent/db/sqlite.go:369-379 | deleting a cluster row keeps the references sound exactly when no agent is left in the cluster; hence the order of the delete transaction |
| Runs.MembersBeforeAgentsInsertNulls | pkg/agent/db/sqlite_txhelpers.go:125-147 | with memberships inserted before their agents, NULL ids get past UNIQUE, even twice |
| Store.Database.ExecInsertAgents | pkg/agent/db/sqlite_txhelpers.go:138-153 | the in-place multi-row insert is the relational meaning of the statement |
| Store.Database.ExecInsertMembers | pkg/agent/db/sqlite_txhelpers.go:155-167 | the in-place insert aborts as a whole on the first conflict and is otherwise the statement's meaning |
| Store.Database.Commit | pkg/agent/db/sqlite.go:325 | a successful commit keeps the transaction's tables, a failed one the snapshot |
| Store.Database.Rollback | pkg/agent/db/sqlite_txhelpers.go:25-34 | a successful rollback restores the snapshot, a failed one changes nothing |
| Store.TornjakTxHelper.RollbackHandler | pkg/agent/db/sqlite_txhelpers.go:25-46 | the error is kept, and whether the rollback worked is recorded |
| Store.TornjakTxHelper.InsertClusterMetadata | pkg/agent/db/sqlite_txhelpers.go:50-65 | tables and error are those of the statement under the given fault |
| Store.TornjakTxHelper.UpdateClusterMetadata | pkg/agent/db/sqlite_txhelpers.go:69-94 | likewise, with a lost or wrong row count as an error |
| Store.TornjakTxHelper.DeleteClusterMetadata | pkg/agent/db/sqlite_txhelpers.go:98-116 | likewise, with a lost or wrong row count as an error |
| Store.TornjakTxHelper.DeleteClusterAgents | pkg/agent/db/sqlite_txhelpers.go:171-182 | tables and error are those of the statement |
| Store.TornjakTxHelper.AddAgentBatchToCluster | pkg/agent/db/sqlite_txhelpers.go:121-167 | nothing for an empty list, else the two inserts in order, stopping at the first failure |
| Store.LocalSqliteDb.CreateClusterEntryOp | pkg/agent/db/sqlite.go:305-326 | one attempt at the create transaction: final tables and outcome |
| Store.LocalSqliteDb.EditClusterEntryOp | pkg/agent/db/sqlite.go:329-357 | one attempt at the edit transaction |
| Store.LocalSqliteDb.DeleteClusterEntryOp | pkg/agent/db/sqlite.go:360-382 | one attempt at the delete transaction |
| Store.LocalSqliteDb.RetryOp | pkg/agent/db/sqlite.go:384-413 | the loop retries transient failures only and ends with the budget; final tables and outcome |
| Store.LocalSqliteDb.CreateAgentEntry | pkg/agent/db/sqlite.go:72-96 | the plugin is recorded for the agent, NULL for an empty one, all else unchanged; a failure changes nothing |
| Store.LocalSqliteDb.GetAgentSelectors | pkg/agent/db/sqlite.go:98-124 | exactly the agents with a plugin, each once, in any row order |
| Store.LocalSqliteDb.GetAgentPluginInfo | pkg/agent/db/sqlite.go:126-138 | not found exactly for an unknown agent, the plugin exactly where one is recorded; a known agent with a NULL plugin is a query error |
| Store.LocalSqliteDb.GetClusterAgents | pkg/agent/db/sqlite.go:143-170 | not found exactly for an unknown cluster; the list is the cluster's agents, each once, exactly when none of them holds a comma |
| Store.LocalSqliteDb.GetAgentClusterName | pkg/agent/db/sqlite.go:173-192 | the agent's one cluster, or not found |
| Store.LocalSqliteDb.GetAgentsMetadata | pkg/agent/db/sqlite.go:197-252 | one row for each known agent asked for (all if none is named), with its plugin and cluster or empty text |
| Store.LocalSqliteDb.GetClusters | pkg/agent/db/sqlite.go:255-302 | each registered cluster once with its metadata, and with exactly its agents exactly when none of them holds a comma |
| Views.JoinAgentIsOneRow | pkg/agent/db/sqlite.go:199-202 | the double left join yields one row for an agent |
| Views.MetadataIsExact | pkg/agent/db/sqlite.go:197-252 | the joined, filtered rows are one per known requested agent, with the registered plugin and cluster |
| Views.GroupIsExact | pkg/agent/db/sqlite.go:145-150 | a GROUP BY group holds the agents assigned to that cluster, each once |
| Views.ListOfGroupConcat | pkg/agent/db/sqlite.go:162-166 | splitting GROUP_CONCAT gives the group back exactly when no spiffeid holds a comma, with NULL for the empty group |
| Views.HomeRowsAreExact | pkg/agent/db/sqlite.go:175-180 | the look-up by agent yields one row for a known agent, carrying its cluster or NULL |
| Views.ViewsAgree | pkg/agent/db/sqlite.go:143-192 | listing by cluster and looking up by agent agree, in any concatenation order, exactly when the cluster's spiffeids are comma-free |
| Store.Server.DefineCluster | api/agent/tornjak_apis.go:89-99 | past the guard (a name, a platform type and no edited name) the operation takes effect once or is reported as failed or refused; without database failures it succeeds exactly when not refused |
| Store.Server.EditCluster | api/agent/tornjak_apis.go:104-114 | past the guard (a name, a platform type and an edited name) the operation takes effect once or is reported as failed or refused; without database failures it succeeds exactly when not refused |
| Store.Server.DeleteCluster | api/agent/tornjak_apis.go:119-125 | past the guard (a name) the operation takes effect once or is reported as failed or refused; without database failures it succeeds exactly when not refused |
| Store.Server.DefineSelectors | api/agent/tornjak_apis.go:45-51 | past the guard the plugin is recorded for the agent, none for an empty one, all else unchanged |
| Association.ParseAfterFormat | frontend/src/components/spiffe-helper.tsx:289-291 | a formatted selector parses back exactly when its type is non-empty and colon-free |
| Association.NodeIsBelowServer | frontend/src/components/spiffe-helper.tsx:101-103 | node entries are those whose parent prints as the server of its trust domain |
| Association.FormatIsInjective | frontend/src/components/spiffe-helper.tsx:289-291 | formatted selectors differ when selectors do, unless one type, with its colon, begins the other |
| Association.TypesConfusedExactly | frontend/src/components/spiffe-helper.tsx:289-291 | two types can stand in one formatted text exactly when one, with its colon, begins the other |
| Association.ColonFreeIsNotConfusable | frontend/src/components/spiffe-helper.tsx:289-291 | types without a colon are never confusable |
| Association.CoversIsInclusion | frontend/src/components/spiffe-helper.tsx:280-291 | without such types coverage is inclusion of the selectors themselves |
| Association.CoverageExactly | frontend/src/components/spiffe-helper.tsx:280-291 | for selectors of given types coverage is inclusion exactly when no two of the types are confusable |
| Association.ColonsConfuseCoverage | frontend/src/components/spiffe-helper.tsx:280-291 | an input: with types k and k:a an agent covers an entry whose selector it lacks |
| Association.PushCount | frontend/src/components/spiffe-helper.tsx:156-164 | an agent covering an entry accounts for one push; more only through a namesake |
| Association.IndexMatchesSimpleForm | frontend/src/components/spiffe-helper.tsx:101-174 | the one-pass index has the simple form's list, as a sequence, exactly for agents without a covering namesake |
| Association.IndexMatchesForDistinctIds | frontend/src/components/spiffe-helper.tsx:101-174 | with distinct ids it does for every agent |
| Association.InIndexList | frontend/src/components/spiffe-helper.tsx:137-174 | which entries an id's list holds |
| Association.CanonicalIsDual | frontend/src/components/spiffe-helper.tsx:137-197 | a node entry has a covering agent exactly when some list holds it, and then the canonical id's list does |
| Association.CanonicalIsFirst | frontend/src/components/spiffe-helper.tsx:178-197 | the canonical id is that of the first covering agent |
| SpiffeHelper.NodeEntries | frontend/src/components/spiffe-helper.tsx:102 | the entries parented by the server, in order |
| SpiffeHelper.GetAgentEntries | frontend/src/components/spiffe-helper.tsx:101-120 | the objects of the simple form, filling in undefined selectors without changing any value; nothing for an undefined agent |
| SpiffeHelper.PrepareLambdas | frontend/src/components/spiffe-helper.tsx:148-166 | an empty list for each id and a closure for each agent |
| SpiffeHelper.CallLambdas | frontend/src/components/spiffe-helper.tsx:169-171 | the inner loop pushes the entry once for each closure that covers it |
| SpiffeHelper.BuildIndex | frontend/src/components/spiffe-helper.tsx:137-174 | the dictionary of objects is the specified index |
| SpiffeHelper.GetAgentsEntries | frontend/src/components/spiffe-helper.tsx:137-174 | undefined unless both lists are defined, else the index |
| SpiffeHelper.GetCanonicalAgentSpiffeid | frontend/src/components/spiffe-helper.tsx:178-197 | the first covering agent's id, or empty |
| SpiffeHelper.CountEntriesOfAgent | frontend/src/components/spiffe-helper.tsx:201-214 | the number of entries whose parent is among the agent's valid ids |
| SpiffeHelper.GetChildEntries | frontend/src/components/dashboard/agents-pie-chart.tsx:20-51 | a slice's value, taken through the dictionary |
| SpiffeHelper.AgentList | frontend/src/components/dashboard/agents-pie-chart.tsx:53-64 | one slice per agent in order, under its id, none while a list is undefined; its value is the agents table's number, or more exactly when a parent is valid only through a namesake |
| SpiffeHelper.CountEntriesOfCluster | frontend/src/components/tornjak-helper.tsx:87-98 | the sum over the cluster's agents |
| SpiffeHelper.WorkloadEntry | frontend/src/components/tornjak-helper.tsx:141-188 | the row of an entry with its canonical parent (see ParentIsAgent and the two after it), plugin and cluster |
| SpiffeHelper.EntryList | frontend/src/components/dashboard/entries-dashboard-table.tsx:42-68 | nothing while a list is undefined; without a filter a row per entry in order; filtered by an agent the rows of the entries shown for it; by a cluster the rows of that cluster; by both either |
| Dashboards.PieChartAgrees | frontend/src/components/dashboard/agents-pie-chart.tsx:20-64 | the pie chart shows at least the table's number, and the same exactly when no entry's parent, while no valid id of the agent, names a node entry that another agent of its id covers |
| Dashboards.PieChartOvercounts | frontend/src/components/dashboard/agents-pie-chart.tsx:20-64 | an input: two agents of one id whose chart value exceeds the count |
| Dashboards.PieChartAgreesForDistinctIds | frontend/src/components/spiffe-helper.tsx:201-214 | with distinct ids the pie chart and the agents table show the same number for every agent |
| Dashboards.ClusterCountIsPairs | frontend/src/components/tornjak-helper.tsx:87-98 | the cluster's count is the number of pairs of a listed agent and an entry below it |
| Dashboards.ParentIsAgent | frontend/src/components/tornjak-helper.tsx:143-152 | an entry whose parent is an agent is shown under that agent |
| Dashboards.ParentIsEntry | frontend/src/components/tornjak-helper.tsx:143-152 | else under the first agent to cover the first entry of the parent id, or under none |
| Dashboards.ParentIsUnknown | frontend/src/components/tornjak-helper.tsx:143-152 | else under its parent |
| Dashboards.ShownIsCounted | frontend/src/components/dashboard/entries-dashboard-table.tsx:51-68 | a row shown for an agent is among the entries counted for it, given distinct ids and parent look-ups that land on node entries |
| Dashboards.ShownIffCounted | frontend/src/components/dashboard/entries-dashboard-table.tsx:51-68 | if moreover node entries are unambiguous, the rows are exactly the counted entries |
| Dashboards.ShownCountedExactly | frontend/src/components/tornjak-helper.tsx:139-152 | a row shown for an agent that is not its parent is counted exactly when the look-up of its parent lands on a node entry or the agent covers another node entry under the parent id |
| Dashboards.ShownCountedForOneEntry | frontend/src/components/tornjak-helper.tsx:139-152 | with one entry to the parent id, exactly when the look-up lands on a node entry |
| Dashboards.ShownNotCounted | frontend/src/components/tornjak-helper.tsx:139-152 | an input: without a node entry behind the parent a row is shown that is not counted |
| Dashboards.RowsForAgent | frontend/src/components/dashboard/entries-dashboard-table.tsx:58-68 | the filtering loop's result in terms of entries |
| Dashboards.RowsAtMostCount | frontend/src/components/dashboard/entries-dashboard-table.tsx:51-68 | the table never has more rows than the count, and as many when unambiguous |
| EndToEnd.RecordOfAgent | frontend/src/components/spiffe-helper.tsx:89-97 | the first record found is the registered plugin and cluster of the agent |
| EndToEnd.RegisterThenAsk | pkg/agent/db/sqlite.go:72-139 | from registration to look-up: a non-empty plugin comes back as it was, an empty one is a query error |
| EndToEnd.DefineThenList | pkg/agent/db/sqlite.go:255-326 | from definition to listing: the cluster has its own fields, agents and time of definition |
| EndToEnd.EditThenList | pkg/agent/db/sqlite.go:255-357 | after an edit it is listed under the new name with the new fields and agents and the first time of definition |
| EndToEnd.RowShowsRegistry | frontend/src/components/tornjak-helper.tsx:147-155 | an entry's row shows what the database has for its canonical agent, if that agent was asked for |
| EndToEnd.RowBelowAgent | frontend/src/components/tornjak-helper.tsx:141-188 | an entry whose parent is an agent is shown with that agent, its registered plugin and cluster, None where there is none |
| EndToEnd.RowsOfCluster | frontend/src/components/dashboard/entries-dashboard-table.tsx:58-68 | filtered by a cluster, the table shows an entry exactly when its canonical agent is registered in it, except that a cluster named None also gets the entries of agents without a cluster |
| EndToEnd.NoneListsEverything | frontend/src/components/tornjak-helper.tsx:147-155 | an input: a cluster named None without agents, for which the table lists every entry |
| EndToEnd.OnlyAgentListed | pkg/agent/db/sqlite.go:143-171 | from definition to listing: the only agent of a cluster is listed as the pieces between its commas |
| EndToEnd.CommaIsListedAsTwo | pkg/agent/db/sqlite.go:143-171 | an input: agent "a,b" is listed as a and b |
| EndToEnd.PluginOfListedAgent | pkg/agent/db/sqlite.go:126-139 | an input: the plugin look-up of an agent known only from a cluster is a query error |
| EndToEnd.ClusterPageCounts | frontend/src/components/tornjak-helper.tsx:87-98 | the clusters page counts pairs of a registered agent and an entry below it |
| Text.SplitInvertsJoin | pkg/agent/db/sqlite.go:162-166 | splitting undoes joining exactly when no piece holds the separator |
| Text.JoinAfterSplit | pkg/agent/db/sqlite.go:162-166 | joining the pieces of a text gives the text |
| Text.PartsOfJoin | frontend/src/components/entry-create-json.tsx:256-261 | a name list shown in a text field is read back exactly when it shows and its names are trimmed and comma-free |
| Text.TrimAround | frontend/src/components/entry-create.tsx:608-634 | spaces, tabs and line ends around a text are trimmed |
| Text.TrimNothing | frontend/src/components/entry-create.tsx:608-634 | a text of such characters alone is trimmed to nothing |
| Text.TrimKeeps | frontend/src/components/entry-create.tsx:608-634 | a text that begins and ends with a printable character other than the space is left alone |
| Text.PartsOfSpaced | frontend/src/components/entry-create-json.tsx:331-336 | names typed with a comma and a space between them are read as those names |
| Spiffe.PrintAfterParse | frontend/src/components/entry-create.tsx:448-459 | what parses is canonical, valid and prints to the same text |
| Spiffe.ParseAfterPrint | frontend/src/components/spiffe-helper.tsx:36-68 | printing and parsing give a pair back exactly when it is canonical |
| Spiffe.PrintExactly | frontend/src/components/spiffe-helper.tsx:36-68 | what an ID prints as, character by character: its parts after the scheme exactly with one slash between them and none in front |
| Spiffe.ParseAccepts | frontend/src/components/entry-create.tsx:448-459 | which texts are accepted |
| Spiffe.PrintIsInjective | frontend/src/components/spiffe-helper.tsx:36-68 | valid IDs with slash-free trust domains print differently |
| Spiffe.PrintWithSlashIsAmbiguous | frontend/src/components/spiffe-helper.tsx:36-47 | a valid ID with a slash-free trust domain shares its text with another valid one exactly when its path holds more than slashes |
| Spiffe.SlashExample | frontend/src/components/spiffe-helper.tsx:36-68 | an input: two valid IDs of one text |
| EntryForm.CreateEntry.OnChangeSpiffeId | frontend/src/components/entry-create.tsx:461-491 | the text is displayed, the stored parts are those of the ID it is (empty if it is none), the message complains of exactly the other texts, and the form stays in sync |
| EntryForm.CreateEntry.OnChangeParentId | frontend/src/components/entry-create.tsx:493-535 | the same for the parent, whose trust domain becomes the prefix offered; only choosing manual entry leaves the stored parts as they were; the form stays in sync |
| EntryForm.CreateEntry.OnChangeManualParentId | frontend/src/components/entry-create.tsx:537-568 | typed text replaces whatever parts were stored by those of the ID it is; the form stays in sync |
| EntryForm.CreateEntry.OnChangeSelectors | frontend/src/components/entry-create.tsx:437-441 | the lines of the text, joined with commas |
| EntryForm.CreateEntry.OnSubmit | frontend/src/components/entry-create.tsx:581-655 | accepted exactly with two IDs and type:value selectors; the selectors are then the trimmed pieces, lists typed with a comma and a space between the items are those lists and, for a form in sync, the IDs print to the displayed texts |
| EntryForm.CreateEntry.Session | frontend/src/components/entry-create.tsx:395-645 | any events and then a submission through the handlers: the submitted IDs print to the displayed texts, the lists are those of the fields |
| EntryForm.PartsAreParsed | frontend/src/components/entry-create.tsx:448-459 | the parser finds exactly the parts of the ID that a text is |
| EntryForm.FormStaysInSync | frontend/src/components/entry-create.tsx:461-568 | after any events the stored parts are those of the displayed IDs, except while the manual option is displayed |
| EntryForm.SubmissionIsWhatIsDisplayed | frontend/src/components/entry-create.tsx:588-645 | after any events an accepted form submits IDs that print to the displayed texts |
| EntryForm.SubmittedSelectors | frontend/src/components/entry-create.tsx:608-626 | the submitted selectors are the trimmed pieces, one for one, each with a proper type and a value |
| EntryForm.AcceptedExactly | frontend/src/components/entry-create.tsx:588-626 | exactly which forms are accepted |
| EntryForm.RefusedFor | frontend/src/components/entry-create.tsx:588-626 | for what a form is refused, in the order of the checks |
| EntryForm.TypedIsSubmitted | frontend/src/components/entry-create.tsx:608-634 | selectors typed line by line and names typed with commas are submitted as those lists |
| EntryForm.LinesBecomeCommas | frontend/src/components/entry-create.tsx:437-441 | the selector field's lines become comma-separated pieces |
| EntryForm.ManualEntryLeavesStaleParent | frontend/src/components/entry-create.tsx:504-511 | manual entry leaves the former parent's parts in place, and such a form is refused |
| ParentOptions.PrepareParentIdAgentsList | frontend/src/components/entry-create.tsx:252-292 | the options in order: manual entry, the server, then each agent with its entries; a second list without manual entry |
| ParentOptions.ServerOption | frontend/src/components/entry-create.tsx:256-260 | the second option is the server's ID and parses to it |
| ParentOptions.OptionAt | frontend/src/components/entry-create.tsx:264-285 | at which position each agent's id and each of its entries' ids is offered |
| ParentOptions.AgentOption | frontend/src/components/entry-create.tsx:264-285 | likewise for an agent without entries |
| ParentOptions.OffersExactlyValidIds | frontend/src/components/entry-create.tsx:268-285 | beyond the two fixed options exactly the ids that count for some agent are offered |
| JsonEditor.SelectorsRoundTrip | frontend/src/components/entry-create-json.tsx:251-255 | selectors come back from the text field exactly when each survives (or is empty in both parts) |
| JsonEditor.PaddedLinesAreRead | frontend/src/components/entry-create-json.tsx:319-330 | selectors on lines of their own are read as they are, whatever spaces, tabs or carriage returns surround them |
| JsonEditor.ValidIdIsShown | frontend/src/components/entry-create-json.tsx:228-250 | a loaded valid ID is shown as it prints |
| JsonEditor.DisplayIdIs | frontend/src/components/entry-create-json.tsx:171-177 | an uploaded entry is listed under its ID if that is valid, else under its path |
| JsonEditor.CreateEntryJson.SetSelectedEntriesIds | frontend/src/components/entry-create-json.tsx:208-282 | no entry changes; the loaded fields can be applied exactly when the entry has the mandatory parts, and applying them unedited changes nothing exactly under the stated condition |
| JsonEditor.CreateEntryJson.ApplyEditToEntry | frontend/src/components/entry-create-json.tsx:284-389 | false and no change exactly when a mandatory field is missing, else only the selected entry and its displayed id change and the fields are cleared; names typed with a comma and a space between them are those names |
| JsonEditor.EditedIsSame | frontend/src/components/entry-create-json.tsx:312-368 | an unedited entry is written back unchanged exactly under the stated condition |
| JsonEditor.CreateEntryJson.LoadThenApply | frontend/src/components/entry-create-json.tsx:208-389 | loading and applying is the identity on the whole upload exactly under that condition, and never touches another entry |
| JsonEditor.EditLandsInItsField | frontend/src/components/entry-create-json.tsx:312-368 | editing any one field and applying is possible and changes that field as meant, and nothing else, exactly when the entry meant is complete and fits the text fields and the DNS names are not emptied |
| JsonEditor.CreateEntryJson.EditThenApply | frontend/src/components/entry-create-json.tsx:208-471 | the same through the handlers, for the whole upload |
| JsonEditor.ClearedDnsNamesStay | frontend/src/components/entry-create-json.tsx:360-362 | emptying the DNS names field and applying leaves the whole entry as it was |
| Bundles.HintRoundTrip | pkg/agent/spirecrd/helpers.go:188-216 | a refresh hint survives exactly up to 9223372036 seconds either way |
| Bundles.X509AuthoritiesFromAPI | pkg/agent/spirecrd/helpers.go:222-235 | the parsed certificates in order, or the first error |
| Bundles.CertificatesExact | pkg/agent/spirecrd/helpers.go:222-241 | success exactly when every certificate parses |
| Bundles.X509AuthoritiesToAPI | pkg/agent/spirecrd/helpers.go:245-267 | the raw data in order, exactly when none is missing |
| Bundles.JwtAuthoritiesFromAPI | pkg/agent/spirecrd/helpers.go:271-284 | the map built by the loop, or the first error |
| Bundles.JwtsExact | pkg/agent/spirecrd/helpers.go:271-297 | success exactly when every key has an id and parses; the last key of an id wins |
| Bundles.JwtAuthoritiesToAPI | pkg/agent/spirecrd/helpers.go:301-330 | one key per id, in any map order, exactly when every key has an id and marshals |
| Bundles.BundleFromExact | pkg/agent/spirecrd/helpers.go:162-192 | a bundle is accepted exactly when every part can be read, and holds part by part what was read; the first thing wrong is reported |
| Bundles.BundleFromAPI | pkg/agent/spirecrd/helpers.go:162-192 | nil to nil; else accepted exactly when every part can be read, with the last key of an id and the hint wrapped to int64, or the first thing wrong |
| Bundles.BundleToAPI | pkg/agent/spirecrd/helpers.go:196-218 | success exactly for a convertible bundle with its API form; which error otherwise |
| Bundles.BundleRoundTrip | pkg/agent/spirecrd/helpers.go:162-218 | in and out keeps trust domain, certificates and sequence number, one key per id (the last, expiry dropped), and the hint exactly within its range |
| Bundles.ConvertedIsConvertible | pkg/agent/spirecrd/helpers.go:196-218 | what came from the API can be converted back exactly when each key it keeps can be marshalled, which not every key that parses can |
| Bundles.FederationRelationshipFromAPI | pkg/agent/spirecrd/helpers.go:70-118 | the same for the conversion itself |
| Bundles.FederationRelationshipToAPI | pkg/agent/spirecrd/helpers.go:122-158 | success exactly under the stated checks, with the API form; which error otherwise |
| Bundles.AcceptedIsConvertible | pkg/agent/spirecrd/helpers.go:122-158 | an accepted relationship can be converted back exactly when the keys its bundle keeps can be marshalled |
| Bundles.FederationFromExact | pkg/agent/spirecrd/helpers.go:70-118 | a relationship is accepted exactly when trust domain, URL, bundle and profile are, and keeps them; the first thing wrong is reported |
| Bundles.FederationRoundTrip | pkg/agent/spirecrd/helpers.go:70-158 | in and out keeps the URL, the profile and the bundle as above |
| Rbac.ValidateInitParameters | pkg/agent/authorization/rbac.go:32-52 | no error exactly for a valid mapping, in any map order; an error names something really wrong |
| Rbac.NewRBACAuthorizer | pkg/agent/authorization/rbac.go:54-64 | an authorizer exactly for a valid mapping |
| Rbac.NewAuthorizer | api/agent/config.go:172-199 | accepted exactly when every last block is valid; the mapping answers each query as the last block |
| Rbac.StaticTable | pkg/agent/authorization/rbac.go:14-30 | the static table method by method |
| Rbac.FurtherPiecesAreIgnored | api/agent/config.go:183-186 | a block whose name has more pieces is for the first two |
| Rbac.ValidExactlyWhenAccepted | api/agent/config.go:183-199 | validating the folded mapping is validating the last block of each path and method |
| Rbac.OverwrittenAreNotValidated | api/agent/config.go:183-199 | a configuration is accepted exactly when every block that no later block overwrites is valid |
| Rbac.OverwrittenBlockIsAccepted | api/agent/config.go:183-199 | an input for any API: a block with an undeclared role is refused alone and accepted once overwritten |
| Rbac.OverwrittenExample | api/agent/config.go:183-199 | an input: two blocks for GET /api/v1/tornjak/agents |
| Rbac.GrantsExactly | pkg/agent/authorization/rbac.go:78-90 | the scan grants exactly when some allowed role is empty or held |
| Rbac.AllowedExactly | pkg/agent/authorization/rbac.go:66-105 | a request is allowed exactly when authenticated and the last block lists the empty role or one of the user's; else it is refused for the authentication error, or as unauthorized |
| Rbac.AllowedIsDeclared | pkg/agent/authorization/rbac.go:32-52 | what is allowed is in the static table, through a declared role |
| Rbac.MoreRolesKeepAccess | pkg/agent/authorization/rbac.go:66-91 | a user with at least the roles of another has at least its access |

## Left out

- HTTP handlers, routing, TLS, gRPC and Kubernetes calls, HCL decoding and authentication: decoded values are inputs.
- The SQL engine: each statement has its relational meaning. The doubled bound values of the metadata query are read as one IN list.
- Error texts: an error is its kind (and, after a rollback, whether the rollback worked).
- What a connection does with a transaction whose rollback failed: the partial work simply stays in the tables.
- X.509, PKIX and SPIFFE ID parsing, URL validation and bundle marshalling: functions with stated assumptions; the conversion to and from Kubernetes objects.
- `getChildEntries` of spiffe-helper.tsx, which indexes an array by a string and so always yields no agent entries.
- React rendering, toasts, file reading, expiry display, recommended selector lists, and early returns of the parent list while server data is missing.
- The manager's server registry.
- Undefined elements inside the agent and entry lists, null selectors in uploaded entries, and UTF-16 surrogates (characters are Unicode scalars).
- EntryForm.CreateEntry.OnSubmit: the TTL, expiry, admin and downstream fields are passed on unchanged by the source and are not part of the form modelled here.
- SpiffeHelper.WorkloadEntry: the row leaves out the entry's id, admin flag and expiry texts, which the source copies or formats without further logic.
- EndToEnd.RowShowsRegistry: speaks of the answer to the metadata query alone. The details page also writes the selector listing, which carries no clusters, into the same state (frontend/src/components/dashboard/dashboard-details-render.js:47-51); which of the two answers arrives last is not modelled.
- JsonEditor.CreateEntryJson.EditThenApply: not a handler of the source but the two handlers called in turn around one field change; uploading a second file while an entry is being edited is not modelled.
- Rbac.NewAuthorizer: an APIv1 name without a space crashes the source; such configurations are excluded, and so is a request without user info.
- JsonEditor.CreateEntryJson.LoadThenApply: not a handler of the source but the two handlers called in turn.
