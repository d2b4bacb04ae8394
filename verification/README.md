# Verification of modusgraph's core

A Dafny model of the parts of modusgraph whose correctness is hard to see from the code, with proofs of
what they are for. `dafny verify dfyconfig.toml` checks all of it.

- **The typed query builder as a compiler.** `Filter`, `OrGroup`, `WhereEdge` and `filter.Builder` paste
  together text with `$N` placeholders. `Placeholders` proves that the renumbering scan keeps every
  placeholder bound to its own parameter, character by character. `FilterGrammar` gives a lexer and a
  precedence parser for the filter language, and `FilterJoin`, `FilterScopes`, `FilterBuilder` and
  `EdgePlan` prove that the generated text, resolved and parsed, is exactly the intended tree, for any
  nesting. `EdgeSemantics` runs the three-block `WhereEdge` request on an arbitrary graph and compares it
  with a semi-join. `TypedQuery` holds the builder object whose methods change its fields. `Paging` is the
  `IterNodes` loop.
- **`GetAndDelete`.** `ConsumeSpec` is one atomic "remove and return". `ConsumeRemote` (optimistic
  transactions with bounded retry) and `ConsumeEmbedded` (a mutex over an engine that applies every
  mutation at once) are step relations over any number of callers and other writers, failing commits and
  lost replies included. For each it is proved exactly which runs refine the atomic step, and that in every
  run, these or not, a node has one winner at most. `ConsumeRetries` finds the
  exact number of nodes from which contention alone can surface an abort. `ConsumeLoop` is the retry loop,
  and `ConsumeCalls` proves that a call of the protocol is a run of it.
- **The embedded engine.** `Zero` is the lease allocator with its 64-bit arithmetic, `ZeroRuns` its runs
  with crashes and restarts, `UniqueCheck` the `@unique` check, `EngineRuns` the versioned store they
  make together.
- **Structure-directed rewriting.** `KeyRemap` is the type-driven renaming of JSON keys and `RemapText` its
  dispatch on JSON text; `TextScan`, `UpsertQuery` and `Upsert` are the embedded upsert's rewriting of
  queries and mutations and its blank nodes.
- **Stateful pipelines.** `BlankNodes` (the loader's map under a read-write lock), `Batches` (its buffer
  over shared arrays), `ShadowVectors` (vectors beside text), `ConnPool` (the pool and `Txn`).

`Basics` and `Strconv` hold what several modules use. Code that updates fields, arrays or maps in place is
modelled by classes and loops, each tied by its contract to a function or relation that the lemmas are
about; concurrent code is a step relation whose runs are arbitrary interleavings.

## What the model assumes

- dgman and dgraph are not part of the repository. `Placeholders.Resolve` (placeholder substitution) and
  `FilterGrammar` (lexer, parser, evaluation) define what the code's comments state: AND binds tighter
  than OR, a `$` without digits is left alone, and an empty `@filter()` filters nothing. A parameter value
  is one piece of text that cannot act as syntax. A caller's fragment is a complete filter on its own and its placeholders have parameters;
  `Placeholders.StrayIsCaptured` shows what happens when they have not.
- The remote cluster aborts a commit exactly when the node was written after the transaction's snapshot. A
  commit that lands may still be reported to its caller as failed or aborted.
- Each call of the allocator is one atomic step, and a failed write of its record ends the run: the code
  raises the in-memory end before it writes (`zero.go:185`, `zero.go:198`), so going on after a failed
  write is outside the guarantee. Additions wrap at 64 bits; where the proofs need that none does, the
  condition is on values the caller can see.
- UIDs are not reused, a connection factory makes new connections, and an embedding provider that answers
  gives the same vector for the same text. In a batch, the last text for a node and predicate stays.

## What turned out not to hold

- The unique check rejects a legal batch when one unique predicate's name continues another's behind a
  `:`. `UniqueCheck.ExactIffNotNested` gives the exact condition.
- Key renaming skips predicates `uid` and `dgraph.type` even when the field has another JSON tag.
  `KeyRemap.CorrectIffRenamable` gives the exact condition; `KeyRemap.CollisionLosesAValue` shows a value
  lost to an undeclared key.
- An upsert variable can get the UID of a block that bears the variable's own name.
  `Upsert.VarGetsItsBlockIff` gives the exact condition. An unmatched reference becomes a blank node in
  JSON but stays as it is in an N-Quad (`Upsert.NQuadAgreesWithJsonIff`).
- In embedded mode `GetAndDelete` is not always an atomic take. An update between the read and the delete
  makes it return a record it did not remove (`ConsumeEmbedded.UpdateSlipsBetween`); a commit that fails
  after the delete, as when the engine is closed in between, loses the node
  (`ConsumeEmbedded.CommitFailureLosesNode`). `ConsumeEmbedded.RefinesIffUndisturbed` gives the exact
  condition over all runs. Only atomicity fails: in every run a node is returned by one call at most and
  the struct agrees with the result (`ConsumeEmbedded.CallersAgree`), and
  `ConsumeEmbedded.WhereNodesAre` says where each node is.
- Against a cluster, when a commit lands and its reply is lost, the node is consumed and no caller is told.
  A run refines the atomic take exactly when that does not happen (`ConsumeRemote.RefinesIffNoReplyLost`);
  there is one winner per node in every run.
- With more than ten matching nodes, and only then, contention alone can make `GetAndDelete` surface an
  abort (`ConsumeRetries.CanAbortIff`).
- Texts of nested structs, and of structs without a UID field, are stored and never embedded
  (`ShadowVectors.NestedTextHasNoVector`, `ShadowVectors.UidlessTextHasNoVector`), and a node listed twice
  can end with the wrong vector. `ShadowVectors.KeepsIffSettled` says exactly which batches keep text and
  vectors in agreement, `ShadowVectors.OncePerNodeIffOthersUntouched` and
  `ShadowVectors.RepeatsIffNoClash` in terms of the batch alone.
- Opens without a lease in between raise the persisted UID end up to the fiftieth and no further
  (`Zero.EndsRiseIff`): at the fifty-first it wraps around, and UIDs are handed out again
  (`Zero.WrappedLeaseFallsBack`).
- The loop of `nextUIDs` does not always return: near the end of the 64-bit range its leases come to change
  nothing. `Zero.LoopReturnsIff` gives the exact condition, and `Zero.HugeRequestHangs` a request that
  never returns on a fresh allocator.
- Connections given back after the pool was closed stay open in it (`ConnPool.LateReturnsStayOpenIff`).
- An N-Quad id that is exactly "uid(" makes the upsert panic (`Upsert.SubstituteInNQuad`).

## Model

| member | source | states |
|---|---|---|
| Strconv.AtoiOfItoa | typed/query.go:684-685 | A number written by Itoa is read back by Atoi as itself, up to the largest int; formatting is therefore injective. |
| Strconv.AtoiIsDecimal | typed/query.go:684 | A digit string denotes its decimal value, cut off at 2^63 - 1. |
| Placeholders.SkipDigits | typed/query.go:676-679 | Stops at the end of the longest run of digits, so an ordinal is never cut short. |
| Placeholders.ShiftPlaceholders | typed/query.go:665-689 | The one-pass scan rewrites the text unit by unit: each `$` with its whole run of digits gets the raised ordinal, everything else is copied, and a zero shift changes nothing. |
| Placeholders.ShiftKeepsBinding | typed/query.go:660-689 | A fragment shifted past the parameters in front of it resolves to what it resolved to alone, whatever parameters follow its own. |
| Placeholders.StrayIsCaptured | typed/query.go:660-689 | Conversely, a fragment with a placeholder outside its own parameters is captured by a neighbour's parameter in some context. |
| Placeholders.ShiftTwice | typed/query.go:665-689 | Shifting by a and then by b is shifting by a + b, so nested scopes renumber consistently. |
| Placeholders.ShiftInRange | typed/query.go:665-689 | Shifting by d a text whose placeholders lie in 1..m puts them in range of d + m parameters. |
| Placeholders.ResolveAppend | typed/query.go:140-149 | Resolution distributes over concatenation when the boundary cannot lengthen a placeholder. |
| FilterGrammar.LexAppend | typed/query.go:131-135 | Text that lexes alone gives the same tokens in front of anything that ends a word. |
| FilterGrammar.OrInContext | typed/query.go:131-135 | A filter that parses alone parses the same in front of anything that cannot continue it, and leaves exactly that over. |
| FilterGrammar.GroupIsOperand | typed/query.go:131-135 | A filter in parentheses is a single operand, whatever operators it uses and whatever follows. |
| FilterJoin.JoinReads | typed/query.go:148-149 | Operands joined with " AND " or " OR " read back as exactly their conjunction or disjunction. |
| FilterJoin.AndBindsTighter | typed/query.go:131-135 | Without parentheses AND takes its operands before OR on either side, which is why joined fragments stand in parentheses. |
| FilterScopes.JoinBinds | typed/query.go:136-150 | Resolving the joined text against the concatenated parameters equals joining the fragments, each resolved against its own. |
| FilterScopes.JoinedFragReads | typed/query.go:136-150 | The combined fragment reads as the conjunction (or disjunction) of the trees of the fragments and keeps its placeholders in range. |
| FilterScopes.OrGroupReads | typed/query.go:167-183 | The group OrGroup adds reads as the OR of the meanings of its non-empty sub-scopes; if all are empty nothing is added. |
| FilterScopes.ScopeReads | typed/query.go:120-183 | For any nesting of Filter and OrGroup calls the combined text and parameters read as exactly the AND of the fragments and the OR groups; a scope with nothing in it gives no filter. |
| FilterScopes.EvalMeaning | typed/query.go:161-183 | Evaluating that tree at a node is selecting by the documented meaning of the calls, empty scopes dropping out. |
| FilterScopes.ScopeSelects | typed/query.go:120-183 | At every node the parsed filter selects exactly what the history of calls means. |
| TypedQuery.CombineFragments | typed/query.go:136-150 | The loop over fragments computes the combination whose reading is proved: empty fragments skipped, each renumbered by the parameters before it. |
| TypedQuery.Query.AddFilter | typed/query.go:108-129 | Appends one fragment (an empty one is ignored), leaves edges and root alone, and re-pushes the whole combination onto the underlying query. |
| TypedQuery.Query.CombinedFilter | typed/query.go:157-159 | Reads the fragments back as one combination and changes nothing. |
| TypedQuery.Query.OrGroup | typed/query.go:167-183 | Records the scopes of the subs as they were at the call; the filters grow by exactly the OR group of their combinations, or not at all. |
| TypedQuery.Query.WhereEdge | typed/query.go:268-271 | Appends one edge constraint and touches nothing else. |
| TypedQuery.Query.Uid | typed/query.go:421-426 | Roots the query at uid(...) of the given UID and touches nothing else. |
| TypedQuery.Query.EdgeMatchBody | typed/query.go:643-658 | The loop over constraints produces the match body that reads back field by field. |
| TypedQuery.Query.EdgeBlocks | typed/query.go:573-587 | Builds the three-block request from the accumulated filters, which it leaves alone, so rebuilding it for every page gives the same request. |
| TypedQuery.PushedFilterMeaning | typed/query.go:108-183 | What the underlying query is filtered by, after any Filter or OrGroup call and until a WhereEdge terminal pushes its own filter, selects at every node what the calls made so far mean. |
| EdgePlan.BodyBinds | typed/query.go:643-658 | In the match body every target filter resolves as it does alone. |
| EdgePlan.BodyReadsBack | typed/query.go:643-658 | The match body reads back as one field per constraint, in order, with its own predicate and exactly its target filter. |
| EdgePlan.AliasesDistinct | typed/query.go:636-658 | No two fields share an alias, so constraints on one predicate do not collide. |
| EdgeSemantics.DataFilterReads | typed/query.go:573-587 | The data block's filter is the user's filter, kept whole, and membership in the bound variable. |
| EdgeSemantics.VarBlockIsSemiJoin | typed/query.go:593-602 | The var block binds exactly the roots with, for every constraint, an edge to a satisfying target. |
| EdgeSemantics.PlanIsSemiJoin | typed/query.go:531-616 | On any graph the data block returns exactly the roots, in the caller's order, that pass the user filter and every constraint, and the count block, run from the root it names, their number. |
| FilterBuilder.Builder.Param | typed/filter/filter.go:67-70 | A value gets the number of its place in the parameter list. |
| FilterBuilder.Builder.EqGroup | typed/filter/filter.go:72-108 | Adds one OR group over all its terms, numbering their values in order; without terms it does nothing. |
| FilterBuilder.Builder.RequiredEq | typed/filter/filter.go:110-113 | Adds one required term as a group of its own. |
| FilterBuilder.Builder.AnyOfText | typed/filter/fulltext.go:10-17 | Adds one full-text term unless it is empty. |
| FilterBuilder.Builder.AllOfText | typed/filter/fulltext.go:19-26 | Adds one full-text term unless it is empty. |
| FilterBuilder.Builder.Build | typed/filter/filter.go:115-123 | Returns the text and parameters of the clauses added so far. |
| FilterBuilder.BuiltReads | typed/filter/filter.go:58-123 | The text reads as exactly the AND of the clauses, each group the OR of its terms, NOT covering one term, each placeholder bound to its own term's value, although single terms are not parenthesized. |
| Paging.IterNodes | typed/query.go:367-412 | Yields exactly the caller's window, or its prefix if the consumer stops or a page fails, with the exact number of page queries in each case. |
| Paging.WindowAt | typed/query.go:367-381 | The caller's window holds row offset + i at place i, for every i below the limit if there is one, as far as there are rows. |
| Paging.PageOfWindow | typed/query.go:381-411 | Every page is the next slice of the window and is recognised as the last one exactly when it is. |
| Paging.QueriesAre | typed/query.go:353-412 | The number of queries is the smallest whose pages of 50 cover the limit when the limit is reached, and one more than the full pages otherwise. |
| ConsumeSpec.StepConserves | client.go:849-858 | After any step every node that ever existed is stored, removed by a writer, or returned by exactly one call. |
| ConsumeSpec.RunConserves | client.go:849-858 | The same over every run of the atomic specification. |
| ConsumeRemote.StepRefines | client.go:903-953 | Each step of the optimistic protocol, a commit with a lost reply excepted, is one atomic take, one write, or invisible. |
| ConsumeRemote.RefinesIffNoReplyLost | client.go:898-953 | Over every interleaving of callers and other writers the protocol is a run of the atomic take, with (false, nil) only when nothing matched at the caller's read, if and only if no commit lands without its caller being told. |
| ConsumeRemote.EveryRunAccounts | client.go:849-953 | Over every run, lost replies included, each node that ever existed is stored, removed by a writer, deleted without a reply, or returned by exactly one call. |
| ConsumeRemote.CallersAgree | client.go:849-953 | In every run two calls never report the same node; a hit's struct holds the removed record and a miss leaves it zero. |
| ConsumeRemote.TookEffectAt | client.go:898-953 | Behind every hit there is one step of the call at which the node was stored with exactly that record and is removed; behind every miss one at which no stored node had the key. |
| ConsumeRetries.StepCharges | client.go:898-953 | Each abort of a call is charged to a node of its key that is gone, all of them distinct. |
| ConsumeRetries.AttemptsBounded | client.go:898-953 | With k matching nodes and no other writers on the key a call makes at most k + 1 attempts, and for k up to 10 never surfaces an abort. |
| ConsumeRetries.LostToOthers | client.go:942-953 | Every node a call lost was returned by a different call, or its delete landed without a reply. |
| ConsumeRetries.CanAbortIff | client.go:898-953 | Contention alone can surface an abort on k matching nodes if and only if k is more than ten. |
| ConsumeEmbedded.NextKeepsInv | client.go:886-954 | Callers exclude each other in the critical section, and a node that was read is stored or was removed by another writer. |
| ConsumeEmbedded.RefinesIffUndisturbed | client.go:886-954 | Over every run of any callers and other writers, failing commits included: some run of the atomic take explains it if and only if between each read and its delete the others leave the node as it was or remove it, and the commit succeeds exactly when they did not remove it. |
| ConsumeEmbedded.AmongInsertersIffNoCommitFails | engine.go:567-586 | When other writers only insert, a run refines the atomic take if and only if no commit fails after its delete. |
| ConsumeEmbedded.CallersAgree | client.go:886-954 | In every run, disturbed or not and commits failing or not, there is one winner per node, the struct is filled on a hit and zero on a miss. |
| ConsumeEmbedded.WhereNodesAre | client.go:886-954 | At any point of any run each node that ever existed is stored, removed by another writer, or taken out by exactly one delete, whose commit is pending, has failed or has succeeded; its deleter alone returns it, exactly when the commit has succeeded. |
| ConsumeEmbedded.MissSawNothing | client.go:903-923 | Behind every miss there is a step at which no stored node had the key. |
| ConsumeEmbedded.AbortSurfacesIff | client.go:939-949 | At any point of any run a call has surfaced an abort exactly when eleven of its commits have failed with one. |
| ConsumeEmbedded.CommitFailureLosesNode | engine.go:567-586 | A concrete run in which the commit fails after the delete: the node is neither stored, nor removed by others, nor returned by any call. |
| ConsumeEmbedded.UpdateSlipsBetween | client.go:886-954 | A concrete run with an update between read and delete that returns a record it did not remove, and that no run of the atomic take explains. |
| ConsumeLoop.GetAndDelete | client.go:898-967 | The loop settles on the first attempt that is not an abort and on the eleventh whatever it is; it reports loaded exactly when that attempt's delete and commit succeeded, else the first error, and a miss zeroes the struct even if an earlier attempt had filled it. |
| ConsumeLoop.IsAbortedIff | client.go:956-967 | An error reads as an abort exactly when it wraps the sentinel or its message has "aborted" somewhere, in any case. |
| ConsumeCalls.CallRunsTheLoop | client.go:898-953 | For every finished call of a run of the cluster there are answers, each given by a step of the run, on which the loop can only make the attempts the call made and report what it returned. |
| Zero.LeaseCoversIff | zero.go:180-204 | A lease leaves a full quota ahead exactly when its sum does not wrap around. |
| Zero.LeaseAtMostDoubles | zero.go:180-204 | A lease taken when the range is used up ends between min + 10000 and 2 * min + 10000. |
| Zero.LoopReturnsIff | zero.go:114-118 | Over all 64-bit states the loop of nextUIDs returns, after some number of leases, if and only if a UID is free or the start plus a quota does not wrap around. |
| Zero.RoundsAre | zero.go:114-118 | When it returns from a used-up range it takes the least number n of leases with end < n * (2^64 - quota - start). |
| Zero.OneLeaseIff | zero.go:114-118 | One lease is enough exactly when the sum of start, end and quota does not wrap around. |
| Zero.HugeRequestHangs | zero.go:99-118 | On a fresh allocator a plain request for 2^64 - 3 UIDs never returns. |
| Zero.OpensDouble | zero.go:48-80 | After k opens without a lease in between the persisted UID end is 10002 * 2^k - 10000. |
| Zero.DoublingFits | zero.go:48-80 | That number fits in 64 bits exactly for k up to 50. |
| Zero.FirstOpen | zero.go:48-80 | A first open hands out from UID 2 and timestamp 3, with 10000 of each leased and one record written per lease. |
| Zero.OpenResumes | zero.go:48-80 | A later open resumes exactly at the persisted ends and leases behind them. |
| Zero.NumbersAreConsecutive | zero.go:82-130 | Timestamps and namespaces are handed out one by one, without gaps. |
| Zero.EndsRiseIff | zero.go:48-80 | Over k opens without a lease in between each open raises the persisted UID end if and only if k is at most 50. |
| Zero.WrappedLeaseFallsBack | zero.go:193-204 | Past the fiftieth open the persisted end falls back and UIDs are handed out again. |
| Zero.PlainRange | zero.go:99-122 | A plain request for n UIDs, none included, gets the next n and moves the start past them. |
| Zero.BumpCovers | zero.go:101-108 | A bump hands out everything up to the requested UID and moves past it. |
| Zero.ZeroServer.constructor | zero.go:48-80 | Opening resumes from the persisted ends and leaves full quotas leased and persisted. |
| Zero.ZeroServer.LeaseTs | zero.go:180-191 | Raises and persists the timestamp end only when less than a quota is left. |
| Zero.ZeroServer.LeaseUids | zero.go:193-204 | Raises and persists the UID end only when less than a quota is left. |
| Zero.ZeroServer.NextTs | zero.go:82-93 | Hands out the next timestamp, extending the lease first when it is used up. |
| Zero.ZeroServer.NextUids | zero.go:99-122 | Reserves the range, plain or bumped, and leases until a UID is free, wherever that loop returns at all. |
| Zero.ZeroServer.NextNamespace | zero.go:124-130 | Persists the new namespace ID before it is returned. |
| ZeroRuns.ExecOk | zero.go:82-130 | Every operation keeps the leases in order, whatever prefix of its writes a crash leaves never lowers a restart, and the answer lies between the old start and the new one. |
| ZeroRuns.NextKeepsInv | zero.go:48-130 | Every step, crashes between writes included, keeps all that was handed out below what a restart resumes from. |
| ZeroRuns.AllocationIsCrashSafe | zero.go:48-130 | Over every run with crashes and restarts UID ranges are disjoint and increasing, timestamps and namespace IDs strictly increase, and a running process has its lease on disk. |
| ZeroRuns.HandedOutIsLeased | zero.go:82-130 | Whatever is handed out lies below the persisted end by the time the caller has it. |
| UniqueCheck.VerifyUniqueConstraints | engine.go:447-528 | Accepts exactly when no edge clashes and every store query is answered; else it stops at the first edge that does not pass, naming a subject in its way or reporting the failed query. |
| UniqueCheck.CheckIsExact | engine.go:459-528 | Unless names nest behind a `:`, an edge clashes exactly when an earlier edge sets the same pair on another subject or another subject holds it before the batch. |
| UniqueCheck.StoreClashIff | engine.go:487-520 | In a store that satisfies the constraint the row the check looks at decides exactly whether another subject holds the value. |
| UniqueCheck.ExactIffNotNested | engine.go:487 | The streaming check is exact on all batches and stores exactly when no unique name continues another behind a `:`. |
| UniqueCheck.PlainNamesAreNotNested | engine.go:487 | Names without `:` are never in the way. |
| UniqueCheck.AcceptedBatchKeepsUnique | engine.go:395-444 | From a store without shared unique values an accepted batch leads to one, in whatever order its sets and deletes are applied. |
| EngineRuns.NextKeepsInv | engine.go:395-444 | Each mutation, query, refused batch and restart keeps leases, commit order and the unique constraint. |
| EngineRuns.CommitsAreOrdered | engine.go:412-443 | Start and commit timestamps increase through the log, and the next read covers every commit. |
| EngineRuns.UniqueAlways | engine.go:395-528 | Over every run the store satisfies the unique constraint, because the check reads a state that includes every earlier commit. |
| EngineRuns.RunIsSerial | engine.go:340-443 | Every run is a serial run of the same actions: a query sees exactly the mutations before it in lock order. |
| EngineRuns.SnapshotIsStable | zero.go:95-97 | A read timestamp names the same state at every later time. |
| KeyRemap.BuildPredicateToJsonMap | typed/multi_query.go:145-181 | The loop builds the renaming whose effect on each field is proved: first `predicate=` part, unnamed and reserved ones skipped. |
| KeyRemap.BuildFieldTypeMap | typed/multi_query.go:249-268 | The loop maps each JSON name to its field's type. |
| KeyRemap.MapsOfTaggedField | typed/multi_query.go:145-181 | For json:"name" or json:"name,options" with a "predicate=pred" part the renaming holds pred to name, unless pred is empty, the name, uid or dgraph.type, and the type map holds the name. |
| KeyRemap.UntaggedField | typed/multi_query.go:153-168 | Without such a part the field is stored under its name, options cut off. |
| KeyRemap.UnnamedFieldAddsNothing | typed/multi_query.go:153-160 | A field without a json tag, with json:"-" or with no name before its options is in neither map. |
| KeyRemap.GetElemType | typed/multi_query.go:272-277 | Strips every pointer, slice and array layer. |
| KeyRemap.RemapPredicateKeys | typed/multi_query.go:192-205 | The recursive walk ends on every JSON, also for recursive types, and returns one of the allowed results. |
| KeyRemap.RemapArray | typed/multi_query.go:209-220 | Every element is remapped at the element type, in place. |
| KeyRemap.RemapObject | typed/multi_query.go:224-245 | Every key is renamed, edge values are remapped at their field's type, and each new key holds the value of one of its sources, whatever order the map is visited in. |
| KeyRemap.KeyBecomesTagIff | typed/multi_query.go:145-181 | With distinct predicates a field's key becomes its tag exactly when the predicate is the tag or not reserved. |
| KeyRemap.RemapMakesTagEncoding | typed/multi_query.go:183-245 | For any possibly recursive types with distinct tags and predicates the walk turns the predicate-keyed JSON of every value into its tag-keyed JSON at every depth. |
| KeyRemap.CorrectIffRenamable | typed/multi_query.go:176-178 | It does so for all values exactly when no field stored under uid or dgraph.type has another tag. |
| KeyRemap.OtherValuesPass | typed/multi_query.go:224-245 | A value that is no edge stays as it is, and an undeclared key keeps its name, unless another key gets that name. |
| KeyRemap.KeysKeptIff | typed/multi_query.go:224-245 | An object of any keys gets exactly the renamed keys, and keeps their number exactly when the renaming is injective on them. |
| KeyRemap.CollisionLosesAValue | typed/multi_query.go:224-245 | A predicate key beside an undeclared key of the tag's name loses one of the two values, and either can be lost. |
| RemapText.FirstNonSpace | typed/multi_query.go:317-327 | Returns the first character that is not white space in the sense of section 2 of RFC 8259, and NUL if there is none. |
| RemapText.DispatchAgrees | typed/multi_query.go:197-204 | On every text of a JSON value by the grammar of RFC 8259 that character is `[` exactly for arrays and `{` exactly for objects. |
| RemapText.RemapBlock | typed/multi_query.go:192-245 | A block that starts like an array or object is remapped, or reported when it does not decode; any other text and any non-struct type passes through. |
| TextScan.PrintScan | embedded_client.go:244 | Cutting a text into matches and characters between them loses nothing. |
| TextScan.ScanPrintIff | embedded_client.go:300 | A list of matches and characters is the cut of its own text exactly when the matcher finds those matches there. |
| Upsert.SubstitutionKeepsTheRest | embedded_client.go:322-332 | Every uid(v) is resolved and all other text is kept. |
| Upsert.OneReference | embedded_client.go:322-332 | uid(v) becomes the UID found for v, or else the blank node _:uid(v). |
| Upsert.EveryTextIsPieces | embedded_client.go:300-332 | Every mutation text reads as text and references in exactly that way. |
| UpsertQuery.TransformUpsertQuery | embedded_client.go:249-270 | Every match becomes "uid", and block q_x is mapped to u_x for exactly the variables so matched. |
| UpsertQuery.DefMatches | embedded_client.go:244 | A written "v as uid", with any blanks, is matched whole whatever follows, and yields v. |
| UpsertQuery.VariableDefinition | embedded_client.go:244 | For any x of letters, digits and underscores and any blanks, "u_x as uid" is matched whole and yields u_x. |
| UpsertQuery.TransformMeans | embedded_client.go:244-270 | Of a query of text and definitions the text is kept, each definition becomes "uid", and the mapping stands for exactly the u_ variables written. |
| UpsertQuery.EveryQueryIsParts | embedded_client.go:244-270 | Every query reads as text and definitions in exactly that way. |
| Upsert.ExtractVarUids | embedded_client.go:273-297 | Each matched block gives its first UID to its variable; a missing body gives none and a malformed one an error. |
| Upsert.VarGetsItsBlockIff | embedded_client.go:273-297 | A defined variable gets the first UID of its own block, whatever the map order, exactly when no matched block bears the variable's name with another UID. |
| Upsert.UpsertResolves | embedded_client.go:83-130 | From response to mutation: each reference, defined by the query or not, becomes the first UID of the block that answers for it, else a blank node, all other text being kept. |
| Upsert.VariableFromResponse | embedded_client.go:83-130 | uid(u_x) becomes the UID of the first node of block q_x, or _:uid(u_x) if that block is missing or empty, when no block is called u_x. |
| Upsert.NumberNames | engine.go:380-389 | Every blank node gets a UID of its own from the range, and the "not enough uids" assertion never fires. |
| Upsert.AssignUids | engine.go:373-390 | The UIDs assigned were never handed out before. |
| Upsert.ReferencesDenote | embedded_client.go:322-332 | Two references denote one node exactly when they name one variable or both found the same UID; a matched one denotes the node found, an unmatched one a fresh node. |
| Upsert.SubstituteInNQuad | embedded_client.go:334-349 | Subject and object are looked up and replaced in place, and kept when nothing was found; it panics exactly on an id "uid(". |
| Upsert.SubstituteInNQuads | embedded_client.go:313-319 | One pass rewrites every N-Quad once, also one listed twice, or panics exactly when some id is "uid(". |
| Upsert.Mutation.SubstituteUidVars | embedded_client.go:303-320 | Both JSON texts are rewritten, and every set and deleted N-Quad unless some id makes it panic. |
| Upsert.StillAReferenceIff | embedded_client.go:334-349 | With UIDs of stored nodes, a rewritten id is still a reference exactly if its variable was not found. |
| Upsert.NQuadAgreesWithJsonIff | embedded_client.go:322-349 | N-Quads and JSON treat a reference alike exactly when its variable was found. |
| BlankNodes.NextKeepsInv | live.go:227-253 | Every step of the double-checked lookup, and every lease by others, keeps locks, map and pending calls consistent and never changes an entry. |
| BlankNodes.OneLeasePerKey | live.go:227-253 | Over every interleaving a key is leased at most one UID. |
| BlankNodes.CallsAgree | live.go:227-253 | Calls return the same UID exactly when they were asked for the same key. |
| BlankNodes.LeasedIsReturned | live.go:245-253 | A call that leased a UID returns it. |
| BlankNodes.EmptyHandedIffLeaseFailed | live.go:245-248 | A call ends without a UID exactly when its lease failed. |
| BlankNodes.StoreIsExclusive | live.go:236-252 | The map is written only while no other call holds either lock. |
| Batches.Append | live.go:183 | Appending to a slice, in place or into a larger array, leaves everything before the slice's end as it was. |
| Batches.Loader.Send | live.go:154-155 | A batch leaves the buffer's front; what was sent before reads as before. |
| Batches.Loader.Drain | live.go:148-157 | Empties the buffer into full batches of 1000 and one with what is left, without losing, reordering or overwriting anything. |
| Batches.ChunksAre | live.go:148-157 | Batch i holds elements 1000 i to 1000 (i + 1), the last one what is left. |
| Batches.Loader.Take | live.go:164-194 | A group goes in behind everything taken before, the buffer is emptied exactly when it is full, and no earlier batch changes although arrays are shared. |
| Batches.NameGroup | live.go:171-181 | Replaces the ids of a group, or stops at the first failing lookup. |
| Batches.ProcessFile | live.go:145-197 | The batches concatenate to the groups with their UIDs in order, each of 1 to 1000 elements; after a cancellation or a failing lookup they are the groups taken before it but for what was still buffered, the buffer being sent whenever it holds 100000. |
| ShadowVectors.InjectShadowVectors | embedding.go:326-436 | Going through the top-level structs only, the nested loops collect exactly the vectors to set and to delete, or stop with an error exactly when the provider refuses a text they ask it for. |
| ShadowVectors.Client.Process | mutate.go:111-141 | A write commits the texts of all structs, nested ones included, and the vectors together, or changes nothing when mutation, embedding or commit fails. |
| ShadowVectors.WrittenTextDecides | embedding.go:396-436 | The only text of a node and predicate, sent and embedded, decides what is stored whatever was: the text, and its vector exactly if it is non-empty and long enough; an empty text without omitempty clears both. |
| ShadowVectors.RefusesIff | embedding.go:416-419 | The provider is asked for exactly the texts that are to have a vector. |
| ShadowVectors.KeepsIffSettled | embedding.go:360-449 | A batch leads from every agreeing store to an agreeing one, in either order of its lists, if and only if it is settled at every node and predicate. |
| ShadowVectors.OncePerNodeIffOthersUntouched | embedding.go:360-405 | With each node once in the batch, at any depth, that is so if and only if nested structs and structs without a UID field set no tagged text. |
| ShadowVectors.RepeatsIffNoClash | embedding.go:407-436 | With UIDs everywhere and nothing nested, nodes repeated as they may be, it is so if and only if no two texts of one node and predicate are judged differently. |
| ShadowVectors.PlainBatchIsSettled | embedding.go:360-449 | Batches of distinct UIDs with nothing nested are settled. |
| ShadowVectors.PartialUpdateTouchesNothing | embedding.go:396-405 | A field left empty with omitempty moves neither text nor vector. |
| ShadowVectors.AlwaysAgrees | mutate.go:111-141 | Over any run of settled batches, failures included, a node has a vector exactly when its text is non-empty and at least threshold characters long, and it is the embedding of that text. |
| ShadowVectors.NestedTextHasNoVector | embedding.go:334-350 | A concrete write of a struct in a struct after which the nested text is stored without a vector. |
| ShadowVectors.UidlessTextHasNoVector | embedding.go:364-374 | The same for a struct without a UID field. |
| ShadowVectors.DuplicateUidsCanDisagree | embedding.go:360-449 | A concrete batch with one node twice that does not keep agreement. |
| ConnPool.ClientPool.Get | client.go:1184-1201 | Hands out the first idle connection if there is one, whatever the factory would do, else what the factory makes. |
| ConnPool.ClientPool.Put | client.go:1203-1212 | Pools the connection if there is room, else closes it. |
| ConnPool.ClientPool.Close | client.go:1214-1230 | Closes every idle connection and no other. |
| ConnPool.Transaction.constructor | txn.go:68-80 | Checks a connection out for the transaction, or records the failure. |
| ConnPool.Transaction.Commit | txn.go:165-172 | Returns the connection whether or not the commit succeeds; without a connection it does nothing. |
| ConnPool.Transaction.Discard | txn.go:177-184 | Returns the connection unless that was done before. |
| ConnPool.ConnectionsAreConserved | client.go:1184-1230 | Over every run each connection is in exactly one of pooled, checked out and closed, the pool holds no duplicates and no more than its size, and nothing closed comes back. |
| ConnPool.NothingIsWasted | client.go:1184-1230 | A connection is made only when none is idle, closed outside Close only when the pool is full, and Close leaves none idle. |
| ConnPool.IdleIsHandedOut | client.go:1184-1201 | Over every run a transaction or call that starts while a connection is idle gets it and no error; with none idle it gets what the factory makes. |
| ConnPool.ReturnedOnce | txn.go:165-196 | Whatever Commit and Discard calls are made, a transaction that got a connection returns it exactly once. |
| ConnPool.OneHolder | txn.go:68-80 | A connection checked out has exactly one holder. |
| ConnPool.LateReturnsStayOpenIff | client.go:1203-1230 | When after a Close everything still out is returned, the pool ends empty if and only if nothing was out at the Close or it has no room; else open connections stay in it. |

## Left out

- dgman, dgo, badger and dgraph's posting, worker and schema packages: replaced by an abstract store, an abstract evaluator and a persisted record.
- Order, After, Cascade, Vars, GroupBy and the raw query surface of the builder; a Cascade beyond the plan's own is outside the count property.
- A negative Offset, and a result that changes between the pages of IterNodes.
- MultiQuery.Add, validBlockName, parseNegation, parseEmbeddingTag, hasEmbeddingTag, retry.go, schema_cache.go and typed/search/merge.go: small functions with no property beyond their bodies.
- Fields without a JSON name of their own, and the escaping of JSON text: the remap is modelled on parsed JSON, and encoding/json's own rules decide those fields.
- RemapText.RemapBlock: only the block itself is text, since nested JSON of a block that decodes is well formed; escapes and repeated names in JSON objects are not spelled out.
- GetOrInsert: it rests on dgman's MutateOrGet, and the embedded upsert runs its query and its mutation under separate lock acquisitions, so no single-winner claim is made.
- A delete whose mutation reports an error after the engine has applied it: DeleteNode's errors count as failures before the delete.
- Zero.ZeroServer.NextUids: asks that its loop returns (the exact condition of LoopReturnsIff), since a call that never returns has no new state.
- Upsert.SubstituteInNQuads: an N-Quad listed twice together with a response whose UID is itself a reference is left out.
- Upsert.Mutation.SubstituteUidVars: likewise.
- Data races on the allocator's fields (LeaseUIDs does not take the engine lock): each call is one atomic step.
- DropAll: resetting the engine starts allocation over, so a run in the model ends there.
- UniqueCheck.AcceptedBatchKeepsUnique: values are single scalars per subject and predicate; schema changes that make a populated predicate unique are outside the run.
- EngineRuns.RunIsSerial: one namespace. The empty mutation that commitOrAbort runs in embedded mode is a Mutate step of no edges.
- The gathering of blank nodes from a mutation, and what the parser makes of an unresolved "uid(v)" in an N-Quad: they are dgraph's.
- Chunking and parsing of data files, progress reports and the consumer of the loader's channel.
- A write without an embedding provider, transaction-staged writes and GetOrInsert: they skip vector injection by design.
- ShadowVectors.AlwaysAgrees: a predicate has one threshold and one omitempty in all struct types; the store is transactional, which the embedded engine is not.
- gRPC dialing, URI parsing, client caching, the HTTP embedding provider, logging, the CLI and Go reflection itself.
