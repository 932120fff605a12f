# Verified models of the OpenSail orchestrator

A Dafny 4.11 project that models the stateful core of the orchestrator and its desktop sidecar and
proves what the code does over all inputs and all runs. `dafny verify dfyconfig.toml` checks everything.

What is modelled, module by module:

- `KeyLedgerSpec`, `KeyLedger`: the tree of budgeted LiteLLM keys. The table is a class whose methods change
  rows in place; the specification is a function over ledgers, and the results are about every run of it.
- `ThemeTables`, `ThemeMigration`: the plan that re-keys `themes` and `user_library_themes` from string ids to
  UUIDs, with its gates, constraint swap and rollback.
- `LeaseProtocol`, `ControllerDb`: leases with growing terms, intents fenced by them, any number of processes that
  acquire, record, reconcile and crash.
- `ReconcilePasses`, `Reconciler`: the reconciler against a cluster, pass by pass, each pass with its own term, its own
  moment of death and its own conflicts and errors.
- `DesktopBoot`, `DotEnv`: schema upgrades that commit statement by statement, boots that die anywhere, the reset
  of half-built schemas, the `.env` loader, the defaults and the signing key.
- `Binary64`, `SpendCaps`: create-time validation of spend caps kept in two places, with IEEE 754 rounding to
  nearest even written out over reals.
- `ConvergenceGuards`, `WorkflowSpec`, `WorkflowPayload`, `WorkflowHistory`, `WorkflowTables`: immutable workflow
  versions, the head pointer, what a payload writes, proposals, auto-apply and its budget and cooldown. Steps may read
  a stale newest version, as overlapping transactions can.
- `Utf8`, `Base64`, `SecretsAudit`: the base 64 detector, the audit of container variables, and the migration and
  gate it prepares.
- `Strings`, `Blocklist`: the e-mail domain blocklist.
- `TemplateSeed`: the idempotent upsert of contract templates.
- `Heartbeat`: run heartbeats, the sweep that expires quiet runs, and the retry counter.

Methods of classes carry the loops and updates of the source and are tied to specification functions or step
relations; the lemmas state what those mean over whole runs.

## Where the code and its documentation disagree

The models follow the code. Each point names the lemma that shows it.

- Settlement barrier: `finalize_settlement` does not look at children and its callers in the worker do not wait
  (`ReaperSettlesOverLiveChild`, `StepKeepsBarrierIff`); the barrier query reads direct children although it speaks of
  descendants (`BarrierQueryMissesGrandchild`, `ChildrenAnswerForDescendantsIff`).
- `cascade_revoke` stops at settling, reaped and pending keys (`CascadeRevokesAllIff`).
- The spend walk and the depth check are both capped at 32 keys, so a configured nesting limit of 32 or more loses
  spend (`ConservationIff`).
- Intent statuses are not final when passes overlap, because the status writes carry no guard
  (`LateWriteRevivesSuperseded`, `StepKeepsDecidedIff`). An effect can come after the lease was taken over; it does so
  exactly when the pass has not ended by then (`NoLateEffectsIff`).
- A restart is not resumed: acquiring the lease again raises the term, also for the same holder, and the old rows are
  superseded even when their call was made (`CrashLosesTheMark`). The outcome is kept exactly when the rows of a term are
  decided before the next acquisition (`ReacquiringKeepsOutcomeIff`).
- A reported conflict can reorder intents for one target; it does harm exactly when they ask for different things
  (`ConflictsKeepOutcomeIff`).
- Intents store a term but no lease name, so two leases can carry out or supersede each other's intents
  (`OtherLeaseMakesTheCall`, `OtherLeaseSupersedes`, `CallsAreByTheAuthorIff`).
- Desktop recovery covers the first migration only: a crash inside a later one, after any statement of it, is not
  recoverable (`RestartIff`, `BootAfterLateCrash`).
- `diff_budget_max` of zero or less means no limit (`SomeBoundIff`); the cooldown binds agent runs only
  (`PeopleSkipTheCooldown`); two overlapping creations are enough to exceed a budget (`BudgetBindsIff`), and any number
  can (`OverlapsBeatAnyBudget`).
- Applying a proposal mints new child ids and the ids are hashed, so the reuse of versions the documentation speaks
  of happens only without child rows (`AppliedReusesIff`). Generations are not unique under overlap
  (`NumberingIffNewestParent`).
- An auto-apply that fails half way, on a tier, an action id, a trigger config or a target it cannot read, leaves its
  partial rewrite committed under the old head. Writes that take no snapshot leave the head behind as well: an approval
  answer that rescopes the contract (`RescopingPartsTheHead`), schedulers that switch malformed triggers off, app
  releases that point actions at new rows, and the forced deletion of a destination (`StepKeepsHeadsLiveIff`,
  `RunKeepsHeadsLiveIff`).
- No code expires proposals; `approved`, `reverted` and `expired` are never written.
- Proposals written by an agent run without a user are never applied automatically (`AgentOnlyProposalsWait`).
- A cap with more digits than a float keeps is rejected by a second pass (`SecondPassRejects`, `IdempotentIff`); fifteen
  digits are safe and sixteen are not (`DigitBoundIff`).
- A short `SECRET_KEY` in the environment stays there although a better key was computed (`KeyIsLongIff`).
- The audit's plan is not always what the migration moves (`PlanIsWhatMovesIff`); the migrations it calls 0057 and
  0058 are numbered 0061 and 0062 in the tree.
- Surviving two lost heartbeats takes a spacing of exactly 30 seconds or less, which a loop that sleeps 30 seconds
  and then writes does not keep (`LossesTolerated`). Each lost worker counts two retries (`CeilingAllowsTwoRetries`), and
  a run that finishes between a sweep's selection and its update is overwritten (`FinishSurvivesIff`).

## Model

| member | source | states |
|---|---|---|
| `KeyLedgerSpec.EveryRunConserves` | orchestrator/app/services/litellm_keys.py:282-319 | over every run of mint, spend, settle, fail and revoke with a nesting limit below 32, each key's `spent_usd` is the sum of the charges in its subtree |
| `KeyLedgerSpec.ConservationIff` | orchestrator/app/services/litellm_keys.py:108-121 | that conservation law holds in every run if and only if `NESTED_MAX_DEPTH` is below the 32-key walk limit |
| `KeyLedgerSpec.TallTowerLosesSpend` | orchestrator/app/services/litellm_keys.py:297-318 | from 32 on, a charge on the top of a tower of 33 keys never reaches the root |
| `KeyLedgerSpec.EveryRunShrinksBudgets` | orchestrator/app/services/apps/key_lifecycle.py:106-132 | in every run, whatever the nesting limit, no key has a larger budget than any key above it |
| `KeyLedgerSpec.MintGoesThroughIff` | orchestrator/app/services/apps/key_lifecycle.py:95-140 | a mint goes through exactly when tier and parent agree, the id is new and a nested one has an active parent, not too deep, with spent plus new budget within its own; the new key starts active and unspent |
| `KeyLedgerSpec.NestedMintsFitIff` | orchestrator/app/services/litellm_keys.py:124-231 | in every run each nested mint fits into what the charges in its parent's subtree have left, if and only if `NESTED_MAX_DEPTH` is below 32 |
| `KeyLedgerSpec.StateAfter` | orchestrator/app/services/litellm_keys.py:327-433 | the state each operation leaves each key in, state by state |
| `KeyLedgerSpec.AncestorsSpendMore` | orchestrator/app/services/litellm_keys.py:297-318 | an ancestor's account covers its descendants' accounts |
| `KeyLedgerSpec.StepsAreLegal` | orchestrator/app/services/apps/key_lifecycle.py:80-92 | every operation moves a key along the transition table only, keeps its place, tier and budget, never lowers its spend, and terminal states absorb |
| `KeyLedgerSpec.StepKeepsBarrierIff` | orchestrator/app/services/litellm_keys.py:353-368 | a step keeps "no settled key over a live child" exactly when it is not a settling one or the children were terminal |
| `KeyLedgerSpec.GatedRunsKeepBarrier` | orchestrator/app/services/litellm_keys.py:436-449 | with the documented protocol (barrier query, then finalize) no reachable ledger breaks the settlement barrier |
| `KeyLedgerSpec.ReaperSettlesOverLiveChild` | orchestrator/app/worker.py:2488-2570 | the callers in the worker do not wait: a session key with a live nested key is settled |
| `KeyLedgerSpec.ChildrenAnswerForDescendantsIff` | orchestrator/app/services/litellm_keys.py:436-449 | the barrier query reads direct children; its yes holds for all descendants exactly when every terminal descendant has terminal children |
| `KeyLedgerSpec.ClosedIff` | orchestrator/app/services/litellm_keys.py:436-449 | no terminal key has a live child exactly when no terminal key has a live descendant, and then the query is exact for every key |
| `KeyLedgerSpec.StepKeepsClosedIff` | orchestrator/app/services/litellm_keys.py:353-433 | a step keeps that exactly when it settles or fails only keys whose children are terminal and its cascade meets no live key it may not revoke |
| `KeyLedgerSpec.CarefulRunsAnswerExactly` | orchestrator/app/services/litellm_keys.py:436-449 | in every run of such steps the query answers for all descendants, at every moment and for every key |
| `KeyLedgerSpec.BarrierQueryMissesGrandchild` | orchestrator/app/services/litellm_keys.py:436-449 | a failed child with a live grandchild: the query says yes while a descendant is active |
| `KeyLedgerSpec.ReachedIff` | orchestrator/app/services/litellm_keys.py:386-433 | a cascade visits exactly the descendants with no blocked key in between |
| `KeyLedgerSpec.CascadeRevokesAllIff` | orchestrator/app/services/litellm_keys.py:386-433 | every active descendant is revoked exactly when none lies below a settling, reaped or pending key |
| `KeyLedger.Table.AncestorChainLen` | orchestrator/app/services/litellm_keys.py:108-121 | the capped walk returns the depth, or the cap for deeper keys |
| `KeyLedger.Table.Mint` | orchestrator/app/services/litellm_keys.py:124-231 | the first failing check in source order is the error; otherwise one active row with the requested budget is inserted and nothing else changes |
| `KeyLedger.Table.RecordSpend` | orchestrator/app/services/litellm_keys.py:282-319 | the in-place walk charges exactly the walked keys, or refuses and changes nothing |
| `KeyLedger.Table.ChargeChain` | orchestrator/app/services/litellm_keys.py:297-318 | the walk loop adds the charge once to each of the first 32 keys of the chain |
| `KeyLedger.Table.BeginSettlement` | orchestrator/app/services/litellm_keys.py:327-350 | active and reaped keys become settling, terminal ones are returned as they are, others are refused |
| `KeyLedger.Table.FinalizeSettlement` | orchestrator/app/services/litellm_keys.py:353-368 | the settled transition, without any look at children |
| `KeyLedger.Table.MarkFailed` | orchestrator/app/services/litellm_keys.py:371-383 | settled, revoked and failed keys are left alone, all others fail |
| `KeyLedger.Table.CascadeRevoke` | orchestrator/app/services/litellm_keys.py:386-433 | the breadth-first loop revokes exactly the reached active keys and lists each once |
| `KeyLedger.Table.AwaitChildrenTerminal` | orchestrator/app/services/litellm_keys.py:436-449 | the barrier query, both directions |
| `ThemeTables.RenamingInjectiveIff` | scripts/theme_migration_dryrun.py:140-159 | the renaming is one-to-one on the ids in use exactly when the fresh UUIDs are distinct |
| `ThemeTables.AncestorsArePreserved` | scripts/theme_migration_dryrun.py:140-159 | the n-th ancestor of the re-keyed theme is the re-keyed n-th ancestor, for every n |
| `ThemeTables.AncestorsAreReflected` | scripts/theme_migration_dryrun.py:140-159 | depth, roots and cycles after the migration are those before it |
| `ThemeTables.MigrationKeepsAncestry` | scripts/theme_migration_dryrun.py:257-335 | a completed migration keeps the whole ancestry of every theme |
| `ThemeTables.RekeyCommutesWithDelete` | orchestrator/app/models.py:2719 | re-keying commutes with deleting a theme and nulling its children's links |
| `ThemeTables.RekeyCommutesWithCascade` | orchestrator/app/models.py:2757-2764 | re-keying commutes with the cascade to library rows |
| `ThemeTables.DeleteCommutesWithMigration` | scripts/theme_migration_dryrun.py:282-314 | after a deletion the tables still pass the gates with the UUIDs that are left, and delete then migrate gives the same two tables as migrate then delete the image |
| `ThemeMigration.CompletesAfterDelete` | scripts/theme_migration_dryrun.py:124-335 | if the plan completes with a theme, it completes without it |
| `ThemeMigration.ThirdCheckFollows` | scripts/theme_migration_dryrun.py:195-213 | the backfilled-link count check follows from the orphan-parent check |
| `ThemeMigration.CountsAddUp` | scripts/theme_migration_dryrun.py:60-80 | the counts behind the checks take every row once |
| `ThemeMigration.GateMeaning` | scripts/theme_migration_dryrun.py:165-213 | the NULL counts read by the gates are exactly the legacy references that do not resolve |
| `ThemeMigration.PrimaryKeyIff` | scripts/theme_migration_dryrun.py:257-281 | the new primary key can be added exactly when the UUIDs are distinct |
| `ThemeMigration.ReferencesHold` | scripts/theme_migration_dryrun.py:264-321 | past the gates, with distinct UUIDs, no later primary key, foreign key, NOT NULL or UNIQUE step can fail |
| `ThemeMigration.SwapIsSwapped` | scripts/theme_migration_dryrun.py:257-300 | the four column renames are one re-keying that keeps the legacy ids beside it |
| `ThemeMigration.ProbeIsFresh` | scripts/theme_migration_dryrun.py:391-402 | the probe insert clashes exactly when its id is one of the new UUIDs |
| `ThemeMigration.Database.Backfill` | scripts/theme_migration_dryrun.py:124-159 | both backfills fill every work column with the renamed reference, or NULL |
| `ThemeMigration.Database.Gates` | scripts/theme_migration_dryrun.py:165-213 | the gates pass if and only if every library and parent reference resolves |
| `ThemeMigration.Database.DropOldConstraints` | scripts/theme_migration_dryrun.py:221-255 | the drops succeed exactly when no unknown foreign key still uses the old primary key |
| `ThemeMigration.Database.DropParentFk` | scripts/theme_migration_dryrun.py:230-245 | the loop drops whichever of the two known names exists |
| `ThemeMigration.Database.SwapKeys` | scripts/theme_migration_dryrun.py:257-321 | the swap succeeds exactly on distinct UUIDs and a free constraint name, and yields the swapped tables and constraints |
| `ThemeMigration.Database.DropLegacyColumns` | scripts/theme_migration_dryrun.py:326-335 | dropping the legacy columns leaves exactly the re-keyed tables |
| `ThemeMigration.FinalChecksPass` | scripts/theme_migration_dryrun.py:340-387 | past the gates the final assertions on rows, parent links and column types cannot fail |
| `ThemeMigration.Database.FinalChecks` | scripts/theme_migration_dryrun.py:340-387 | the final assertions, as the script makes them |
| `ThemeMigration.Database.RunPlan` | scripts/theme_migration_dryrun.py:124-387 | the whole plan, final assertions included: its outcome is decided by the starting tables, and on completion the tables are the re-keyed ones |
| `ThemeMigration.Database.RunDryRun` | scripts/theme_migration_dryrun.py:391-431 | exit code 1 exactly for a failed gate, 0 exactly for a completed plan, and the database unchanged |
| `LeaseProtocol.EveryRunIsFenced` | orchestrator/app/models_automations.py:1452-1538 | every run of any number of processes, crashes included: terms unique per grant, intents in non-decreasing term order per lease, calls and applied marks only under the recorded term |
| `LeaseProtocol.StepKeepsTerms` | orchestrator/app/services/automations/lease/db.py:55-157 | a lease row never disappears and its term never falls |
| `LeaseProtocol.OneGrantPerTerm` | orchestrator/app/services/automations/lease/db.py:55-157 | a term of a lease is granted once |
| `LeaseProtocol.TakeoverIff` | orchestrator/app/services/automations/lease/db.py:83-157 | in every run an acquire is granted exactly when the caller holds the row, or its last write was a release, or an acquire or renewal whose expiry lies before now |
| `LeaseProtocol.OnlyTheNewestRecords` | orchestrator/app/services/automations/intents/__init__.py:75-126 | an intent is recorded only under the highest term ever issued: a deposed leader adds nothing |
| `LeaseProtocol.CallsAreByTheAuthorIff` | orchestrator/app/services/automations/intents/reconciler.py:288-355 | a cluster call is made under the very grant that recorded its intent exactly when the pass ran on the intent's own lease; the row stores no lease name |
| `LeaseProtocol.CurrentIffNewest` | orchestrator/app/services/automations/lease/db.py:55-157 | a term is the current one exactly as long as nobody acquired the lease since it was granted |
| `LeaseProtocol.LateEffectIff` | orchestrator/app/services/automations/intents/reconciler.py:309-353 | on the intent's own lease, a call or applied mark comes under a term that has passed exactly when the lease was acquired again |
| `LeaseProtocol.NoLateEffectsIff` | orchestrator/app/services/automations/intents/reconciler.py:309-353 | over every run of one lease there is no such effect exactly when every effect comes before the next acquisition |
| `LeaseProtocol.AcquireRaisesTheTerm` | orchestrator/app/services/automations/lease/db.py:112-138 | acquiring raises the term above all granted before, also for the holder itself |
| `LeaseProtocol.CrashedProcessIsSilent` | orchestrator/app/services/automations/intents/reconciler.py:249-287 | over every run, between a crash and its next acquire a process changes no table and calls nothing |
| `LeaseProtocol.CrashLosesTheMark` | orchestrator/app/services/automations/intents/reconciler.py:309-353 | a run where a process calls the cluster, crashes, acquires again and supersedes the intent it carried out |
| `LeaseProtocol.OtherLeaseMakesTheCall` | orchestrator/app/models_automations.py:1512-1528 | with two leases at one term the leader of one makes the call of the other's intent |
| `LeaseProtocol.OtherLeaseSupersedes` | orchestrator/app/models_automations.py:1512-1528 | at another term it supersedes an intent whose own term is current |
| `LeaseProtocol.CurrentPassSupersedesOnlyStale` | orchestrator/app/services/automations/intents/reconciler.py:309-313 | on the intent's own lease, a pass under the current term supersedes only intents of older terms |
| `LeaseProtocol.StepKeepsDecidedIff` | orchestrator/app/services/automations/intents/__init__.py:129-178 | the status writes are unguarded: a step leaves decided intents alone exactly when the row it writes is pending or already has that status |
| `LeaseProtocol.ExclusiveRunsAbsorb` | orchestrator/app/services/automations/intents/__init__.py:129-178 | if passes never overlap, applied, superseded and failed are final in every run |
| `LeaseProtocol.LateWriteRevivesSuperseded` | orchestrator/app/services/automations/intents/reconciler.py:352-353 | a leader whose lease ran out finishes late: a superseded intent ends as applied |
| `LeaseProtocol.DeposedPassRejectsLiveIntent` | orchestrator/app/services/automations/intents/reconciler.py:309-313 | a deposed pass supersedes an intent of the current term |
| `ControllerDb.Tables.Acquire` | orchestrator/app/services/automations/lease/db.py:55-157 | refused exactly for an unexpired row of another holder; a grant writes the caller, the old term plus one and the new expiry |
| `ControllerDb.Tables.Renew` | orchestrator/app/services/automations/lease/db.py:159-197 | renewal succeeds exactly for the current holder and term, and moves only the expiry |
| `ControllerDb.Tables.Release` | orchestrator/app/services/automations/lease/db.py:199-224 | release frees the row for the current holder and keeps the term |
| `ControllerDb.Tables.RecordIntentWithLease` | orchestrator/app/services/automations/intents/__init__.py:75-126 | the verify-and-insert transaction: one pending intent under the current term, or nothing |
| `ControllerDb.Tables.HandleRow` | orchestrator/app/services/automations/intents/reconciler.py:309-353 | one row of a pass with its status write is the advance step of the protocol |
| `ReconcilePasses.CallEarly` | orchestrator/app/services/automations/intents/reconciler.py:94-162 | making a due call early or again changes nothing in the end |
| `ReconcilePasses.MarkDone` | orchestrator/app/services/automations/intents/reconciler.py:352-353 | a row whose effect is there can be written off without changing the final cluster |
| `ReconcilePasses.RowIsHandled` | orchestrator/app/services/automations/intents/reconciler.py:309-353 | what one row comes to: superseded without a call, applied with its call made on the cluster, one attempt counted, failed at the fifth, or untouched |
| `ReconcilePasses.SettledIsAsAsked` | orchestrator/app/services/automations/intents/reconciler.py:94-162 | the predicted cluster: the pods named are gone and no others, each deployment has what the last row for it asked, none comes or goes |
| `ReconcilePasses.BatchIsOldest` | orchestrator/app/services/automations/intents/reconciler.py:300-307 | a batch holds every pending row older than its members |
| `ReconcilePasses.BatchIsFull` | orchestrator/app/services/automations/intents/reconciler.py:300-307 | a pass takes fifty rows or all that are pending |
| `ReconcilePasses.PassKeeps` | orchestrator/app/services/automations/intents/reconciler.py:288-355 | a pass that dies anywhere keeps the predicted statuses and cluster unless it gives up a row that could succeed |
| `ReconcilePasses.CrashesKeepOutcome` | orchestrator/app/services/automations/intents/reconciler.py:249-287 | passes of one term that die anywhere keep the predicted outcome |
| `ReconcilePasses.ConflictsKeepOutcomeIff` | orchestrator/app/services/automations/intents/reconciler.py:315-325 | every history of conflicted and dying passes keeps it if and only if due intents for one deployment ask for the same thing |
| `ReconcilePasses.ToleratedGivesNothingUp` | orchestrator/app/services/automations/intents/reconciler.py:326-350 | no row is given up by a history with fewer errors for each due row than it has attempts left |
| `ReconcilePasses.ErrorsKeepOutcomeIff` | orchestrator/app/services/automations/intents/reconciler.py:326-350 | every history with at most e passing errors a row, crashes and conflicts free, keeps the outcome if and only if due intents for one deployment ask for the same thing and, for e above zero, every due row has more than e attempts left |
| `ReconcilePasses.ReacquiringKeepsStatusesIff` | orchestrator/app/services/automations/intents/reconciler.py:309-313 | when the lease is acquired again, the statuses end as predicted exactly when every row of the old term was decided before, none given up |
| `ReconcilePasses.ReacquiringKeepsOutcomeIff` | orchestrator/app/services/automations/intents/reconciler.py:249-355 | the same for statuses and cluster together |
| `Reconciler.Controller.Handle` | orchestrator/app/services/automations/intents/reconciler.py:309-353 | one row in place is the row step of the pass, and a row marked applied has had its call made on the cluster |
| `Reconciler.Controller.Tick` | orchestrator/app/services/automations/intents/reconciler.py:288-355 | the loop over the batch, dying anywhere, is the pass of the specification |
| `Reconciler.Controller.Drain` | orchestrator/app/services/automations/intents/reconciler.py:249-287 | after any history of passes of one term, clean passes leave nothing pending; if no row that could succeed was given up, as when each had attempts left for the errors met, every target is as the last row for it asked and every status says what became of its row |
| `DesktopBoot.ExecBeside` | desktop/sidecar/entrypoint.py:159-223 | statements beside leftover tables behave as on an empty file, or trip over one of them |
| `DesktopBoot.UpgradedBeside` | desktop/sidecar/entrypoint.py:159-223 | the same for the whole chain of migrations |
| `DesktopBoot.FirstUpgrade` | desktop/sidecar/entrypoint.py:159-223 | exactly when the first upgrade of a file with leftovers succeeds, and at which migration it stops otherwise |
| `DesktopBoot.Sidecar.Upgrade` | desktop/sidecar/entrypoint.py:179-188 | an upgrade cut off anywhere: which tables and which version it leaves |
| `DesktopBoot.Sidecar.DropTables` | desktop/sidecar/entrypoint.py:215-219 | the reset drops every table that is not SQLite's own, one at a time |
| `DesktopBoot.ReservedIffLike` | desktop/sidecar/entrypoint.py:215-219 | the tables spared are those with names LIKE `sqlite_%` |
| `DesktopBoot.Sidecar.Boot` | desktop/sidecar/entrypoint.py:159-223 | with no version committed a full boot is ready exactly on recoverable leftovers; with one committed no boot drops a table |
| `DesktopBoot.Sidecar.BootAfterCrashes` | desktop/sidecar/entrypoint.py:159-223 | after any number of crashed boots with nothing committed, a full boot ends with exactly the tables of a fresh install |
| `DesktopBoot.RestartIff` | desktop/sidecar/entrypoint.py:198-210 | after n statements of a migration that would have gone through, running it again goes through exactly when n is zero, and stops at its first statement otherwise |
| `DesktopBoot.Sidecar.BootAfterLateCrash` | desktop/sidecar/entrypoint.py:159-223 | with a version committed, the boot after a crashed one gets to head exactly when the crash fell between two migrations |
| `Binary64.RoundIsFloat` | orchestrator/app/schemas_automations.py:296-305 | float() of a positive decimal is a binary64 number |
| `Binary64.RoundIsNearest` | orchestrator/app/schemas_automations.py:296-305 | no binary64 number is nearer |
| `Binary64.RelativeError` | orchestrator/app/schemas_automations.py:296-305 | the rounding error is at most 2^-53 of the number |
| `Binary64.SafeDecimalsAreDistinct` | orchestrator/app/schemas_automations.py:296-305 | decimals of at most 15 digits never share a float |
| `Binary64.SafeDecimalsSurvive` | orchestrator/app/schemas_automations.py:266-293 | every decimal of at most 15 digits survives Decimal to float to Decimal |
| `Binary64.SixteenDigitsCollide` | orchestrator/app/schemas_automations.py:296-305 | 2^53 and its successor have the same float |
| `SpendCaps.AcceptedIsConsistent` | orchestrator/app/schemas_automations.py:308-333 | an accepted definition has agreeing copies, 0 < per-run <= per-day, and an otherwise untouched contract |
| `SpendCaps.AcceptedIffRules` | orchestrator/app/schemas_automations.py:266-515 | a payload is accepted exactly when it keeps each of nine rules, with the caps it asks for; otherwise the first broken rule is the error |
| `SpendCaps.SourceDoesNotMatter` | orchestrator/app/schemas_automations.py:459-497 | a cap in the column only, in the contract only as text or whole number, or in both gives the same definition, or the same refusal |
| `SpendCaps.FloatSourceAgreesIff` | orchestrator/app/schemas_automations.py:266-305 | written in the contract as its float, alone or beside the column, an accepted cap gives that definition exactly when it survives the trip through float |
| `SpendCaps.IdempotentIff` | orchestrator/app/schemas_automations.py:429-515 | normalising again changes nothing exactly when both caps survive the trip through float |
| `SpendCaps.SafeCapsSurvive` | orchestrator/app/schemas_automations.py:296-305 | every cap of at most 15 digits survives that trip |
| `SpendCaps.DigitBoundIff` | orchestrator/app/schemas_automations.py:296-305 | all caps of at most k digits survive it exactly when k is at most 15 |
| `SpendCaps.SecondPassRejects` | orchestrator/app/schemas_automations.py:429-515 | a definition that is accepted once and then refused when normalised again |
| `SpendCaps.ColumnCapsSurvive` | orchestrator/app/models_automations.py:95-96 | every Numeric(12, 4) cap survives it |
| `SpendCaps.ColumnDefinitionsAreStable` | orchestrator/app/schemas_automations.py:429-515 | definitions with column caps normalise once and for all |
| `SpendCaps.Payload.ReconcileComputeTier` | orchestrator/app/schemas_automations.py:429-457 | the tier copies agree, or the payload is refused |
| `SpendCaps.Payload.ReconcileSpendCaps` | orchestrator/app/schemas_automations.py:459-497 | the loop accepts exactly the caps that keep the six cap rules, and writes both copies only then |
| `SpendCaps.Payload.Validate` | orchestrator/app/schemas_automations.py:429-515 | accepted exactly when every rule is kept, with the caps asked for; refused with the error of the first broken rule |
| `ConvergenceGuards.BudgetBoundsEdits` | orchestrator/app/models_automations.py:134-165 | over every run, between two approvals at most `diff_budget_max` edits are auto-applied |
| `ConvergenceGuards.SomeBoundIff` | orchestrator/app/services/workflows/proposals.py:259-266 | approval-free edits are bounded at all exactly when `diff_budget_max` is positive |
| `ConvergenceGuards.RunEditsAreSpaced` | orchestrator/app/services/workflows/proposals.py:241-257 | an edit by an agent run comes at least one cooldown after every earlier auto-applied edit |
| `ConvergenceGuards.NextIsLegalIff` | orchestrator/app/services/workflows/proposals.py:241-266 | after any run the next edit is let through exactly when the edits since the last approval are below a positive budget and, for an agent run, the cooldown since the last edit is over |
| `ConvergenceGuards.CooldownSpans` | orchestrator/app/models_automations.py:158-165 | any N auto-applied edits by agent runs span at least N - 1 cooldowns |
| `ConvergenceGuards.PeopleSkipTheCooldown` | orchestrator/app/services/workflows/proposals.py:241-257 | edits proposed by a person skip the cooldown: any number may share one moment |
| `ConvergenceGuards.SerialCreationsCount` | orchestrator/app/services/workflows/proposals.py:392-395 | when creations do not overlap, the read-test-write counter is exact and a positive budget binds |
| `ConvergenceGuards.BudgetBindsIff` | orchestrator/app/services/workflows/proposals.py:259-266 | a positive budget bounds the edits of every run with at most k creations in flight exactly when k is at most one |
| `ConvergenceGuards.OverlapsBeatAnyBudget` | orchestrator/app/services/workflows/proposals.py:259-266 | whatever the budget, n overlapping creations can all be applied while the counter says one |
| `WorkflowHistory.StepKeepsInv` | orchestrator/app/models_workflows.py:41-125 | each step keeps: heads and bindings name own versions, one version per snapshot, parents older by one generation, applied proposals name their version |
| `WorkflowHistory.EveryRunKeepsHistory` | orchestrator/app/models_workflows.py:41-147 | every run keeps that, whatever stale parents its transactions read, and never rewrites a version, a binding or a decided proposal |
| `WorkflowHistory.BoundPayloadNeverChanges` | orchestrator/app/services/automations/dispatcher.py:965-971 | once a run is bound, its version and payload are the same at every later moment |
| `WorkflowHistory.AncestryCountsGenerations` | orchestrator/app/models_workflows.py:84-92 | the version graph is acyclic: an ancestry has one version per generation down to one |
| `WorkflowHistory.NumberingIffNewestParent` | orchestrator/app/services/workflows/versions.py:215-224 | generation numbers stay unique exactly when the writer read a newest version; the schema does not enforce it |
| `WorkflowHistory.AppliedReusesIff` | orchestrator/app/services/workflows/proposals.py:525-543 | applying reuses an older version exactly when the payload has no child rows and a version already holds the result |
| `WorkflowHistory.RestoringSettingsRestoresTheHead` | orchestrator/app/services/workflows/versions.py:200-212 | editing settings and restoring them brings the head back to the version it had |
| `WorkflowHistory.StepKeepsHeadsLiveIff` | orchestrator/app/services/workflows/proposals.py:386-418 | a step parts a head from the live definition exactly when it is an auto-apply that has changed something when it meets a part it cannot read, an edit that loses the race for its version to other content, or a write past the snapshot that changes a definition with a head |
| `WorkflowHistory.RunKeepsHeadsLiveIff` | orchestrator/app/services/workflows/versions.py:179-267 | over every run, every head is live at every moment exactly when no step is one of these |
| `WorkflowHistory.RescopingPartsTheHead` | orchestrator/app/routers/automations.py:1940-1978 | a run from empty tables where an approval answer widens the contract: the head still names the version with the old one |
| `WorkflowHistory.AutoAppliesAreNew` | orchestrator/app/services/workflows/proposals.py:564-587 | an auto-applied version is new and holds a row under a fresh id, so no other transaction can write the same one |
| `WorkflowHistory.TouchesIff` | orchestrator/app/services/workflows/proposals.py:510-620 | the partial rewrite of a payload with actions that does not parse changes the definition exactly when a setting differs, the first action can be read or an old action is dropped |
| `WorkflowHistory.StepMovesGuard` | orchestrator/app/services/workflows/proposals.py:383-395 | every step moves the guard columns by the auto-apply or approval it counts as, and only legally |
| `WorkflowHistory.RunMovesGuard` | orchestrator/app/services/workflows/proposals.py:299-440 | so does every run |
| `WorkflowHistory.EventsAreAppliedProposals` | orchestrator/app/services/workflows/proposals.py:383-440 | a step counts as an auto-apply exactly when it applies the proposal it submits, and as an approval exactly when it applies the one it approves |
| `WorkflowHistory.AutoAppliesAreBudgeted` | orchestrator/app/models_automations.py:134-165 | over every run of the tables, between two human approvals at most `diff_budget_max` proposals are applied without a human |
| `WorkflowHistory.AgentEditsAreSpaced` | orchestrator/app/models_automations.py:158-165 | over every run on one clock, N agent edits span at least N - 1 cooldowns |
| `WorkflowHistory.AgentOnlyProposalsWait` | orchestrator/app/services/workflows/proposals.py:498-508 | a proposal that names only its agent run is never applied automatically |
| `WorkflowTables.Tables.NewestVersion` | orchestrator/app/services/workflows/versions.py:215-224 | the query returns a version of the highest generation, or none |
| `WorkflowTables.Tables.Snapshot` | orchestrator/app/services/workflows/versions.py:179-267 | an existing version is reused exactly when one holds the live definition, else one is appended under a newest parent |
| `WorkflowTables.Tables.ReplaceClass` | orchestrator/app/services/workflows/proposals.py:558-630 | one replacement loop leaves the fresh rows of one list, up to the first entry it cannot read |
| `WorkflowTables.Tables.ReplaceLists` | orchestrator/app/services/workflows/proposals.py:523-532 | the three loops in order stop at the first list that does not parse |
| `WorkflowTables.Tables.Materialise` | orchestrator/app/services/workflows/proposals.py:510-532 | settings and lists are written up to the first part that does not parse: a tier, an action id, a trigger config or a target |
| `WorkflowPayload.MaterialisedFieldByField` | orchestrator/app/services/workflows/proposals.py:510-630 | the rows and settings written, field by field, up to the first part that cannot be read, and which old rows are gone by then |
| `WorkflowPayload.ReadableIsWritten` | orchestrator/app/services/workflows/proposals.py:510-630 | a readable payload leaves exactly one row for each item with the item's own fields, its settings, and the other settings as they were |
| `WorkflowTables.Tables.ApplyProposal` | orchestrator/app/services/workflows/proposals.py:475-556 | applied exactly when someone is named and the payload can be read; the head is then a version that holds just what the payload spells |
| `WorkflowTables.Tables.DryRun` | orchestrator/app/services/workflows/dry_run.py:53-90 | the loop accepts, refuses or raises as the first action that is no dry-runnable step says, and refuses the empty list |
| `WorkflowTables.Tables.CreateProposal` | orchestrator/app/services/workflows/proposals.py:299-440 | creation, duplicate collapse and auto-apply are the propose step |
| `WorkflowTables.Tables.Decide` | orchestrator/app/services/workflows/proposals.py:634-678 | approval and rejection are their steps; any error leaves every row as it was |
| `WorkflowTables.Tables.WithdrawProposal` | orchestrator/app/services/workflows/proposals.py:681-703 | withdrawal succeeds exactly on a submitted proposal |
| `WorkflowTables.Tables.BindRun` | orchestrator/app/services/automations/dispatcher.py:965-971 | a run is bound on its first dispatch only, to the head, which is created when missing |
| `WorkflowTables.Tables.Patch` | orchestrator/app/routers/automations.py:780-817 | an API edit rewrites settings and the replaced lists, then snapshots |
| `WorkflowTables.Tables.Rescope` | orchestrator/app/routers/automations.py:1940-1943 | the merged contract is written without a snapshot |
| `WorkflowTables.Tables.SwitchOff` | orchestrator/app/services/automations/cron_producer.py:190-229 | the loop switches off exactly the triggers found malformed, without a snapshot |
| `Utf8.DecodeEncode` | scripts/secrets_migrate_audit.py:48-50 | UTF-8 decoding undoes encoding, for every text |
| `Utf8.EncodeDecode` | scripts/secrets_migrate_audit.py:48-50 | only canonical encodings decode |
| `Base64.DecodeEncode` | scripts/secrets_migrate_audit.py:47-50 | base 64 decoding undoes encoding in all padding cases |
| `Base64.DigitsAreTheAlphabet` | scripts/secrets_migrate_audit.py:47-50 | the sixty-four digits are the characters of the standard alphabet in order, and no others |
| `Base64.GroupIs` | orchestrator/alembic/versions/0061_backfill_container_secrets.py:180-182 | encoding cuts each group of bytes, as one number of 24 bits, into four digits, and pads with equals signs |
| `Base64.DecodableShape` | scripts/secrets_migrate_audit.py:43-46 | what decodes has a length divisible by four and only alphabet characters |
| `SecretsAudit.ExactOnEncodings` | scripts/secrets_migrate_audit.py:42-53 | on the base 64 form of a text the detector says yes exactly when the text is printable and takes at least four bytes |
| `SecretsAudit.AcceptsIff` | scripts/secrets_migrate_audit.py:42-53 | it accepts exactly the decodable values of eight or more characters that spell printable text |
| `SecretsAudit.PatternIsRedundant` | scripts/secrets_migrate_audit.py:43-46 | the pattern and length-modulo tests never change the answer |
| `SecretsAudit.AuditRow` | scripts/secrets_migrate_audit.py:84-98 | the inner loop counts and lists one container |
| `SecretsAudit.Audit` | scripts/secrets_migrate_audit.py:74-117 | the audit loops compute the report |
| `SecretsAudit.CountersAddUp` | scripts/secrets_migrate_audit.py:102-105 | every entry is in one class, so the numbers add up to the total |
| `SecretsAudit.MissingIff` | scripts/secrets_migrate_audit.py:84-98 | a container's part of the plan names exactly its secret keys missing from `encrypted_secrets` |
| `SecretsAudit.AmbiguousIff` | scripts/secrets_migrate_audit.py:84-117 | the ambiguous list names exactly the unrecognised keys whose string values the detector takes, and the exit code says whether it is empty |
| `SecretsAudit.PlanIff` | scripts/secrets_migrate_audit.py:99-100 | the plan has one row for each container with a missing key and no other |
| `SecretsAudit.PatchEmptiesThePlan` | scripts/secrets_migrate_audit.py:84-100 | adding the planned keys empties a container's plan and keeps its counts and ambiguous keys |
| `SecretsAudit.MigrationEmptiesThePlan` | orchestrator/alembic/versions/0061_backfill_container_secrets.py:84-136 | after the real migration a second audit has no secrets and an empty plan, with the same ambiguous list and exit code |
| `SecretsAudit.PlanIsWhatMovesIff` | scripts/secrets_migrate_audit.py:111-115 | the plan is what the migration moves exactly when no secret among the variables has an encrypted entry already |
| `SecretsAudit.GatePassesIff` | orchestrator/alembic/versions/0062_drop_base64_secret_codec.py:35-60 | the next migration's gate passes a row exactly when no planned key is secret by shape, and always after the move |
| `SecretsAudit.UpgradeRow` | orchestrator/alembic/versions/0061_backfill_container_secrets.py:103-135 | the pop loop of the migration moves exactly the matched keys |
| `SecretsAudit.MovedSecretIs` | orchestrator/alembic/versions/0061_backfill_container_secrets.py:39-48 | a moved secret is stored as the text it spells in base 64, or as itself where it spells none |
| `SecretsAudit.RoundTripKeepsPlaintext` | orchestrator/alembic/versions/0061_backfill_container_secrets.py:145-188 | upgrade then downgrade keeps what every secret says |
| `SecretsAudit.RoundTripRestoresIff` | orchestrator/alembic/versions/0061_backfill_container_secrets.py:145-188 | the value itself comes back exactly when it was the base 64 form of a text |
| `DotEnv.LoadedIs` | desktop/sidecar/entrypoint.py:71-96 | a set variable is left alone; any other gets the value of its first valid line |
| `DotEnv.LoadingTwiceIsOnce` | desktop/sidecar/entrypoint.py:71-96 | loading a file again changes nothing |
| `DotEnv.Precedence` | desktop/sidecar/entrypoint.py:129-144 | process environment over `.env` over built-in default, for every variable but the signing key |
| `DotEnv.DefaultsAre` | desktop/sidecar/entrypoint.py:129-144 | the five built-in defaults a variable takes that neither process nor file sets |
| `DotEnv.QuotedParsesIff` | desktop/sidecar/entrypoint.py:91-95 | `KEY="value"` parses to the value exactly when no quote of either kind ends it |
| `DotEnv.PlainParsesIff` | desktop/sidecar/entrypoint.py:91-95 | the same for unquoted values |
| `Strings.SpacesAre` | desktop/sidecar/entrypoint.py:80-95 | a bare strip removes these twenty-nine characters |
| `DotEnv.KeyIsLongIff` | desktop/sidecar/entrypoint.py:99-126 | the configured key is long enough exactly when the user left it unset or set a long one |
| `DotEnv.KeySurvivesRestart` | desktop/sidecar/entrypoint.py:99-126 | with an unset key and a writable or already good key file, the next boot ends with the same key |
| `DotEnv.Process.LoadDotEnv` | desktop/sidecar/entrypoint.py:71-96 | the loader loop refines the specification |
| `DotEnv.Process.EnsureSecretKey` | desktop/sidecar/entrypoint.py:99-126 | the key and the key file, in all cases |
| `DotEnv.Process.ConfigureEnvironment` | desktop/sidecar/entrypoint.py:129-144 | loading, defaults and signing key together |
| `Blocklist.MatchesIffLabels` | orchestrator/app/compliance.py:72-81 | for every pattern the three tests compare labels, one leading dot aside |
| `Blocklist.LeadingDotIsNeutralIff` | orchestrator/app/compliance.py:79-81 | one more leading dot changes nothing exactly when there was none |
| `Blocklist.SubdomainsAreBlocked` | orchestrator/app/compliance.py:76-78 | what blocks a domain blocks everything below it |
| `Blocklist.BlockedIff` | orchestrator/app/compliance.py:62-83 | an address is blocked exactly when the labels of some list entry are the last labels of its domain |
| `Blocklist.BlockingIsInherited` | orchestrator/app/compliance.py:62-83 | blocking an address blocks every address below its domain |
| `Blocklist.KeptIff` | orchestrator/app/compliance.py:35-37 | the parsed list holds exactly the trimmed, lower-case, non-blank parts |
| `Blocklist.ListedIff` | orchestrator/app/compliance.py:35-37 | the list holds exactly the lower-case forms of what stands between commas, trimmed and not blank |
| `Blocklist.LowerIsLetterwise` | orchestrator/app/compliance.py:28-33 | lower case changes the twenty-six capital letters, each to its own small one |
| `TemplateSeed.SucceedsIff` | orchestrator/scripts/seed_contract_templates.py:122-136 | the list goes through exactly when no name in it has two rows to begin with |
| `TemplateSeed.RunSeeds` | orchestrator/scripts/seed_contract_templates.py:87-119 | a successful run: other rows untouched, seeded rows with the last entry's content, no duplicates, counters that add up to the list length |
| `TemplateSeed.SeededContent` | orchestrator/scripts/seed_contract_templates.py:87-119 | with agreeing entries each seeded name ends as one row with the list's content |
| `TemplateSeed.CreatedRowsAreNew` | orchestrator/scripts/seed_contract_templates.py:94-136 | the table grows by exactly the rows counted as created |
| `TemplateSeed.SecondRunSkips` | orchestrator/scripts/seed_contract_templates.py:107-114 | a second run skips every entry and changes nothing |
| `TemplateSeed.SkippingNeedsAgreement` | orchestrator/scripts/seed_contract_templates.py:107-114 | a run that skips everything needs entries of one name to agree |
| `TemplateSeed.Templates.SeedOne` | orchestrator/scripts/seed_contract_templates.py:87-119 | one upsert; it fails exactly on an ambiguous name |
| `TemplateSeed.Templates.Seed` | orchestrator/scripts/seed_contract_templates.py:122-143 | commit when every entry went through, else rollback to the starting table |
| `Heartbeat.LiveIsNeverExpiredIff` | orchestrator/app/services/automations/heartbeat_sweep.py:105-117 | over all interleavings of beats and sweeps a live worker is never expired exactly when its longest silence fits the window |
| `Heartbeat.LossesTolerated` | orchestrator/app/worker.py:366-407 | with 90 seconds, two lost beats in a row need beats at most 30 seconds apart, one lost beat at most 45 |
| `Heartbeat.StoppedExpiresIff` | orchestrator/app/services/automations/heartbeat_sweep.py:105-117 | a stopped run is expired by the first sweep past the window and by no earlier one |
| `Heartbeat.GivenUpIff` | orchestrator/app/services/automations/heartbeat_sweep.py:133-171 | a run is given up at exactly the sweep that its counted retries allow |
| `Heartbeat.SweptEnds` | orchestrator/app/services/automations/heartbeat_sweep.py:133-171 | a swept run is expired with fewer than three retries and a known event, else failed, with the reason that says why |
| `Heartbeat.CeilingAllowsTwoRetries` | orchestrator/app/services/automations/dispatcher.py:913-926 | sweep and dispatcher both count, so the ceiling of three allows two retries |
| `Heartbeat.BacklogShrinks` | orchestrator/app/services/automations/heartbeat_sweep.py:107-119 | a sweep takes exactly its batch off the stale backlog |
| `Heartbeat.FinishSurvivesIff` | orchestrator/app/services/automations/heartbeat_sweep.py:107-171 | whatever finishes or beats between selection and update, a finished run keeps its status exactly when it was not selected; below a full batch, exactly when it was not stale then |
| `Heartbeat.LateBeatDoesNotHelp` | orchestrator/app/services/automations/heartbeat_sweep.py:107-171 | a beat between selection and update does not save a selected run |
| `Heartbeat.Table.Select` | orchestrator/app/services/automations/heartbeat_sweep.py:107-119 | a batch of stale rows: 500, or all of them |
| `Heartbeat.Table.Commit` | orchestrator/app/services/automations/heartbeat_sweep.py:126-180 | all of the batch under a lease held throughout, else nothing |
| `Heartbeat.Table.WriteBeat` | orchestrator/app/worker.py:392-399 | a beat refreshes only a running row |

## Left out

- LiteLLM proxy calls, Kubernetes and Docker clients, Redis and Kubernetes lease backends, HTTP routes, logging:
  only their outcomes appear, as arguments of steps.
- Lease time to live: clocks are arbitrary arguments and need not agree; nothing proved rests on them.
- Row locks and isolation levels: a step of a state machine is one transaction. Overlap is modelled where the code
  allows it to matter: passes of the reconciler, stale version parents, counter reads, sweep selection and update.
- Automation deletion and the ON DELETE rules of versions, proposals and runs: the tables of `WorkflowSpec` only grow.
- SHA-256 of a snapshot: taken to be injective and written as equality of contents; the order of rows within a
  snapshot, which the hash also sees, is not modelled.
- `compute_diff` and the auto-apply policy lists: their verdict is an argument of a proposal. Webhook secrets that an
  edit carries over between trigger rows are not modelled.
- Failed API edits and creations: they roll back and are no step. An edit that stops at the scope check is one of them,
  and so is any step that a database error ends, because its transaction is rolled back.
- WorkflowTables.Tables.Snapshot: does not model the unique violation of a concurrent writer and the re-query after its
  rollback; for edits it is the step `LoseRace`, and for approvals and first dispatches it is left out. An auto-apply
  that loses the race is no step either; its version
  holds a row under a fresh id, which no other transaction writes (`WorkflowHistory.AutoAppliesAreNew`).
- Contract merging when an approval answer rescopes it: `WorkflowTables.Tables.Rescope` takes the merged contract. App
  releases that rebind actions and the cascade from deleted destinations have the step `Amend` but no method.
- Payloads that the diff itself cannot read: they never become proposals.
- ReconcilePasses: the rows are fixed while a history runs; intents recorded meanwhile belong to `LeaseProtocol`.
- Exponent range, NaN, infinities and subnormal numbers of binary64: caps are positive reals and exponents unbounded.
- The field checks of the create payload and the rule that `gateway.send` needs a delivery target: they come before
  the validators of `SpendCaps` and do not touch its fields.
- JSON caps written as booleans, and the update (PATCH) validator, which does not copy a contract-only tier back.
- Encryption of secrets: the encrypted column holds plaintexts. The key pattern and the preset lookup are arbitrary
  tests on keys. CPython versions that tolerate padding after a complete base 64 group are not modelled: the decoder
  follows section 4 of RFC 4648.
- Unicode case folding in the blocklist: lower case is that of A to Z. The allowlist is a plain membership test.
- Undecodable bytes, embedded NUL characters and file system errors while reading `.env`.
- DROP and RENAME statements in later migrations of the desktop schema; `DesktopBoot` has CREATE TABLE and ADD COLUMN.
- Index objects, column defaults and other DDL details of SQLite and PostgreSQL beyond what the plans use.
- Charges finer than a micro-dollar: money is counted in whole micro-dollars, while the code adds unrounded amounts and
  the `Numeric(12, 6)` column rounds each row on its own.
- KeyLedger.Table.Mint: does not model the provider call that creates the key, because it happens outside the database.
- Heartbeat.GivenUpIff: covers sweeps and pick-ups only; the dispatcher also counts deferred and paused attempts.
- Heartbeat.LiveIsNeverExpiredIff: a beat takes effect when it is stamped; the commit that makes it visible comes a
  little later in the code.
- WorkflowHistory.AutoAppliesAreBudgeted: takes each proposal creation as one transaction, because overlapping
  creations do exceed the budget, as `ConvergenceGuards.OverlapsBeatAnyBudget` shows.
- Role resolution, cron validation, OAuth, the remaining table definitions: finite tables or library calls without
  properties of this kind.
