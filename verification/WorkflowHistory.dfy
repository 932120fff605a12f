/** What every run of the workflow tables keeps, however its transactions overlap. */
module WorkflowHistory {
  import opened Prelude
  import opened WorkflowSpec
  import Guards = ConvergenceGuards

  // ---------------------------------------------------------------------
  // The invariant
  // ---------------------------------------------------------------------

  /** A head pointer names a version of its own automation. */
  ghost predicate HeadsAreOwn(db: Db) {
    forall a | a in db.definitions && db.definitions[a].head.Some? ::
      OfAutomation(db.versions, db.definitions[a].head.value, a)
  }

  /** At most one version of an automation holds a given snapshot. */
  ghost predicate SnapshotsAreUnique(versions: map<nat, Version>) {
    forall v, w | v in versions && w in versions && versions[v].automation == versions[w].automation
                  && versions[v].snapshot == versions[w].snapshot :: v == w
  }

  /** A parent is an older version of the same automation, one generation below. */
  ghost predicate LineageHolds(versions: map<nat, Version>) {
    forall v | v in versions :: Descends(versions, v)
  }

  ghost predicate Descends(versions: map<nat, Version>, v: nat)
    requires v in versions
  {
    match versions[v].parent
    case None => versions[v].generation == 1
    case Some(q) =>
      && q < v && OfAutomation(versions, q, versions[v].automation)
      && versions[v].generation == versions[q].generation + 1
  }

  predicate Below(live: Live, next: nat) {
    forall id | id in live.rows :: id < next
  }

  ghost predicate IdsAreUsed(db: Db) {
    && (forall v | v in db.versions :: v < db.nextId && Below(db.versions[v].snapshot, db.nextId))
    && (forall a | a in db.definitions :: a < db.nextId && Below(db.definitions[a].live, db.nextId))
    && (forall p | p in db.proposals :: p < db.nextId)
    && (forall r | r in db.runs :: r < db.nextId)
  }

  ghost predicate BindingsAreOwn(db: Db) {
    forall r | r in db.runs && db.runs[r].version.Some? ::
      OfAutomation(db.versions, db.runs[r].version.value, db.runs[r].automation)
  }

  /** A proposal names the version it produced exactly when it is applied. */
  ghost predicate ProposalsAreSettled(db: Db) {
    forall p | p in db.proposals ::
      && (db.proposals[p].status == Applied <==> db.proposals[p].applied.Some?)
      && (db.proposals[p].applied.Some? ==>
            OfAutomation(db.versions, db.proposals[p].applied.value, db.proposals[p].automation))
  }

  predicate WithinBudget(g: Guards.Guard) {
    0 <= g.consumed && (g.budgetMax > 0 ==> g.consumed <= g.budgetMax)
  }

  ghost predicate GuardsAreWithinBudget(db: Db) {
    forall a | a in db.definitions :: WithinBudget(db.definitions[a].guard)
  }

  ghost predicate Inv(db: Db) {
    && HeadsAreOwn(db) && SnapshotsAreUnique(db.versions) && LineageHolds(db.versions) && IdsAreUsed(db)
    && BindingsAreOwn(db) && ProposalsAreSettled(db) && GuardsAreWithinBudget(db)
  }

  /**
    * Nothing recorded is rewritten: versions stay as they are, a bound run stays bound to its
    * version, a decided proposal stays decided, and the guard's two limits stay.
    */
  ghost predicate Extends(db: Db, after: Db) {
    && (forall v | v in db.versions :: v in after.versions && after.versions[v] == db.versions[v])
    && (forall r | r in db.runs :: r in after.runs && after.runs[r].automation == db.runs[r].automation
          && (db.runs[r].version.Some? ==> after.runs[r] == db.runs[r]))
    && (forall p | p in db.proposals :: p in after.proposals
          && after.proposals[p].(status := db.proposals[p].status, applied := db.proposals[p].applied) ==
               db.proposals[p]
          && (db.proposals[p].status != Submitted ==> after.proposals[p] == db.proposals[p]))
    && (forall a | a in db.definitions :: a in after.definitions && SameLimits(db.definitions[a], after.definitions[a]))
  }

  predicate SameLimits(d: Definition, e: Definition) {
    && (d.head.Some? ==> e.head.Some?)
    && e.guard.budgetMax == d.guard.budgetMax && e.guard.cooldown == d.guard.cooldown
  }

  // ---------------------------------------------------------------------
  // One change at a time
  // ---------------------------------------------------------------------

  lemma RewriteIsBelow(live: Live, settings: map<Setting, int>, dropped: set<RowClass>, specs: seq<Row>, next: nat)
    requires Below(live, next)
    ensures Below(Rewrite(live, settings, dropped, specs, next), next + |specs|)
  {
    var rows := Rewrite(live, settings, dropped, specs, next).rows;
    forall id | id in rows ensures id < next + |specs| {
      assert id in live.rows || id in Inserted(next, specs);
    }
  }

  lemma LiveIsBelow(db: Db, a: nat)
    requires Inv(db) && a in db.definitions
    ensures a < db.nextId && Below(db.definitions[a].live, db.nextId)
  {}

  lemma FreshIds(db: Db)
    requires Inv(db)
    ensures db.nextId !in db.versions && db.nextId !in db.definitions
    ensures db.nextId !in db.proposals && db.nextId !in db.runs
  {}

  lemma HeadIsOwn(db: Db, a: nat)
    requires Inv(db) && a in db.definitions && db.definitions[a].head.Some?
    ensures OfAutomation(db.versions, db.definitions[a].head.value, a)
  {}

  lemma LiveKeeps(db: Db, a: nat, live: Live, next: nat)
    requires Inv(db) && a in db.definitions && db.nextId <= next && Below(live, next)
    ensures Inv(WithLive(db, a, live, next)) && Extends(db, WithLive(db, a, live, next))
  {}

  lemma AmendKeeps(db: Db, lives: map<nat, Live>)
    requires Inv(db) && Amends(db, lives)
    ensures Inv(Amended(db, lives)) && Extends(db, Amended(db, lives))
  {
    AmendShape(db, lives);
    AmendExtends(db, lives);
    hide Amends, Amended, Extends, SnapshotsAreUnique, LineageHolds, Below, WithinBudget, OfAutomation;
  }

  lemma AmendExtends(db: Db, lives: map<nat, Live>)
    requires Inv(db) && Amends(db, lives)
    ensures Extends(db, Amended(db, lives))
  {
    AmendShape(db, lives);
    hide Inv, Amends, Amended, Below;
  }

  // Heads and guards stay, and the live rows keep ids that were in use.
  lemma AmendShape(db: Db, lives: map<nat, Live>)
    requires Inv(db) && Amends(db, lives)
    ensures var after := Amended(db, lives);
      && after == db.(definitions := after.definitions) && after.definitions.Keys == db.definitions.Keys
      && forall a :: a in db.definitions ==>
           && after.definitions[a].head == db.definitions[a].head
           && after.definitions[a].guard == db.definitions[a].guard
           && Below(after.definitions[a].live, db.nextId)
  {
    var after := Amended(db, lives);
    forall a | a in db.definitions ensures Below(after.definitions[a].live, db.nextId) { LiveIsBelow(db, a); }
    hide Inv;
  }

  lemma HeadKeeps(db: Db, a: nat, v: nat)
    requires Inv(db) && a in db.definitions && OfAutomation(db.versions, v, a)
    ensures Inv(WithHead(db, a, v)) && Extends(db, WithHead(db, a, v))
  {}

  lemma UniqueAfterAppend(versions: map<nat, Version>, v: nat, row: Version)
    requires SnapshotsAreUnique(versions) && v !in versions
    requires !exists w :: Holds(versions, w, row.automation, row.snapshot)
    ensures SnapshotsAreUnique(versions[v := row])
  {
    forall w | w in versions && versions[w].automation == row.automation
      ensures versions[w].snapshot != row.snapshot
    {
      assert !Holds(versions, w, row.automation, row.snapshot);
    }
  }

  lemma LineageAfterAppend(versions: map<nat, Version>, v: nat, row: Version)
    requires LineageHolds(versions) && forall w | w in versions :: w < v
    requires ParentRead(versions, row.automation, row.parent) && row.generation == NextGeneration(versions, row.parent)
    ensures LineageHolds(versions[v := row])
  {
    var grown := versions[v := row];
    forall w | w in grown ensures Descends(grown, w) {
      if w != v { assert Descends(versions, w); }
    }
  }

  /** The rows around a new version, before the head moves. */
  lemma GrownKeeps(db: Db, row: Version)
    requires Inv(db) && Below(row.snapshot, db.nextId)
    requires SnapshotsAreUnique(db.versions[db.nextId := row]) && LineageHolds(db.versions[db.nextId := row])
    ensures var grown := db.(versions := db.versions[db.nextId := row], nextId := db.nextId + 1);
            Inv(grown) && Extends(db, grown)
  {
    hide SnapshotsAreUnique, LineageHolds, WithinBudget;
    var grown := db.(versions := db.versions[db.nextId := row], nextId := db.nextId + 1);
    assert IdsAreUsed(grown);
    hide IdsAreUsed, Below;
    assert HeadsAreOwn(grown) && BindingsAreOwn(grown) && ProposalsAreSettled(grown);
  }

  /** A new version keeps the lineage whatever version of the automation its writer had read. */
  lemma AppendKeeps(db: Db, a: nat, parent: Option<nat>)
    requires Inv(db) && a in db.definitions && ParentRead(db.versions, a, parent)
    requires !exists w :: Holds(db.versions, w, a, db.definitions[a].live)
    ensures Inv(Appended(db, a, parent)) && Extends(db, Appended(db, a, parent))
  {
    hide Extends, SnapshotsAreUnique, LineageHolds, Below, HeadsAreOwn, BindingsAreOwn, ProposalsAreSettled,
      GuardsAreWithinBudget;
    var v := db.nextId;
    var row := Version(a, NextGeneration(db.versions, parent), parent, db.definitions[a].live);
    var grown := db.(versions := db.versions[v := row], nextId := v + 1);
    UniqueAfterAppend(db.versions, v, row);
    LineageAfterAppend(db.versions, v, row);
    GrownKeeps(db, row);
    HeadKeeps(grown, a, v);
    ExtendsTwice(db, grown, WithHead(grown, a, v));
  }

  lemma SnapshotKeeps(db: Db, a: nat, parent: Option<nat>, after: Db, v: nat)
    requires Inv(db) && a in db.definitions && Snapshots(db, a, parent, after, v)
    ensures Inv(after) && Extends(db, after)
    ensures Holds(after.versions, v, a, db.definitions[a].live)
    ensures after.definitions == db.definitions[a := db.definitions[a].(head := Some(v))]
    ensures after.proposals == db.proposals && after.runs == db.runs
  {
    if exists w :: Holds(db.versions, w, a, db.definitions[a].live) {
      HeadKeeps(db, a, v);
    } else {
      AppendKeeps(db, a, parent);
    }
  }

  lemma ApplyKeeps(db: Db, p: nat, actor: Option<int>, parent: Option<nat>, after: Db, r: Result<nat, ApplyError>)
    requires Inv(db) && p in db.proposals && db.proposals[p].automation in db.definitions
    requires db.proposals[p].status == Submitted
    requires Applies(db, p, actor, parent, after, r)
    ensures Inv(after) && Extends(db, after)
    ensures after.definitions.Keys == db.definitions.Keys
    ensures forall a | a in db.definitions :: after.definitions[a].guard == db.definitions[a].guard
    ensures r.Ok? <==> (actor.Some? || db.proposals[p].user.Some?) && Parses(db.proposals[p].payload)
  {
    hide Inv, Extends, Below;
    var q := db.proposals[p];
    ExtendsItself(db);
    if actor.Some? || q.user.Some? {
      var a := q.automation;
      var live := Materialised(db.definitions[a].live, q.payload, db.nextId);
      var next := db.nextId + |Specs(q.payload)|;
      LiveIsBelow(db, a);
      RewriteIsBelow(db.definitions[a].live, Written(q.payload), Dropped(q.payload), Specs(q.payload), db.nextId);
      LiveKeeps(db, a, live, next);
      if Parses(q.payload) {
        var mid :| Snapshots(WithLive(db, a, live, next), a, parent, mid, r.value) && after == Closed(mid, p, r.value);
        SnapshotKeeps(WithLive(db, a, live, next), a, parent, mid, r.value);
        ClosedKeeps(mid, p, r.value);
        ExtendsTwice(db, WithLive(db, a, live, next), mid);
        ExtendsTwice(db, mid, after);
      }
    }
  }

  lemma ClosedKeeps(db: Db, p: nat, v: nat)
    requires Inv(db) && p in db.proposals && db.proposals[p].status == Submitted
    requires OfAutomation(db.versions, v, db.proposals[p].automation)
    ensures Inv(Closed(db, p, v)) && Extends(db, Closed(db, p, v))
  {}

  lemma BoundKeeps(db: Db, r: nat, v: nat)
    requires Inv(db) && r in db.runs && db.runs[r].version.None?
    requires OfAutomation(db.versions, v, db.runs[r].automation)
    ensures Inv(Bound(db, r, v)) && Extends(db, Bound(db, r, v))
  {}

  lemma DecidedKeeps(db: Db, p: nat, status: Status)
    requires Inv(db) && p in db.proposals && (status == Rejected || status == Withdrawn)
    ensures Inv(Decided(db, p, status)) && Extends(db, Decided(db, p, status))
  {
    hide SnapshotsAreUnique, LineageHolds, Below, WithinBudget;
  }

  lemma StartKeeps(db: Db, a: nat)
    requires Inv(db) && a in db.definitions
    ensures var after := db.(runs := db.runs[db.nextId := WorkRun(a, None)], nextId := db.nextId + 1);
            Inv(after) && Extends(db, after)
  {}

  lemma DefineKeeps(db: Db, d: Definition, next: nat)
    requires Inv(db) && db.nextId < next && d.head.None? && Below(d.live, next) && WithinBudget(d.guard)
    ensures var after := db.(definitions := db.definitions[db.nextId := d], nextId := next);
            Inv(after) && Extends(db, after)
  {}

  lemma ExtendsItself(db: Db)
    ensures Extends(db, db)
  {}

  lemma SubmitKeeps(db: Db, q: Request)
    requires Inv(db) && q.automation in db.definitions
    ensures Inv(Submit(db, q)) && Extends(db, Submit(db, q))
  {}

  lemma CountedKeeps(db: Db, a: nat, stamp: int)
    requires Inv(db) && a in db.definitions && !Guards.Exhausted(db.definitions[a].guard)
    ensures Inv(Counted(db, a, stamp)) && Extends(db, Counted(db, a, stamp))
  {}

  lemma ResetKeeps(db: Db, a: nat)
    requires Inv(db) && a in db.definitions
    ensures Inv(Reset(db, a)) && Extends(db, Reset(db, a))
  {}

  lemma ExtendsTwice(a: Db, b: Db, c: Db)
    requires Extends(a, b) && Extends(b, c)
    ensures Extends(a, c)
  {}

  // ---------------------------------------------------------------------
  // One step at a time
  // ---------------------------------------------------------------------

  lemma CreateKeeps(db: Db, s: Step, parent: Option<nat>, after: Db)
    requires Inv(db) && s.Create? && Creates(db, s, parent, after)
    ensures Inv(after) && Extends(db, after)
  {
    hide Inv, Extends, Below, Snapshots, Rewrite;
    var a := db.nextId;
    var live := Rewrite(Live(map[], map[]), s.settings, {}, s.specs, a + 1);
    var next := a + 1 + |s.specs|;
    EmptyIsBelow(a + 1);
    RewriteIsBelow(Live(map[], map[]), s.settings, {}, s.specs, a + 1);
    var added := db.(definitions := db.definitions[a := Definition(live, None, s.guard)], nextId := next);
    DefineKeeps(db, Definition(live, None, s.guard), next);
    if s.snapshot {
      var v :| Snapshots(added, a, parent, after, v);
      SnapshotKeeps(added, a, parent, after, v);
      ExtendsTwice(db, added, after);
    }
  }

  lemma EmptyIsBelow(next: nat)
    ensures Below(Live(map[], map[]), next)
  {}

  lemma EditKeeps(db: Db, s: Step, parent: Option<nat>, after: Db)
    requires Inv(db) && s.Edit? && s.a in db.definitions && Edits(db, s, parent, after)
    ensures Inv(after) && Extends(db, after)
  {
    hide Inv, Extends, Below;
    var live := Rewrite(db.definitions[s.a].live, s.settings, s.dropped, s.specs, db.nextId);
    LiveIsBelow(db, s.a);
    RewriteIsBelow(db.definitions[s.a].live, s.settings, s.dropped, s.specs, db.nextId);
    var rewritten := WithLive(db, s.a, live, db.nextId + |s.specs|);
    LiveKeeps(db, s.a, live, db.nextId + |s.specs|);
    var v :| Snapshots(rewritten, s.a, parent, after, v);
    SnapshotKeeps(rewritten, s.a, parent, after, v);
    ExtendsTwice(db, rewritten, after);
  }

  lemma DispatchKeeps(db: Db, r: nat, parent: Option<nat>, after: Db)
    requires Inv(db) && r in db.runs && db.runs[r].automation in db.definitions && Dispatches(db, r, parent, after)
    ensures Inv(after) && Extends(db, after)
    ensures r in after.runs && after.runs[r].version.Some?
  {
    hide Inv, Extends;
    var a := db.runs[r].automation;
    var head := db.definitions[a].head;
    ExtendsItself(db);
    if db.runs[r].version.None? {
      if head.Some? && head.value in db.versions {
        HeadIsOwn(db, a);
        BoundKeeps(db, r, head.value);
      } else {
        var mid, v :| Snapshots(db, a, parent, mid, v) && r in mid.runs && after == Bound(mid, r, v);
        SnapshotKeeps(db, a, parent, mid, v);
        BoundKeeps(mid, r, v);
        ExtendsTwice(db, mid, after);
      }
    }
  }

  /** What an auto-apply goes through: the proposal row, the attempt, and the counter. */
  lemma ProposeUnfolds(db: Db, q: Request, parent: Option<nat>, after: Db)
      returns (mid: Db, r: Result<nat, ApplyError>)
    requires q.automation in db.definitions && Proposes(db, q, parent, after) && Attempts(db, q)
    ensures Applies(Submit(db, q), db.nextId, q.user, parent, mid, r) && q.automation in mid.definitions
    ensures after == if r.Ok? then Counted(mid, q.automation, q.stamp) else mid
  {
    mid, r :|
      && Applies(Submit(db, q), db.nextId, q.user, parent, mid, r)
      && q.automation in mid.definitions
      && after == if r.Ok? then Counted(mid, q.automation, q.stamp) else mid;
  }

  /** The proposal is new and everything lets it be applied at once. */
  ghost predicate Attempts(db: Db, q: Request)
    requires q.automation in db.definitions
  {
    && (q.user.Some? || q.run.Some?)
    && (!exists p :: Duplicate(db, p, q.automation, BaseOf(db, q), q.payload))
    && AutoApplies(db.definitions[q.automation].guard, q.payload, q.run.Some?, q.now, q.policyAllows)
  }

  lemma ProposeKeeps(db: Db, q: Request, parent: Option<nat>, after: Db)
    requires Inv(db) && q.automation in db.definitions && Proposes(db, q, parent, after)
    ensures Inv(after) && Extends(db, after)
  {
    hide Inv, Extends, Applies;
    var open := Submit(db, q);
    SubmitKeeps(db, q);
    ExtendsItself(db);
    if Attempts(db, q) {
      var mid, r := ProposeUnfolds(db, q, parent, after);
      ApplyKeeps(open, db.nextId, q.user, parent, mid, r);
      if r.Ok? {
        CountedKeeps(mid, q.automation, q.stamp);
        ExtendsTwice(open, mid, after);
      }
      ExtendsTwice(db, open, after);
    }
  }

  lemma ApproveKeeps(db: Db, p: nat, approver: int, parent: Option<nat>, after: Db)
    requires Inv(db) && p in db.proposals && db.proposals[p].automation in db.definitions
    requires Approves(db, p, approver, parent, after)
    ensures Inv(after) && Extends(db, after)
  {
    hide Inv, Extends, Applies;
    var a := db.proposals[p].automation;
    ExtendsItself(db);
    if db.proposals[p].status == Submitted {
      var mid, r :| Applies(db, p, Some(approver), parent, mid, r) && a in mid.definitions
                    && after == if r.Ok? then Reset(mid, a) else db;
      ApplyKeeps(db, p, Some(approver), parent, mid, r);
      ResetKeeps(mid, a);
      if r.Ok? { ExtendsTwice(db, mid, after); }
    }
  }

  lemma StepKeepsInv(db: Db, s: Step, parent: Option<nat>, after: Db)
    requires Inv(db) && Next(db, s, parent, after)
    ensures Inv(after) && Extends(db, after)
  {
    hide Inv, Extends, Creates, Edits, Dispatches, Proposes, Approves, Decided;
    match s
    case Create(_, _, _, _) => CreateKeeps(db, s, parent, after);
    case Edit(_, _, _, _) => EditKeeps(db, s, parent, after);
    case Dispatch(r) => DispatchKeeps(db, r, parent, after);
    case Propose(q) => ProposeKeeps(db, q, parent, after);
    case Approve(p, approver) => ApproveKeeps(db, p, approver, parent, after);
    case LoseRace(a, v) => HeadKeeps(db, a, v);
    case Amend(lives) => AmendKeeps(db, lives);
    case StartRun(a) => StartKeeps(db, a);
    case Reject(p) => DecidedKeeps(db, p, Rejected);
    case Withdraw(p) => DecidedKeeps(db, p, Withdrawn);
  }

  // ---------------------------------------------------------------------
  // Whole runs
  // ---------------------------------------------------------------------

  ghost predicate Moves(db: Db, s: Step, after: Db) {
    exists parent :: Next(db, s, parent, after)
  }

  /** `dbs` are the states before, between and after the steps. */
  ghost predicate RunOf(dbs: seq<Db>, steps: seq<Step>) {
    |dbs| == |steps| + 1 && forall k :: 0 <= k < |steps| ==> Moves(dbs[k], steps[k], dbs[k + 1])
  }

  const EMPTY: Db := Db(map[], map[], map[], map[], 0)

  /**
    * From a state that satisfies the invariant, such as the empty one, every run keeps it and
    * only adds to the record between any two moments.
    */
  lemma {:induction false} EveryRunKeepsHistory(dbs: seq<Db>, steps: seq<Step>, i: nat, j: nat)
    requires RunOf(dbs, steps) && Inv(dbs[0]) && i <= j < |dbs|
    ensures Inv(dbs[j]) && Inv(dbs[i]) && Extends(dbs[i], dbs[j])
    decreases j
  {
    hide Inv, Extends, Next;
    ExtendsItself(dbs[j]);
    if i < j {
      EveryRunKeepsHistory(dbs, steps, i, j - 1);
      assert Moves(dbs[j - 1], steps[j - 1], dbs[j]);
      var parent :| Next(dbs[j - 1], steps[j - 1], parent, dbs[j]);
      StepKeepsInv(dbs[j - 1], steps[j - 1], parent, dbs[j]);
      ExtendsTwice(dbs[i], dbs[j - 1], dbs[j]);
    } else if j > 0 {
      EveryRunKeepsHistory(dbs, steps, j - 1, j - 1);
      assert Moves(dbs[j - 1], steps[j - 1], dbs[j]);
      var parent :| Next(dbs[j - 1], steps[j - 1], parent, dbs[j]);
      StepKeepsInv(dbs[j - 1], steps[j - 1], parent, dbs[j]);
    }
  }

  // Where every run may start: tables with nothing in them.
  lemma EmptyIsFine()
    ensures Inv(EMPTY)
  {}

  /** Once a run is bound, the steps it executes are the same at every later moment. */
  lemma BoundPayloadNeverChanges(dbs: seq<Db>, steps: seq<Step>, i: nat, j: nat, r: nat)
    requires RunOf(dbs, steps) && Inv(dbs[0]) && i <= j < |dbs|
    requires r in dbs[i].runs && dbs[i].runs[r].version.Some?
    ensures r in dbs[j].runs && dbs[j].runs[r] == dbs[i].runs[r]
    ensures var v := dbs[i].runs[r].version.value;
            v in dbs[i].versions && v in dbs[j].versions && dbs[j].versions[v] == dbs[i].versions[v]
  {
    EveryRunKeepsHistory(dbs, steps, i, j);
  }

  // ---------------------------------------------------------------------
  // The version graph
  // ---------------------------------------------------------------------

  /** A version followed by its ancestors, newest first. */
  ghost function Ancestry(versions: map<nat, Version>, v: nat): seq<nat>
    requires LineageHolds(versions) && v in versions
    decreases v
  {
    assert Descends(versions, v);
    [v] + match versions[v].parent
          case None => []
          case Some(q) => Ancestry(versions, q)
  }

  /**
    * The graph is acyclic: an ancestry ends at a root, holds one version per generation of the
    * same automation, and so has exactly as many members as the generation says.
    */
  lemma {:induction false} AncestryCountsGenerations(versions: map<nat, Version>, v: nat)
    requires LineageHolds(versions) && v in versions
    ensures |Ancestry(versions, v)| == versions[v].generation
    ensures forall k :: 0 <= k < |Ancestry(versions, v)| ==>
              OfAutomation(versions, Ancestry(versions, v)[k], versions[v].automation)
    ensures forall k :: 0 <= k < |Ancestry(versions, v)| ==>
              var w := Ancestry(versions, v)[k];
              w in versions && versions[w].generation == versions[v].generation - k
    decreases v
  {
    assert Descends(versions, v);
    if versions[v].parent.Some? {
      AncestryCountsGenerations(versions, versions[v].parent.value);
    }
  }

  /** No automation has two versions with one generation number. */
  ghost predicate Numbered(versions: map<nat, Version>) {
    forall v, w | v in versions && w in versions && versions[v].automation == versions[w].automation
                  && versions[v].generation == versions[w].generation :: v == w
  }

  /** Every generation from one up to a version's own is taken by one of its ancestors. */
  lemma GenerationIsTaken(versions: map<nat, Version>, v: nat, g: int) returns (w: nat)
    requires LineageHolds(versions) && v in versions && 1 <= g <= versions[v].generation
    ensures OfAutomation(versions, w, versions[v].automation) && versions[w].generation == g
  {
    AncestryCountsGenerations(versions, v);
    w := Ancestry(versions, v)[versions[v].generation - g];
  }

  /**
    * Generation numbers stay unique exactly when the writer read a newest version as the parent.
    * Nothing in the schema enforces that: only the snapshot hash is unique.
    */
  lemma NumberingIffNewestParent(versions: map<nat, Version>, v: nat, row: Version)
    requires LineageHolds(versions) && Numbered(versions) && v !in versions
    requires ParentRead(versions, row.automation, row.parent) && row.generation == NextGeneration(versions, row.parent)
    ensures Numbered(versions[v := row]) <==> Newest(versions, row.automation, row.parent)
  {
    hide LineageHolds;
    var grown := versions[v := row];
    if row.parent.Some? { AncestryCountsGenerations(versions, row.parent.value); }
    if !Newest(versions, row.automation, row.parent) {
      var high :| OfAutomation(versions, high, row.automation)
                  && !(row.parent.Some? && versions[high].generation <= versions[row.parent.value].generation);
      AncestryCountsGenerations(versions, high);
      var w := GenerationIsTaken(versions, high, row.generation);
      assert w in grown && grown[w] == versions[w] && grown[v] == row && w != v;
    } else {
      forall w | w in versions && versions[w].automation == row.automation
        ensures versions[w].generation != row.generation
      {
        assert OfAutomation(versions, w, row.automation);
      }
    }
  }

  // ---------------------------------------------------------------------
  // Reuse of versions
  // ---------------------------------------------------------------------

  lemma MaterialisedRows(live: Live, p: Payload, next: nat)
    requires Parses(p)
    ensures Materialised(live, p, next) == Live(live.settings + p.settings, Inserted(next, Specs(p)))
  {
    var kept := Kept(live.rows, EVERY_CLASS);
    assert kept == map[] by {
      forall id | id in kept ensures false { var c := ClassOf(live.rows[id]); }
    }
  }

  lemma NoVersionHasFreshRows(db: Db, w: nat, a: nat, live: Live, id: nat)
    requires Inv(db) && id in live.rows && db.nextId <= id
    ensures !Holds(db.versions, w, a, live)
  {
    if w in db.versions { assert Below(db.versions[w].snapshot, db.nextId); }
  }

  /**
    * Applying a proposal gives every child row a new id and ids are part of the snapshot, so an
    * older version is found again only by a proposal that has no child rows at all.
    */
  lemma AppliedReusesIff(db: Db, p: nat, actor: Option<int>, parent: Option<nat>, after: Db, v: nat)
    requires Inv(db) && p in db.proposals && db.proposals[p].automation in db.definitions
    requires Applies(db, p, actor, parent, after, Ok(v))
    ensures var q := db.proposals[p];
            v in db.versions <==>
              Specs(q.payload) == []
              && exists w :: Holds(db.versions, w, q.automation,
                                   Live(db.definitions[q.automation].live.settings + q.payload.settings, map[]))
  {
    hide Inv, Materialised, Specs, Parses;
    var q := db.proposals[p];
    var a := q.automation;
    var specs := Specs(q.payload);
    var live := Materialised(db.definitions[a].live, q.payload, db.nextId);
    MaterialisedRows(db.definitions[a].live, q.payload, db.nextId);
    var rewritten := WithLive(db, a, live, db.nextId + |specs|);
    var mid :| Snapshots(rewritten, a, parent, mid, v) && after == Closed(mid, p, v);
    if specs == [] {
      FreshIds(db);
    } else {
      assert db.nextId in live.rows;
      forall w ensures !Holds(db.versions, w, a, live) { NoVersionHasFreshRows(db, w, a, live, db.nextId); }
      NotInVersions(db, db.nextId + |specs|);
    }
  }

  lemma NotInVersions(db: Db, v: nat)
    requires Inv(db) && db.nextId <= v
    ensures v !in db.versions
  {}

  /** Editing settings and then restoring them brings the head back to the version it had. */
  lemma RestoringSettingsRestoresTheHead(
    db: Db, a: nat, there: map<Setting, int>, back: map<Setting, int>,
    p0: Option<nat>, mid: Db, p1: Option<nat>, after: Db)
    requires Inv(db) && a in db.definitions && HeadIsLive(db, a) && db.definitions[a].head.Some?
    requires db.definitions[a].live.settings + there + back == db.definitions[a].live.settings
    requires Next(db, Edit(a, there, {}, []), p0, mid) && Next(mid, Edit(a, back, {}, []), p1, after)
    ensures a in after.definitions && after.definitions[a].head == db.definitions[a].head &&
            after.versions == mid.versions
  {
    var live := db.definitions[a].live;
    var head := db.definitions[a].head.value;
    EditWithoutRows(db, a, there, p0, mid);
    EditWithoutRows(mid, a, back, p1, after);
    assert Live(live.settings + there + back, live.rows) == live;
    assert Holds(mid.versions, head, a, live);
    assert SnapshotsAreUnique(after.versions) && Holds(after.versions, head, a, live);
  }

  /** An edit that replaces no list snapshots the same rows under the new settings. */
  lemma EditWithoutRows(db: Db, a: nat, settings: map<Setting, int>, parent: Option<nat>, after: Db)
    requires Inv(db) && a in db.definitions && Next(db, Edit(a, settings, {}, []), parent, after)
    ensures Inv(after) && Extends(db, after) && a in after.definitions
    ensures after.definitions[a].live == Live(db.definitions[a].live.settings + settings, db.definitions[a].live.rows)
    ensures after.definitions[a].head.Some?
    ensures Holds(after.versions, after.definitions[a].head.value, a, after.definitions[a].live)
    ensures (exists w :: Holds(db.versions, w, a, after.definitions[a].live)) ==> after.versions == db.versions
  {
    hide Inv, Extends;
    var live := db.definitions[a].live;
    var rewritten := Rewrite(live, settings, {}, [], db.nextId);
    assert rewritten == Live(live.settings + settings, live.rows);
    EditKeeps(db, Edit(a, settings, {}, []), parent, after);
    LiveIsBelow(db, a);
    assert live.settings + settings == rewritten.settings;
    LiveKeeps(db, a, rewritten, db.nextId);
    var v :| Snapshots(WithLive(db, a, rewritten, db.nextId), a, parent, after, v);
    SnapshotKeeps(WithLive(db, a, rewritten, db.nextId), a, parent, after, v);
  }

  // ---------------------------------------------------------------------
  // The head and the live rows
  // ---------------------------------------------------------------------

  /** The head version is a snapshot of what is live. */
  predicate HeadIsLive(db: Db, a: nat)
    requires a in db.definitions
  {
    var d := db.definitions[a];
    d.head.Some? ==> Holds(db.versions, d.head.value, a, d.live)
  }

  ghost predicate AllHeadsLive(db: Db) {
    forall a | a in db.definitions :: HeadIsLive(db, a)
  }

  /** What a payload writes before it fails differs from what is live: a setting changes, or the actions are reached and
      there are some to delete or a first one to insert. */
  ghost predicate Touches(live: Live, p: Payload)
    requires p.actions != []
  {
    || live.settings + Written(p) != live.settings
    || (p.tierParses && (ActionOf(p.actions[0]).Some? || exists id :: id in live.rows && live.rows[id].ActionRow?))
  }

  /** An auto-apply that starts, fails on a part of the payload it cannot read, and has changed something by then. */
  ghost predicate Stranded(db: Db, q: Request)
    requires q.automation in db.definitions
  {
    && q.user.Some? && db.definitions[q.automation].head.Some?
    && (!exists p :: Duplicate(db, p, q.automation, BaseOf(db, q), q.payload))
    && AutoApplies(db.definitions[q.automation].guard, q.payload, q.run.Some?, q.now, q.policyAllows)
    && !Parses(q.payload) && Touches(db.definitions[q.automation].live, q.payload)
  }

  /** Heads stay live when neither definitions nor versions are touched. */
  lemma HeadsCarryOver(db: Db, after: Db)
    requires AllHeadsLive(db)
    requires forall v | v in db.versions :: v in after.versions && after.versions[v] == db.versions[v]
    requires after.definitions.Keys == db.definitions.Keys
    requires forall b | b in after.definitions ::
      after.definitions[b].live == db.definitions[b].live && after.definitions[b].head == db.definitions[b].head
    ensures AllHeadsLive(after)
  {
    forall b | b in after.definitions ensures HeadIsLive(after, b) { assert HeadIsLive(db, b); }
  }

  /** `before` may differ from `db` in the live rows of `a`, which the snapshot then captures. */
  lemma SnapshotMakesHeadLive(db: Db, before: Db, a: nat, parent: Option<nat>, after: Db, v: nat)
    requires AllHeadsLive(db) && Inv(before) && before.versions == db.versions
    requires forall b | b in before.definitions && b != a ::
               b in db.definitions && before.definitions[b] == db.definitions[b]
    requires a in before.definitions && Snapshots(before, a, parent, after, v)
    ensures AllHeadsLive(after)
  {
    hide Inv;
    SnapshotKeeps(before, a, parent, after, v);
    forall b | b in after.definitions ensures HeadIsLive(after, b) {
      if b != a { assert HeadIsLive(db, b); }
    }
  }

  lemma ApplyHeads(db: Db, p: nat, actor: Option<int>, parent: Option<nat>, after: Db, r: Result<nat, ApplyError>)
    requires Inv(db) && AllHeadsLive(db)
    requires p in db.proposals && db.proposals[p].automation in db.definitions && db.proposals[p].status == Submitted
    requires Applies(db, p, actor, parent, after, r)
    ensures r.Ok? || r == Err(Unauthorised) ==> AllHeadsLive(after)
    ensures r == Err(BadPayload) && db.proposals[p].payload.actions != [] ==>
              var d := db.definitions[db.proposals[p].automation];
              (AllHeadsLive(after) <==> d.head.None? || !Touches(d.live, db.proposals[p].payload))
  {
    hide Inv, AllHeadsLive, Materialised;
    var q := db.proposals[p];
    var a := q.automation;
    var live := Materialised(db.definitions[a].live, q.payload, db.nextId);
    var next := db.nextId + |Specs(q.payload)|;
    var rewritten := WithLive(db, a, live, next);
    if r.Ok? {
      LiveIsBelow(db, a);
      MaterialisedIsBelow(db, a, q.payload);
      LiveKeeps(db, a, live, next);
      var mid :| Snapshots(rewritten, a, parent, mid, r.value) && after == Closed(mid, p, r.value);
      SnapshotMakesHeadLive(db, rewritten, a, parent, mid, r.value);
      HeadsCarryOver(mid, after);
    } else if r == Err(BadPayload) && q.payload.actions != [] {
      PartialRowsAreSeen(db, a, q.payload);
    }
  }

  lemma MaterialisedIsBelow(db: Db, a: nat, p: Payload)
    requires Inv(db) && a in db.definitions
    ensures Below(Materialised(db.definitions[a].live, p, db.nextId), db.nextId + |Specs(p)|)
  {
    RewriteIsBelow(db.definitions[a].live, Written(p), Dropped(p), Specs(p), db.nextId);
  }

  // Inserting a row under a new id, or deleting one, changes the rows.
  lemma RewriteTouches(live: Live, settings: map<Setting, int>, dropped: set<RowClass>, specs: seq<Row>, next: nat)
    requires Below(live, next)
    ensures Rewrite(live, settings, dropped, specs, next) != live <==>
              live.settings + settings != live.settings || specs != []
              || exists id :: id in live.rows && ClassOf(live.rows[id]) in dropped
  {
    var after := Rewrite(live, settings, dropped, specs, next);
    if specs != [] {
      assert next in after.rows && next !in live.rows;
    } else if id :| id in live.rows && ClassOf(live.rows[id]) in dropped {
      assert id in live.rows && id !in after.rows;
    } else {
      assert after.rows == live.rows;
    }
  }

  /** The partial rewrite of a payload with actions that does not parse changes something exactly when it touches. */
  lemma TouchesIff(live: Live, p: Payload, next: nat)
    requires Below(live, next) && p.actions != [] && !Parses(p)
    ensures Materialised(live, p, next) != live <==> Touches(live, p)
  {
    hide Rewrite, Below;
    RewriteTouches(live, Written(p), Dropped(p), Specs(p), next);
    var items := Items(p, Actions);
    assert items[0] == ActionOf(p.actions[0]) && |items| == |p.actions|;
    assert Leading(items) == [] <==> items[0].None?;
    if p.tierParses && Specs(p) == [] {
      assert Leading(items) == [] && Dropped(p) == {Actions};
    }
  }

  lemma PartialRowsAreSeen(db: Db, a: nat, p: Payload)
    requires Inv(db) && AllHeadsLive(db) && a in db.definitions && p.actions != [] && !Parses(p)
    ensures var live := Materialised(db.definitions[a].live, p, db.nextId);
            AllHeadsLive(WithLive(db, a, live, db.nextId + |Specs(p)|)) <==>
              db.definitions[a].head.None? || !Touches(db.definitions[a].live, p)
  {
    hide Inv, Materialised, Touches, Parses, Specs;
    var live := Materialised(db.definitions[a].live, p, db.nextId);
    LiveIsBelow(db, a);
    TouchesIff(db.definitions[a].live, p, db.nextId);
    var after := WithLive(db, a, live, db.nextId + |Specs(p)|);
    assert HeadIsLive(db, a);
    if db.definitions[a].head.Some? && live != db.definitions[a].live {
      assert !HeadIsLive(after, a);
    } else {
      forall b | b in after.definitions ensures HeadIsLive(after, b) { assert HeadIsLive(db, b); }
    }
  }

  lemma ProposeHeads(db: Db, q: Request, parent: Option<nat>, after: Db)
    requires Inv(db) && AllHeadsLive(db) && q.automation in db.definitions && Proposes(db, q, parent, after)
    ensures AllHeadsLive(after) <==> !Stranded(db, q)
  {
    hide Inv, AllHeadsLive, Applies, Guards.Cooling, Guards.Exhausted, Duplicate;
    var open := Submit(db, q);
    SubmitKeeps(db, q);
    HeadsCarryOver(db, open);
    if Attempts(db, q) {
      var mid, r := ProposeUnfolds(db, q, parent, after);
      assert open.proposals[db.nextId].payload == q.payload && open.proposals[db.nextId].user == q.user;
      ApplyHeads(open, db.nextId, q.user, parent, mid, r);
      ApplyKeeps(open, db.nextId, q.user, parent, mid, r);
      RefusalReason(open, db.nextId, q.user, parent, mid, r);
      if r.Ok? { HeadsCarryOver(mid, after); }
    }
  }

  lemma RefusalReason(db: Db, p: nat, actor: Option<int>, parent: Option<nat>, after: Db, r: Result<nat, ApplyError>)
    requires p in db.proposals && db.proposals[p].automation in db.definitions
    requires Applies(db, p, actor, parent, after, r)
    ensures r == Err(Unauthorised) <==> actor.None? && db.proposals[p].user.None?
    ensures r == Err(BadPayload) <==> (actor.Some? || db.proposals[p].user.Some?) && !Parses(db.proposals[p].payload)
  {}

  /** What parts a head from its live definition: an auto-apply that fails half way, whose partial writes are committed
      under the old head; an edit that loses a race to other content; and a write past the snapshot that changes a
      definition with a head. */
  ghost predicate PartsHeads(db: Db, s: Step) {
    match s
    case Propose(q) => q.automation in db.definitions && Stranded(db, q)
    case LoseRace(a, v) => a in db.definitions && !Holds(db.versions, v, a, db.definitions[a].live)
    case Amend(lives) =>
      exists a :: a in lives && a in db.definitions
                  && db.definitions[a].head.Some? && lives[a] != db.definitions[a].live
    case _ => false
  }

  /** A step keeps every head equal to its live definition exactly when it is none of these. */
  lemma StepKeepsHeadsLiveIff(db: Db, s: Step, parent: Option<nat>, after: Db)
    requires Inv(db) && AllHeadsLive(db) && Next(db, s, parent, after)
    ensures AllHeadsLive(after) <==> !PartsHeads(db, s)
  {
    hide Inv, AllHeadsLive, Creates, Edits, Dispatches, Proposes, Approves;
    match s
    case Create(_, _, _, _) => CreateHeads(db, s, parent, after);
    case Edit(_, _, _, _) => EditHeads(db, s, parent, after);
    case Dispatch(r) => DispatchHeads(db, r, parent, after);
    case Propose(q) => ProposeHeads(db, q, parent, after);
    case Approve(p, approver) => ApproveHeads(db, p, approver, parent, after);
    case LoseRace(a, v) => RaceHeads(db, a, v);
    case Amend(lives) => AmendHeads(db, lives);
    case StartRun(_) => HeadsCarryOver(db, after);
    case Reject(_) => HeadsCarryOver(db, after);
    case Withdraw(_) => HeadsCarryOver(db, after);
  }

  lemma RaceHeads(db: Db, a: nat, v: nat)
    requires AllHeadsLive(db) && a in db.definitions && OfAutomation(db.versions, v, a)
    ensures AllHeadsLive(WithHead(db, a, v)) <==> Holds(db.versions, v, a, db.definitions[a].live)
  {
    var after := WithHead(db, a, v);
    if Holds(db.versions, v, a, db.definitions[a].live) {
      forall b | b in after.definitions ensures HeadIsLive(after, b) { assert HeadIsLive(db, b); }
    } else {
      assert !HeadIsLive(after, a);
    }
  }

  lemma AmendHeads(db: Db, lives: map<nat, Live>)
    requires AllHeadsLive(db) && Amends(db, lives)
    ensures AllHeadsLive(Amended(db, lives)) <==> !PartsHeads(db, Amend(lives))
  {
    var after := Amended(db, lives);
    if PartsHeads(db, Amend(lives)) {
      var a :| a in lives && a in db.definitions
               && db.definitions[a].head.Some? && lives[a] != db.definitions[a].live;
      assert HeadIsLive(db, a) && !HeadIsLive(after, a);
    } else {
      forall a | a in after.definitions ensures HeadIsLive(after, a) { assert HeadIsLive(db, a); }
    }
  }

  /** Over a whole run: at every moment every head is live exactly when none of its steps parts one. */
  lemma {:induction false} RunKeepsHeadsLiveIff(dbs: seq<Db>, steps: seq<Step>)
    requires RunOf(dbs, steps) && Inv(dbs[0]) && AllHeadsLive(dbs[0])
    ensures (forall k :: 0 <= k < |dbs| ==> AllHeadsLive(dbs[k])) <==>
            (forall k :: 0 <= k < |steps| ==> !PartsHeads(dbs[k], steps[k]))
  {
    hide Inv, AllHeadsLive, PartsHeads, Next;
    if forall k :: 0 <= k < |steps| ==> !PartsHeads(dbs[k], steps[k]) {
      forall k | 0 <= k < |dbs| ensures AllHeadsLive(dbs[k]) { HeadsLiveUpTo(dbs, steps, k); }
    } else {
      var k :| 0 <= k < |steps| && PartsHeads(dbs[k], steps[k]);
      if AllHeadsLive(dbs[k]) { OneStepOfRun(dbs, steps, k); }
      assert !AllHeadsLive(dbs[k]) || !AllHeadsLive(dbs[k + 1]);
    }
  }

  lemma OneStepOfRun(dbs: seq<Db>, steps: seq<Step>, k: nat)
    requires RunOf(dbs, steps) && Inv(dbs[0]) && k < |steps| && AllHeadsLive(dbs[k])
    ensures AllHeadsLive(dbs[k + 1]) <==> !PartsHeads(dbs[k], steps[k])
  {
    hide Inv, AllHeadsLive, PartsHeads, Next;
    EveryRunKeepsHistory(dbs, steps, k, k);
    assert Moves(dbs[k], steps[k], dbs[k + 1]);
    var parent :| Next(dbs[k], steps[k], parent, dbs[k + 1]);
    StepKeepsHeadsLiveIff(dbs[k], steps[k], parent, dbs[k + 1]);
  }

  lemma {:induction false} HeadsLiveUpTo(dbs: seq<Db>, steps: seq<Step>, k: nat)
    requires RunOf(dbs, steps) && Inv(dbs[0]) && AllHeadsLive(dbs[0]) && k < |dbs|
    requires forall i :: 0 <= i < |steps| ==> !PartsHeads(dbs[i], steps[i])
    ensures AllHeadsLive(dbs[k])
    decreases k
  {
    hide Inv, AllHeadsLive, PartsHeads, Next;
    if k > 0 {
      HeadsLiveUpTo(dbs, steps, k - 1);
      OneStepOfRun(dbs, steps, k - 1);
    }
  }

  const CREATED_LIVE: Live := Live(map[Contract := 0], map[])
  const RESCOPED_LIVE: Live := Live(map[Contract := 1], map[])

  /** A run from the empty tables: an automation is created with its first version, then an approval answer rescopes its
      contract. The live contract is no longer the one the head holds. */
  lemma RescopingPartsTheHead(guard: Guards.Guard) returns (dbs: seq<Db>, steps: seq<Step>)
    requires FreshGuard(guard)
    ensures RunOf(dbs, steps) && dbs[0] == EMPTY && |steps| == 2 && Inv(dbs[2])
    ensures steps[1] == Amend(map[0 := RESCOPED_LIVE])
    ensures AllHeadsLive(dbs[1]) && !AllHeadsLive(dbs[2])
    ensures 0 in dbs[2].definitions && dbs[2].definitions[0].live == RESCOPED_LIVE
    ensures dbs[2].definitions[0].head == Some(1) && Holds(dbs[2].versions, 1, 0, CREATED_LIVE)
  {
    var made := Create(map[Contract := 0], [], guard, true);
    var added := Db(map[], map[0 := Definition(CREATED_LIVE, None, guard)], map[], map[], 1);
    var one := Appended(added, 0, None);
    var two := Amended(one, map[0 := RESCOPED_LIVE]);
    var amend := Amend(map[0 := RESCOPED_LIVE]);
    CreatedFirst(guard, added, one);
    assert Next(one, amend, None, two);
    hide Next, Inv;
    dbs, steps := [EMPTY, one, two], [made, amend];
    assert Moves(dbs[0], steps[0], dbs[1]) && Moves(dbs[1], steps[1], dbs[2]);
    EmptyIsFine();
    EveryRunKeepsHistory(dbs, steps, 2, 2);
    hide RunOf;
    assert CREATED_LIVE.settings[Contract] != RESCOPED_LIVE.settings[Contract];
    assert HeadIsLive(one, 0) && !HeadIsLive(two, 0);
  }

  lemma CreatedFirst(guard: Guards.Guard, added: Db, one: Db)
    requires FreshGuard(guard)
    requires added == Db(map[], map[0 := Definition(CREATED_LIVE, None, guard)], map[], map[], 1)
    requires one == Appended(added, 0, None)
    ensures Next(EMPTY, Create(map[Contract := 0], [], guard, true), None, one)
  {
    var s := Create(map[Contract := 0], [], guard, true);
    var live := Rewrite(Live(map[], map[]), s.settings, {}, s.specs, EMPTY.nextId + 1);
    assert live == CREATED_LIVE;
    assert added == EMPTY.(definitions := EMPTY.definitions[0 := Definition(live, None, guard)], nextId := 1);
    assert Snapshots(added, EMPTY.nextId, None, one, 1) by {
      forall w ensures !Holds(added.versions, w, 0, CREATED_LIVE) {}
    }
    assert Creates(EMPTY, s, None, one);
  }

  lemma CreateHeads(db: Db, s: Step, parent: Option<nat>, after: Db)
    requires Inv(db) && AllHeadsLive(db) && s.Create? && Creates(db, s, parent, after)
    ensures AllHeadsLive(after)
  {
    hide Inv, Below, Snapshots, Rewrite;
    var a := db.nextId;
    var live := Rewrite(Live(map[], map[]), s.settings, {}, s.specs, a + 1);
    EmptyIsBelow(a + 1);
    RewriteIsBelow(Live(map[], map[]), s.settings, {}, s.specs, a + 1);
    var added := db.(definitions := db.definitions[a := Definition(live, None, s.guard)], nextId := a + 1 + |s.specs|);
    DefineKeeps(db, Definition(live, None, s.guard), a + 1 + |s.specs|);
    if s.snapshot {
      var v :| Snapshots(added, a, parent, after, v);
      SnapshotMakesHeadLive(db, added, a, parent, after, v);
    } else {
      forall b | b in after.definitions ensures HeadIsLive(after, b) { assert b != a ==> HeadIsLive(db, b); }
    }
  }

  lemma EditHeads(db: Db, s: Step, parent: Option<nat>, after: Db)
    requires Inv(db) && AllHeadsLive(db) && s.Edit? && s.a in db.definitions && Edits(db, s, parent, after)
    ensures AllHeadsLive(after)
  {
    hide Inv, Below, AllHeadsLive;
    var live := Rewrite(db.definitions[s.a].live, s.settings, s.dropped, s.specs, db.nextId);
    LiveIsBelow(db, s.a);
    RewriteIsBelow(db.definitions[s.a].live, s.settings, s.dropped, s.specs, db.nextId);
    var rewritten := WithLive(db, s.a, live, db.nextId + |s.specs|);
    LiveKeeps(db, s.a, live, db.nextId + |s.specs|);
    var v :| Snapshots(rewritten, s.a, parent, after, v);
    SnapshotMakesHeadLive(db, rewritten, s.a, parent, after, v);
  }

  lemma DispatchHeads(db: Db, r: nat, parent: Option<nat>, after: Db)
    requires Inv(db) && AllHeadsLive(db)
    requires r in db.runs && db.runs[r].automation in db.definitions && Dispatches(db, r, parent, after)
    ensures AllHeadsLive(after)
  {
    hide Inv, AllHeadsLive;
    var a := db.runs[r].automation;
    var head := db.definitions[a].head;
    if db.runs[r].version.None? && !(head.Some? && head.value in db.versions) {
      var mid, v :| Snapshots(db, a, parent, mid, v) && r in mid.runs && after == Bound(mid, r, v);
      SnapshotMakesHeadLive(db, db, a, parent, mid, v);
      HeadsCarryOver(mid, after);
    } else {
      HeadsCarryOver(db, after);
    }
  }

  lemma ApproveHeads(db: Db, p: nat, approver: int, parent: Option<nat>, after: Db)
    requires Inv(db) && AllHeadsLive(db)
    requires p in db.proposals && db.proposals[p].automation in db.definitions &&
             Approves(db, p, approver, parent, after)
    ensures AllHeadsLive(after)
  {
    hide Inv, AllHeadsLive, Applies;
    var a := db.proposals[p].automation;
    if db.proposals[p].status == Submitted {
      var mid, r :| Applies(db, p, Some(approver), parent, mid, r) && a in mid.definitions
                    && after == if r.Ok? then Reset(mid, a) else db;
      ApplyHeads(db, p, Some(approver), parent, mid, r);
      ApplyKeeps(db, p, Some(approver), parent, mid, r);
      if r.Ok? { HeadsCarryOver(mid, after); }
    }
  }

  // ---------------------------------------------------------------------
  // The guards over a run
  // ---------------------------------------------------------------------

  /** What a step does to the guard columns of automation `a`. */
  ghost function EventsOf(db: Db, s: Step, a: nat): seq<Guards.Event>
    requires a in db.definitions
  {
    if s.Propose? && s.request.automation == a && Attempts(db, s.request)
       && s.request.user.Some? && Parses(s.request.payload)
    then [Guards.AutoApply(s.request.now, s.request.stamp, s.request.run.Some?)]
    else if s.Approve? && s.p in db.proposals && db.proposals[s.p].automation == a
            && db.proposals[s.p].status == Submitted && Parses(db.proposals[s.p].payload)
    then [Guards.Approval]
    else []
  }

  lemma GuardEvent(g: Guards.Guard, e: Guards.Event)
    ensures Guards.Run(g, [e]) == Guards.After(g, e)
    ensures Guards.LegalRun(g, [e]) <==> Guards.Legal(g, e)
  {
    assert [e][..0] == [];
  }

  /** Snapshots do not touch the guards. */
  lemma SnapshotGuards(db: Db, a: nat, parent: Option<nat>, after: Db, v: nat)
    requires a in db.definitions && Snapshots(db, a, parent, after, v)
    ensures after.definitions.Keys == db.definitions.Keys
    ensures forall b | b in db.definitions :: after.definitions[b].guard == db.definitions[b].guard
  {}

  /** Every step moves the guard of an existing automation by the events it counts as. */
  lemma StepMovesGuard(db: Db, s: Step, parent: Option<nat>, after: Db, a: nat)
    requires Inv(db) && Next(db, s, parent, after) && a in db.definitions
    ensures a in after.definitions
    ensures after.definitions[a].guard == Guards.Run(db.definitions[a].guard, EventsOf(db, s, a))
    ensures Guards.LegalRun(db.definitions[a].guard, EventsOf(db, s, a))
  {
    hide Inv, Creates, Edits, Dispatches, Proposes, Approves, Guards.Run, Guards.LegalRun, EventsOf;
    NoEvents(db.definitions[a].guard);
    if !s.Propose? && !s.Approve? { QuietSteps(db, s, a); }
    match s
    case Create(_, _, _, _) => CreateGuards(db, s, parent, after);
    case Edit(_, _, _, _) => EditGuards(db, s, parent, after);
    case Dispatch(r) => DispatchGuards(db, r, parent, after);
    case Propose(q) => ProposeMovesGuard(db, q, parent, after, a);
    case Approve(p, approver) => ApproveMovesGuard(db, p, approver, parent, after, a);
    case LoseRace(_, _) =>
    case Amend(_) =>
    case StartRun(_) =>
    case Reject(_) =>
    case Withdraw(_) =>
  }

  /** Every definition of `db` is still there, with its guard untouched. */
  ghost predicate SameGuards(db: Db, after: Db) {
    forall a | a in db.definitions :: a in after.definitions && after.definitions[a].guard == db.definitions[a].guard
  }

  lemma CreateGuards(db: Db, s: Step, parent: Option<nat>, after: Db)
    requires Inv(db) && s.Create? && Creates(db, s, parent, after)
    ensures SameGuards(db, after)
  {
    hide Inv, Snapshots, Rewrite;
    FreshIds(db);
    var id := db.nextId;
    var live := Rewrite(Live(map[], map[]), s.settings, {}, s.specs, id + 1);
    var added := db.(definitions := db.definitions[id := Definition(live, None, s.guard)],
                     nextId := id + 1 + |s.specs|);
    if s.snapshot {
      var v :| Snapshots(added, id, parent, after, v);
      SnapshotGuards(added, id, parent, after, v);
    }
  }

  lemma EditGuards(db: Db, s: Step, parent: Option<nat>, after: Db)
    requires s.Edit? && s.a in db.definitions && Edits(db, s, parent, after)
    ensures SameGuards(db, after)
  {
    var live := Rewrite(db.definitions[s.a].live, s.settings, s.dropped, s.specs, db.nextId);
    var rewritten := WithLive(db, s.a, live, db.nextId + |s.specs|);
    var v :| Snapshots(rewritten, s.a, parent, after, v);
    SnapshotGuards(rewritten, s.a, parent, after, v);
  }

  lemma NoEvents(g: Guards.Guard)
    ensures Guards.Run(g, []) == g && Guards.LegalRun(g, [])
  {}

  lemma QuietSteps(db: Db, s: Step, a: nat)
    requires a in db.definitions && !s.Propose? && !s.Approve?
    ensures EventsOf(db, s, a) == []
  {}

  lemma DispatchGuards(db: Db, r: nat, parent: Option<nat>, after: Db)
    requires r in db.runs && db.runs[r].automation in db.definitions && Dispatches(db, r, parent, after)
    ensures SameGuards(db, after)
  {
    var a := db.runs[r].automation;
    var head := db.definitions[a].head;
    if db.runs[r].version.None? && !(head.Some? && head.value in db.versions) {
      var mid, v :| Snapshots(db, a, parent, mid, v) && r in mid.runs && after == Bound(mid, r, v);
      SnapshotGuards(db, a, parent, mid, v);
    }
  }

  lemma ProposeMovesGuard(db: Db, q: Request, parent: Option<nat>, after: Db, a: nat)
    requires Inv(db) && a in db.definitions && q.automation in db.definitions && q.now <= q.stamp
    requires Proposes(db, q, parent, after)
    ensures a in after.definitions
    ensures after.definitions[a].guard == Guards.Run(db.definitions[a].guard, EventsOf(db, Propose(q), a))
    ensures Guards.LegalRun(db.definitions[a].guard, EventsOf(db, Propose(q), a))
  {
    hide Inv, Applies, Guards.Run, Guards.LegalRun, Guards.Cooling, Guards.Exhausted;
    var g := db.definitions[a].guard;
    NoEvents(g);
    if Attempts(db, q) {
      var open := Submit(db, q);
      var mid, r := ProposeUnfolds(db, q, parent, after);
      SubmitKeeps(db, q);
      ApplyKeeps(open, db.nextId, q.user, parent, mid, r);
      assert open.proposals[db.nextId].payload == q.payload && open.proposals[db.nextId].user == q.user;
      GuardEvent(g, Guards.AutoApply(q.now, q.stamp, q.run.Some?));
    }
  }

  lemma ApproveMovesGuard(db: Db, p: nat, approver: int, parent: Option<nat>, after: Db, a: nat)
    requires Inv(db) && a in db.definitions && p in db.proposals && db.proposals[p].automation in db.definitions
    requires Approves(db, p, approver, parent, after)
    ensures a in after.definitions
    ensures after.definitions[a].guard == Guards.Run(db.definitions[a].guard, EventsOf(db, Approve(p, approver), a))
    ensures Guards.LegalRun(db.definitions[a].guard, EventsOf(db, Approve(p, approver), a))
  {
    hide Inv, Applies, Guards.Run, Guards.LegalRun;
    var g := db.definitions[a].guard;
    var b := db.proposals[p].automation;
    NoEvents(g);
    GuardEvent(g, Guards.Approval);
    if db.proposals[p].status == Submitted {
      var mid, r :| Applies(db, p, Some(approver), parent, mid, r) && b in mid.definitions
                    && after == if r.Ok? then Reset(mid, b) else db;
      ApplyKeeps(db, p, Some(approver), parent, mid, r);
    }
  }

  /** The guard events of automation `a` over a whole run that begins after it was created. */
  ghost function EventsOver(dbs: seq<Db>, steps: seq<Step>, a: nat): seq<Guards.Event>
    requires |dbs| == |steps| + 1
    requires forall k :: 0 <= k < |dbs| ==> a in dbs[k].definitions
  {
    var n := |steps|;
    if n == 0 then [] else EventsOver(dbs[..n], steps[..n - 1], a) + EventsOf(dbs[n - 1], steps[n - 1], a)
  }

  lemma {:induction false} RunMovesGuard(dbs: seq<Db>, steps: seq<Step>, a: nat)
    requires RunOf(dbs, steps) && Inv(dbs[0])
    requires forall k :: 0 <= k < |dbs| ==> a in dbs[k].definitions
    ensures dbs[|steps|].definitions[a].guard == Guards.Run(dbs[0].definitions[a].guard, EventsOver(dbs, steps, a))
    ensures Guards.LegalRun(dbs[0].definitions[a].guard, EventsOver(dbs, steps, a))
    decreases |steps|
  {
    hide Inv, EventsOf, Guards.Run, Guards.LegalRun;
    var n := |steps|;
    if n == 0 {
      NoEvents(dbs[0].definitions[a].guard);
    } else {
      assert RunOf(dbs[..n], steps[..n - 1]) by {
        forall k | 0 <= k < n - 1 ensures Moves(dbs[..n][k], steps[..n - 1][k], dbs[..n][k + 1]) {
          assert Moves(dbs[k], steps[k], dbs[k + 1]);
        }
      }
      RunMovesGuard(dbs[..n], steps[..n - 1], a);
      EveryRunKeepsHistory(dbs, steps, n - 1, n - 1);
      assert Moves(dbs[n - 1], steps[n - 1], dbs[n]);
      var parent :| Next(dbs[n - 1], steps[n - 1], parent, dbs[n]);
      StepMovesGuard(dbs[n - 1], steps[n - 1], parent, dbs[n], a);
      Guards.RunSplits(dbs[0].definitions[a].guard, EventsOver(dbs[..n], steps[..n - 1], a),
                       EventsOf(dbs[n - 1], steps[n - 1], a));
    }
  }

  lemma LimitsAreKept(db: Db, after: Db, a: nat)
    requires Inv(db) && Extends(db, after) && a in db.definitions
    ensures a in after.definitions && WithinBudget(db.definitions[a].guard)
  {}

  /** Definitions outlive every step, so a run keeps the ones it starts with. */
  lemma DefinitionsStay(dbs: seq<Db>, steps: seq<Step>, a: nat)
    requires RunOf(dbs, steps) && Inv(dbs[0]) && a in dbs[0].definitions
    ensures forall k :: 0 <= k < |dbs| ==> a in dbs[k].definitions
    ensures WithinBudget(dbs[0].definitions[a].guard)
  {
    hide Inv, Extends;
    forall k | 0 <= k < |dbs| ensures a in dbs[k].definitions {
      EveryRunKeepsHistory(dbs, steps, 0, k);
      LimitsAreKept(dbs[0], dbs[k], a);
    }
    EveryRunKeepsHistory(dbs, steps, 0, 0);
    LimitsAreKept(dbs[0], dbs[0], a);
  }

  /**
    * Over every run, between two human approvals at most `diff_budget_max` proposals of an
    * automation are applied without a human, when that limit is positive.
    */
  lemma AutoAppliesAreBudgeted(dbs: seq<Db>, steps: seq<Step>, a: nat, i: nat, j: nat)
    requires RunOf(dbs, steps) && Inv(dbs[0]) && a in dbs[0].definitions
    requires 0 < dbs[0].definitions[a].guard.budgetMax
    ensures forall k :: 0 <= k < |dbs| ==> a in dbs[k].definitions
    ensures var es := EventsOver(dbs, steps, a);
            i <= j <= |es| && Guards.NoApproval(es[i..j]) ==> j - i <= dbs[0].definitions[a].guard.budgetMax
  {
    hide Inv;
    DefinitionsStay(dbs, steps, a);
    RunMovesGuard(dbs, steps, a);
    var es := EventsOver(dbs, steps, a);
    if i <= j <= |es| && Guards.NoApproval(es[i..j]) {
      Guards.BudgetBoundsEdits(dbs[0].definitions[a].guard, es, i, j);
      Guards.CounterCounts(dbs[0].definitions[a].guard, es[i..j]);
    }
  }

  /** Over every run on one clock, N edits auto-applied for agent runs span at least N - 1 cooldowns. */
  lemma AgentEditsAreSpaced(dbs: seq<Db>, steps: seq<Step>, a: nat, first: nat, last: nat)
    requires RunOf(dbs, steps) && Inv(dbs[0]) && a in dbs[0].definitions
    requires 0 < dbs[0].definitions[a].guard.cooldown
    ensures forall k :: 0 <= k < |dbs| ==> a in dbs[k].definitions
    ensures var es := EventsOver(dbs, steps, a);
            Guards.OneClock(es) && Guards.Ends(es, first, last) ==>
              es[last].stampedAt - es[first].stampedAt
              >= (Guards.RunEdits(es) - 1) * (dbs[0].definitions[a].guard.cooldown * Guards.MICROS)
  {
    hide Inv, EventsOver, Guards.Run, Guards.LegalRun, Guards.RunEdits, Guards.OneClock;
    DefinitionsStay(dbs, steps, a);
    RunMovesGuard(dbs, steps, a);
    var es := EventsOver(dbs, steps, a);
    if Guards.OneClock(es) && Guards.Ends(es, first, last) {
      Guards.CooldownSpans(dbs[0].definitions[a].guard, es, first, last);
    }
  }

  /** A proposal that names only the agent run that wrote it is never applied automatically. */
  lemma AgentOnlyProposalsWait(db: Db, q: Request, parent: Option<nat>, after: Db)
    requires Inv(db) && q.automation in db.definitions && q.user.None? && Proposes(db, q, parent, after)
    ensures after == db || after == Submit(db, q)
  {
    hide Inv;
    if Attempts(db, q) {
      var mid, r := ProposeUnfolds(db, q, parent, after);
      RefusalReason(Submit(db, q), db.nextId, q.user, parent, mid, r);
      assert Submit(db, q).proposals[db.nextId].user.None?;
    }
  }

  // ---------------------------------------------------------------------
  // Guard events are applied proposals
  // ---------------------------------------------------------------------

  predicate IsApplied(db: Db, p: nat, a: nat) {
    p in db.proposals && db.proposals[p].automation == a && db.proposals[p].status == Applied
  }

  /** The proposals of automation `a` that a step turns into applied ones. */
  ghost function NewlyApplied(db: Db, after: Db, a: nat): set<nat> {
    set p | p in after.proposals && IsApplied(after, p, a) && !IsApplied(db, p, a)
  }

  lemma SnapshotProposals(db: Db, a: nat, parent: Option<nat>, after: Db, v: nat)
    requires a in db.definitions && Snapshots(db, a, parent, after, v)
    ensures after.proposals == db.proposals
  {}

  lemma ApplyProposals(db: Db, p: nat, actor: Option<int>, parent: Option<nat>, after: Db, r: Result<nat, ApplyError>)
    requires p in db.proposals && db.proposals[p].automation in db.definitions
    requires Applies(db, p, actor, parent, after, r)
    ensures r.Err? ==> after.proposals == db.proposals
    ensures r.Ok? ==>
            after.proposals == db.proposals[p := db.proposals[p].(status := Applied, applied := Some(r.value))]
  {
    hide Materialised, Parses;
    var q := db.proposals[p];
    if r.Ok? {
      var live := Materialised(db.definitions[q.automation].live, q.payload, db.nextId);
      var rewritten := WithLive(db, q.automation, live, db.nextId + |Specs(q.payload)|);
      var mid :| Snapshots(rewritten, q.automation, parent, mid, r.value) && after == Closed(mid, p, r.value);
      SnapshotProposals(rewritten, q.automation, parent, mid, r.value);
    }
  }

  /** A step counts as an auto-apply of automation `a` exactly when it applies the proposal it submits, as an approval
      exactly when it applies the proposal it approves, and no other step applies any. */
  lemma EventsAreAppliedProposals(db: Db, s: Step, parent: Option<nat>, after: Db, a: nat)
    requires Inv(db) && Next(db, s, parent, after) && a in db.definitions
    ensures NewlyApplied(db, after, a) ==
              if EventsOf(db, s, a) == [] then {} else if s.Propose? then {db.nextId}
              else if s.Approve? then {s.p} else {}
    ensures EventsOf(db, s, a) != [] ==> s.Propose? || s.Approve?
  {
    hide Inv, Creates, Edits, Dispatches, Proposes, Approves, EventsOf;
    FreshIds(db);
    match s
    case Create(_, _, _, _) =>
      QuietSteps(db, s, a);
      CreateProposals(db, s, parent, after);
    case Edit(_, _, _, _) =>
      QuietSteps(db, s, a);
      EditProposals(db, s, parent, after);
    case Dispatch(r) =>
      QuietSteps(db, s, a);
      DispatchProposals(db, r, parent, after);
    case Propose(q) => ProposeApplied(db, q, parent, after, a);
    case Approve(p, approver) => ApproveApplied(db, p, approver, parent, after, a);
    case LoseRace(_, _) => QuietSteps(db, s, a);
    case Amend(_) => QuietSteps(db, s, a);
    case StartRun(_) => QuietSteps(db, s, a);
    case Reject(_) => QuietSteps(db, s, a);
    case Withdraw(_) => QuietSteps(db, s, a);
  }

  lemma CreateProposals(db: Db, s: Step, parent: Option<nat>, after: Db)
    requires s.Create? && Creates(db, s, parent, after)
    ensures after.proposals == db.proposals
  {
    var id := db.nextId;
    var live := Rewrite(Live(map[], map[]), s.settings, {}, s.specs, id + 1);
    var added := db.(definitions := db.definitions[id := Definition(live, None, s.guard)],
                     nextId := id + 1 + |s.specs|);
    if s.snapshot {
      var v :| Snapshots(added, id, parent, after, v);
      SnapshotProposals(added, id, parent, after, v);
    }
  }

  lemma EditProposals(db: Db, s: Step, parent: Option<nat>, after: Db)
    requires s.Edit? && s.a in db.definitions && Edits(db, s, parent, after)
    ensures after.proposals == db.proposals
  {
    var live := Rewrite(db.definitions[s.a].live, s.settings, s.dropped, s.specs, db.nextId);
    var rewritten := WithLive(db, s.a, live, db.nextId + |s.specs|);
    var v :| Snapshots(rewritten, s.a, parent, after, v);
    SnapshotProposals(rewritten, s.a, parent, after, v);
  }

  lemma DispatchProposals(db: Db, r: nat, parent: Option<nat>, after: Db)
    requires r in db.runs && db.runs[r].automation in db.definitions && Dispatches(db, r, parent, after)
    ensures after.proposals == db.proposals
  {
    var a := db.runs[r].automation;
    var head := db.definitions[a].head;
    if db.runs[r].version.None? && !(head.Some? && head.value in db.versions) {
      var mid, v :| Snapshots(db, a, parent, mid, v) && r in mid.runs && after == Bound(mid, r, v);
      SnapshotProposals(db, a, parent, mid, v);
    }
  }

  lemma ProposeApplied(db: Db, q: Request, parent: Option<nat>, after: Db, a: nat)
    requires q.automation in db.definitions && a in db.definitions && Proposes(db, q, parent, after)
    requires db.nextId !in db.proposals
    ensures NewlyApplied(db, after, a) == if EventsOf(db, Propose(q), a) == [] then {} else {db.nextId}
  {
    hide Applies, Guards.Cooling, Guards.Exhausted;
    if Attempts(db, q) {
      var open := Submit(db, q);
      var mid, r := ProposeUnfolds(db, q, parent, after);
      assert open.proposals[db.nextId].payload == q.payload && open.proposals[db.nextId].user == q.user;
      ApplyProposals(open, db.nextId, q.user, parent, mid, r);
      RefusalReason(open, db.nextId, q.user, parent, mid, r);
      assert after.proposals == mid.proposals;
    }
  }

  /** An auto-applied version is a new one that no other transaction can write: the payload has an action, whose row
      gets a fresh id, and the snapshot holds it. */
  lemma AutoAppliesAreNew(db: Db, q: Request, parent: Option<nat>, after: Db)
    requires Inv(db) && q.automation in db.definitions && Proposes(db, q, parent, after)
    requires EventsOf(db, Propose(q), q.automation) != []
    ensures db.nextId in after.proposals && after.proposals[db.nextId].applied.Some?
    ensures var v := after.proposals[db.nextId].applied.value;
            v !in db.versions && v in after.versions
            && exists id :: id in after.versions[v].snapshot.rows && db.nextId < id
  {
    hide Inv, Applies, Materialised, Specs, Parses, Guards.Cooling, Guards.Exhausted;
    var open := Submit(db, q);
    var mid, r := ProposeUnfolds(db, q, parent, after);
    SubmitKeeps(db, q);
    RefusalReason(open, db.nextId, q.user, parent, mid, r);
    ApplyProposals(open, db.nextId, q.user, parent, mid, r);
    FirstActionIsInserted(q.payload);
    AppliedReusesIff(open, db.nextId, q.user, parent, mid, r.value);
    AppliedSnapshot(open, db.nextId, q.user, parent, mid, r.value);
    MaterialisedRows(db.definitions[q.automation].live, q.payload, open.nextId);
    assert open.nextId in mid.versions[r.value].snapshot.rows;
  }

  lemma FirstActionIsInserted(p: Payload)
    requires Parses(p) && p.actions != []
    ensures |Specs(p)| > 0
  {
    assert Items(p, Actions)[0] == ActionOf(p.actions[0]);
  }

  lemma AppliedSnapshot(db: Db, p: nat, actor: Option<int>, parent: Option<nat>, after: Db, v: nat)
    requires Inv(db) && p in db.proposals && db.proposals[p].automation in db.definitions
    requires Applies(db, p, actor, parent, after, Ok(v))
    ensures var q := db.proposals[p];
            var live := Materialised(db.definitions[q.automation].live, q.payload, db.nextId);
            Parses(q.payload) && Holds(after.versions, v, q.automation, live)
  {
    hide Inv, Materialised, Specs, Parses;
    var q := db.proposals[p];
    var a := q.automation;
    var live := Materialised(db.definitions[a].live, q.payload, db.nextId);
    var rewritten := WithLive(db, a, live, db.nextId + |Specs(q.payload)|);
    var mid :| Snapshots(rewritten, a, parent, mid, v) && after == Closed(mid, p, v);
  }

  lemma ApproveApplied(db: Db, p: nat, approver: int, parent: Option<nat>, after: Db, a: nat)
    requires p in db.proposals && db.proposals[p].automation in db.definitions && a in db.definitions
    requires Approves(db, p, approver, parent, after)
    ensures NewlyApplied(db, after, a) == if EventsOf(db, Approve(p, approver), a) == [] then {} else {p}
  {
    hide Applies;
    if db.proposals[p].status == Submitted {
      var b := db.proposals[p].automation;
      var mid, r :| Applies(db, p, Some(approver), parent, mid, r) && b in mid.definitions
                    && after == if r.Ok? then Reset(mid, b) else db;
      ApplyProposals(db, p, Some(approver), parent, mid, r);
      RefusalReason(db, p, Some(approver), parent, mid, r);
      if r.Ok? {
        assert after.proposals == mid.proposals;
        assert IsApplied(after, p, b) && !IsApplied(db, p, b);
        assert forall o :: o != p ==> (IsApplied(after, o, a) <==> IsApplied(db, o, a));
      } else {
        match r.error { case Unauthorised => case BadPayload => }
        assert NewlyApplied(db, after, a) == {};
      }
    }
  }
}
