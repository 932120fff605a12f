/**
  * Workflow versions and proposals as a step relation over the stored rows.
  *
  * A version is an immutable snapshot of one automation's live definition, numbered by
  * generation; the definition's head pointer names the current one. A proposal carries a
  * complete replacement that is applied after a human approval or automatically. The hash of
  * a snapshot is taken to be injective, so hash equality is written as payload equality.
  */
module WorkflowSpec {
  import opened Prelude
  import Guards = ConvergenceGuards

  datatype Setting =
    | Name | WorkspaceScope | ComputeProfile | Contract | MaxComputeTier | SpendPerRun | SpendPerDay

  datatype StepKind =
    | GatewaySend | Deliver | Branch | SubWorkflow(hasChild: bool) | AgentRun | AppInvoke | UnknownKind

  /** A child row of a definition; `detail` stands for the columns nothing here looks at. */
  datatype Row =
    | ActionRow(kind: StepKind, detail: int)
    | TriggerRow(active: bool, detail: int)
    | TargetRow(destination: int, detail: int)

  /** The live definition. Child rows are keyed by their id, and ids are part of the snapshot. */
  datatype Live = Live(settings: map<Setting, int>, rows: map<nat, Row>)

  /** An action as a proposal spells it: whether its ordinal and config convert, and whether its two ids parse. */
  datatype ActionIn = ActionIn(kind: StepKind, detail: int, body: bool, ids: bool)

  /** A trigger; None when its config does not convert. */
  datatype TriggerIn = TriggerIn(active: bool, detail: Option<int>)

  /** A delivery target; None where the destination does not parse, or the rest does not convert. */
  datatype TargetIn = TargetIn(destination: Option<int>, detail: Option<int>)

  /** A proposed payload. Absent settings are left alone, absent child lists mean empty ones. The compute tier may be
      given in a form that does not convert to a number. */
  datatype Payload = Payload(
    settings: map<Setting, int>, tierParses: bool,
    actions: seq<ActionIn>, triggers: seq<TriggerIn>, targets: seq<TargetIn>)

  datatype Version = Version(automation: nat, generation: int, parent: Option<nat>, snapshot: Live)

  datatype Definition = Definition(live: Live, head: Option<nat>, guard: Guards.Guard)

  /** The statuses the code writes; `approved`, `reverted` and `expired` are never written. */
  datatype Status = Submitted | Applied | Rejected | Withdrawn

  datatype Proposal = Proposal(
    automation: nat, base: Option<nat>, payload: Payload, user: Option<int>, run: Option<nat>,
    status: Status, applied: Option<nat>)

  datatype WorkRun = WorkRun(automation: nat, version: Option<nat>)

  /** Every id is drawn from one supply, which stands for random identifiers. */
  datatype Db = Db(
    versions: map<nat, Version>, definitions: map<nat, Definition>,
    proposals: map<nat, Proposal>, runs: map<nat, WorkRun>, nextId: nat)

  datatype RowClass = Actions | Triggers | Targets

  const EVERY_CLASS: set<RowClass> := {Actions, Triggers, Targets}

  function ClassOf(r: Row): RowClass {
    match r
    case ActionRow(_, _) => Actions
    case TriggerRow(_, _) => Triggers
    case TargetRow(_, _) => Targets
  }

  // ---------------------------------------------------------------------
  // Rewriting live rows
  // ---------------------------------------------------------------------

  function Kept(rows: map<nat, Row>, dropped: set<RowClass>): map<nat, Row> {
    map id | id in rows && ClassOf(rows[id]) !in dropped :: rows[id]
  }

  /** The rows `specs`, inserted in order under consecutive fresh ids. */
  function Inserted(next: nat, specs: seq<Row>): (rows: map<nat, Row>)
    ensures forall id :: id in rows <==> next <= id < next + |specs|
    ensures forall id :: id in rows ==> rows[id] == specs[id - next]
  {
    var n := |specs|;
    if n == 0 then map[] else Inserted(next, specs[..n - 1])[next + n - 1 := specs[n - 1]]
  }

  /** Overlays the given settings, deletes the dropped classes of rows and inserts new ones. */
  function Rewrite(live: Live, settings: map<Setting, int>, dropped: set<RowClass>, specs: seq<Row>, next: nat): Live {
    Live(live.settings + settings, Kept(live.rows, dropped) + Inserted(next, specs))
  }

  /** The row an action becomes, if everything in it can be read. */
  function ActionOf(a: ActionIn): Option<Row> {
    if a.body && a.ids then Some(ActionRow(a.kind, a.detail)) else None
  }

  function TriggerOf(t: TriggerIn): Option<Row> {
    if t.detail.Some? then Some(TriggerRow(t.active, t.detail.value)) else None
  }

  function TargetOf(t: TargetIn): Option<Row> {
    if t.destination.Some? && t.detail.Some? then Some(TargetRow(t.destination.value, t.detail.value)) else None
  }

  /** The rows of one list in the order they are inserted; None is where inserting fails. */
  function Items(p: Payload, c: RowClass): seq<Option<Row>> {
    match c
    case Actions => seq(|p.actions|, i requires 0 <= i < |p.actions| => ActionOf(p.actions[i]))
    case Triggers => seq(|p.triggers|, i requires 0 <= i < |p.triggers| => TriggerOf(p.triggers[i]))
    case Targets => seq(|p.targets|, i requires 0 <= i < |p.targets| => TargetOf(p.targets[i]))
  }

  /** The rows before the first one that cannot be read. */
  function Leading(items: seq<Option<Row>>): (rows: seq<Row>)
    ensures |rows| <= |items|
  {
    if items == [] || items[0].None? then [] else [items[0].value] + Leading(items[1..])
  }

  predicate Complete(items: seq<Option<Row>>) { |Leading(items)| == |items| }

  /** The settings written before the compute tier is converted. */
  const EARLY: set<Setting> := {Name, WorkspaceScope, ComputeProfile, Contract}

  function Early(settings: map<Setting, int>): map<Setting, int> {
    map k | k in settings && k in EARLY :: settings[k]
  }

  function Written(p: Payload): map<Setting, int> {
    if p.tierParses then p.settings else Early(p.settings)
  }

  /** How far applying the payload gets: the classes of rows it deletes and the rows it inserts. The lists are replaced
      one after another, each deleted before its first row is read. */
  function Dropped(p: Payload): set<RowClass> {
    if !p.tierParses then {}
    else if !Complete(Items(p, Actions)) then {Actions}
    else if !Complete(Items(p, Triggers)) then {Actions, Triggers}
    else EVERY_CLASS
  }

  function Specs(p: Payload): seq<Row> {
    if !p.tierParses then []
    else if !Complete(Items(p, Actions)) then Leading(Items(p, Actions))
    else if !Complete(Items(p, Triggers)) then Leading(Items(p, Actions)) + Leading(Items(p, Triggers))
    else Leading(Items(p, Actions)) + Leading(Items(p, Triggers)) + Leading(Items(p, Targets))
  }

  /** Whether applying the payload gets through. */
  predicate Parses(p: Payload) {
    p.tierParses && Complete(Items(p, Actions)) && Complete(Items(p, Triggers)) && Complete(Items(p, Targets))
  }

  function Materialised(live: Live, p: Payload, next: nat): Live {
    Rewrite(live, Written(p), Dropped(p), Specs(p), next)
  }

  // ---------------------------------------------------------------------
  // Snapshots
  // ---------------------------------------------------------------------

  predicate Holds(versions: map<nat, Version>, v: nat, a: nat, live: Live) {
    v in versions && versions[v].automation == a && versions[v].snapshot == live
  }

  predicate OfAutomation(versions: map<nat, Version>, v: nat, a: nat) {
    v in versions && versions[v].automation == a
  }

  /** `parent` is a version the writer may have read as its predecessor, perhaps a stale one. */
  predicate ParentRead(versions: map<nat, Version>, a: nat, parent: Option<nat>) {
    parent.Some? ==> OfAutomation(versions, parent.value, a)
  }

  /** `parent` is what a writer running alone reads: a version of the highest generation. */
  ghost predicate Newest(versions: map<nat, Version>, a: nat, parent: Option<nat>) {
    && ParentRead(versions, a, parent)
    && forall v | OfAutomation(versions, v, a) ::
         parent.Some? && versions[v].generation <= versions[parent.value].generation
  }

  function NextGeneration(versions: map<nat, Version>, parent: Option<nat>): int {
    if parent.Some? && parent.value in versions then versions[parent.value].generation + 1 else 1
  }

  function WithHead(db: Db, a: nat, v: nat): Db
    requires a in db.definitions
  {
    db.(definitions := db.definitions[a := db.definitions[a].(head := Some(v))])
  }

  function WithLive(db: Db, a: nat, live: Live, next: nat): Db
    requires a in db.definitions
  {
    db.(definitions := db.definitions[a := db.definitions[a].(live := live)], nextId := next)
  }

  /** Adds the snapshot of automation `a` as a new version and moves the head to it. */
  function Appended(db: Db, a: nat, parent: Option<nat>): Db
    requires a in db.definitions
  {
    var v := db.nextId;
    var row := Version(a, NextGeneration(db.versions, parent), parent, db.definitions[a].live);
    WithHead(db.(versions := db.versions[v := row], nextId := v + 1), a, v)
  }

  /** Snapshotting reuses the version that already holds the live definition, else adds one. */
  ghost predicate Snapshots(db: Db, a: nat, parent: Option<nat>, after: Db, v: nat)
    requires a in db.definitions
  {
    && ParentRead(db.versions, a, parent)
    && if exists w :: Holds(db.versions, w, a, db.definitions[a].live)
       then Holds(db.versions, v, a, db.definitions[a].live) && after == WithHead(db, a, v)
       else v == db.nextId && after == Appended(db, a, parent)
  }

  // ---------------------------------------------------------------------
  // Applying a proposal
  // ---------------------------------------------------------------------

  datatype ApplyError = Unauthorised | BadPayload

  function Closed(db: Db, p: nat, v: nat): Db
    requires p in db.proposals
  {
    db.(proposals := db.proposals[p := db.proposals[p].(status := Applied, applied := Some(v))])
  }

  /**
    * Replaces the live rows and snapshots them. The first part of the payload that cannot be read
    * stops it after everything before that part has been written.
    */
  ghost predicate Applies(
    db: Db, p: nat, actor: Option<int>, parent: Option<nat>, after: Db, r: Result<nat, ApplyError>)
    requires p in db.proposals && db.proposals[p].automation in db.definitions
  {
    var q := db.proposals[p];
    var live := Materialised(db.definitions[q.automation].live, q.payload, db.nextId);
    var rewritten := WithLive(db, q.automation, live, db.nextId + |Specs(q.payload)|);
    if actor.None? && q.user.None? then
      r == Err(Unauthorised) && after == db
    else if !Parses(q.payload) then
      r == Err(BadPayload) && after == rewritten
    else
      r.Ok? && exists mid :: Snapshots(rewritten, q.automation, parent, mid, r.value)
                             && after == Closed(mid, p, r.value)
  }

  // ---------------------------------------------------------------------
  // Proposing
  // ---------------------------------------------------------------------

  /** Steps the dry run can pass without doing anything. */
  predicate CanDryRun(kind: StepKind) {
    kind.GatewaySend? || kind.Deliver? || kind.Branch? || (kind.SubWorkflow? && kind.hasChild)
  }

  datatype Verdict = Passes | Refuses | Raises

  /** The dry run reads ordinal and config of each action before it looks at its kind, and never its ids. */
  function Walk(actions: seq<ActionIn>): Verdict {
    if actions == [] then Passes
    else if !actions[0].body then Raises
    else if !CanDryRun(actions[0].kind) then Refuses
    else Walk(actions[1..])
  }

  function DryRunOf(p: Payload): Verdict {
    if p.actions == [] then Refuses else Walk(p.actions)
  }

  /** What the guards and the policy decide together. */
  predicate Eligible(g: Guards.Guard, byRun: bool, now: int, policyAllows: bool) {
    !Guards.Cooling(g, now, byRun) && !Guards.Exhausted(g) && policyAllows
  }

  predicate AutoApplies(g: Guards.Guard, p: Payload, byRun: bool, now: int, policyAllows: bool) {
    Eligible(g, byRun, now, policyAllows) && DryRunOf(p) == Passes
  }

  /** An open proposal of the automation with the same base and the same payload. */
  predicate Duplicate(db: Db, p: nat, a: nat, base: Option<nat>, payload: Payload) {
    && p in db.proposals && db.proposals[p].automation == a && db.proposals[p].base == base
    && db.proposals[p].status == Submitted && db.proposals[p].payload == payload
  }

  function Counted(db: Db, a: nat, stamp: int): Db
    requires a in db.definitions
  {
    var d := db.definitions[a];
    db.(definitions := db.definitions[a := d.(guard := Guards.After(d.guard, Guards.AutoApply(stamp, stamp, false)))])
  }

  /**
    * Everything a proposal brings with it. `policyAllows` is the verdict of the policy on the
    * diff and the risk class; `now` is read for the cooldown and `stamp` after applying.
    */
  datatype Request = Request(
    automation: nat, payload: Payload, user: Option<int>, run: Option<nat>, base: Option<nat>,
    policyAllows: bool, now: int, stamp: int)

  function BaseOf(db: Db, q: Request): Option<nat>
    requires q.automation in db.definitions
  {
    if q.base.Some? then q.base else db.definitions[q.automation].head
  }

  function Submit(db: Db, q: Request): Db
    requires q.automation in db.definitions
  {
    var row := Proposal(q.automation, BaseOf(db, q), q.payload, q.user, q.run, Submitted, None);
    db.(proposals := db.proposals[db.nextId := row], nextId := db.nextId + 1)
  }

  /** An error in the dry run rejects the request; one in the apply that follows is swallowed, and whatever was written
      before it is committed. */
  ghost predicate Proposes(db: Db, q: Request, parent: Option<nat>, after: Db)
    requires q.automation in db.definitions
  {
    if q.user.None? && q.run.None? then
      after == db
    else if exists p :: Duplicate(db, p, q.automation, BaseOf(db, q), q.payload) then
      after == db
    else if
      && Eligible(db.definitions[q.automation].guard, q.run.Some?, q.now, q.policyAllows)
      && DryRunOf(q.payload) == Raises
    then
      after == db
    else if AutoApplies(db.definitions[q.automation].guard, q.payload, q.run.Some?, q.now, q.policyAllows) then
      exists mid, r ::
        && Applies(Submit(db, q), db.nextId, q.user, parent, mid, r)
        && q.automation in mid.definitions
        && after == if r.Ok? then Counted(mid, q.automation, q.stamp) else mid
    else
      after == Submit(db, q)
  }

  // ---------------------------------------------------------------------
  // The remaining steps
  // ---------------------------------------------------------------------

  datatype Step =
    | Create(settings: map<Setting, int>, specs: seq<Row>, guard: Guards.Guard, snapshot: bool)
    | Edit(a: nat, settings: map<Setting, int>, dropped: set<RowClass>, specs: seq<Row>)
    | LoseRace(a: nat, v: nat)
    | Amend(lives: map<nat, Live>)
    | StartRun(a: nat)
    | Dispatch(r: nat)
    | Propose(request: Request)
    | Approve(p: nat, approver: int)
    | Reject(p: nat)
    | Withdraw(p: nat)

  /** A new automation starts with an unused guard. */
  predicate FreshGuard(g: Guards.Guard) { g.consumed == 0 && g.lastSelfEdit.None? }

  ghost predicate Creates(db: Db, s: Step, parent: Option<nat>, after: Db)
    requires s.Create?
  {
    var a := db.nextId;
    var live := Rewrite(Live(map[], map[]), s.settings, {}, s.specs, a + 1);
    var added := db.(definitions := db.definitions[a := Definition(live, None, s.guard)], nextId := a + 1 + |s.specs|);
    && FreshGuard(s.guard)
    && if s.snapshot then exists v :: Snapshots(added, a, parent, after, v) else after == added
  }

  ghost predicate Edits(db: Db, s: Step, parent: Option<nat>, after: Db)
    requires s.Edit? && s.a in db.definitions
  {
    var live := Rewrite(db.definitions[s.a].live, s.settings, s.dropped, s.specs, db.nextId);
    var rewritten := WithLive(db, s.a, live, db.nextId + |s.specs|);
    exists v :: Snapshots(rewritten, s.a, parent, after, v)
  }

  function Bound(db: Db, r: nat, v: nat): Db
    requires r in db.runs
  {
    db.(runs := db.runs[r := db.runs[r].(version := Some(v))])
  }

  /** A run is bound on its first dispatch only, to the head, which is created when missing. */
  ghost predicate Dispatches(db: Db, r: nat, parent: Option<nat>, after: Db)
    requires r in db.runs && db.runs[r].automation in db.definitions
  {
    var a := db.runs[r].automation;
    var head := db.definitions[a].head;
    if db.runs[r].version.Some? then after == db
    else if head.Some? && head.value in db.versions then after == Bound(db, r, head.value)
    else exists mid, v :: Snapshots(db, a, parent, mid, v) && r in mid.runs && after == Bound(mid, r, v)
  }

  function Reset(db: Db, a: nat): Db
    requires a in db.definitions
  {
    var d := db.definitions[a];
    db.(definitions := db.definitions[a := d.(guard := Guards.After(d.guard, Guards.Approval))])
  }

  /** An approval that cannot be applied is rolled back. */
  ghost predicate Approves(db: Db, p: nat, approver: int, parent: Option<nat>, after: Db)
    requires p in db.proposals && db.proposals[p].automation in db.definitions
  {
    var a := db.proposals[p].automation;
    if db.proposals[p].status != Submitted then after == db
    else exists mid, r :: Applies(db, p, Some(approver), parent, mid, r) && a in mid.definitions
                          && after == if r.Ok? then Reset(mid, a) else db
  }

  function Decided(db: Db, p: nat, status: Status): Db
    requires p in db.proposals
  {
    if db.proposals[p].status != Submitted then db
    else db.(proposals := db.proposals[p := db.proposals[p].(status := status)])
  }

  /**
    * Writes that bypass the snapshot: an approval answer that rescopes a contract, a scheduler that switches malformed
    * triggers off, an app release that points actions at its new rows, and a destination deleted with its targets.
    * They change settings and rows, or delete rows, and add none.
    */
  predicate Amends(db: Db, lives: map<nat, Live>) {
    forall a :: a in lives ==> a in db.definitions && lives[a].rows.Keys <= db.definitions[a].live.rows.Keys
  }

  function Amended(db: Db, lives: map<nat, Live>): Db {
    db.(definitions := map a | a in db.definitions ::
      if a in lives then db.definitions[a].(live := lives[a]) else db.definitions[a])
  }

  /** One transaction. `parent` is the version a snapshot in it reads as the newest one. */
  ghost predicate Next(db: Db, s: Step, parent: Option<nat>, after: Db) {
    match s
    case Create(_, _, _, _) => Creates(db, s, parent, after)
    case Edit(a, _, _, _) => a in db.definitions && Edits(db, s, parent, after)
    case LoseRace(a, v) =>
      // Another edit inserted the same snapshot first: the edit is rolled back and only moves the head to the winner.
      a in db.definitions && OfAutomation(db.versions, v, a) && after == WithHead(db, a, v)
    case Amend(lives) => Amends(db, lives) && after == Amended(db, lives)
    case StartRun(a) =>
      a in db.definitions && after == db.(runs := db.runs[db.nextId := WorkRun(a, None)], nextId := db.nextId + 1)
    case Dispatch(r) =>
      r in db.runs && db.runs[r].automation in db.definitions && Dispatches(db, r, parent, after)
    case Propose(q) =>
      q.automation in db.definitions && q.now <= q.stamp && Proposes(db, q, parent, after)
    case Approve(p, approver) =>
      p in db.proposals && db.proposals[p].automation in db.definitions && Approves(db, p, approver, parent, after)
    case Reject(p) => p in db.proposals && after == Decided(db, p, Rejected)
    case Withdraw(p) => p in db.proposals && after == Decided(db, p, Withdrawn)
  }
}
