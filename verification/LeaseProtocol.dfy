/**
The controller plane as a protocol: leases with growing terms, intents fenced by them, and any number
of processes that acquire, renew, release, record, reconcile and crash in any interleaving.

Clocks are arguments of the steps and need not agree, so nothing proved here rests on them.
*/
module LeaseProtocol {
  import opened Prelude

  type LeaseName = string
  type ProcessId = nat

  datatype LeaseRow = LeaseRow(holder: Option<string>, term: nat, expires: Option<int>)

  datatype Token = Token(name: LeaseName, holder: string, term: nat, expires: int)

  datatype Status = Pending | Applied | Superseded | Failed

  // The cluster mutation an intent asks for, by kind and target.
  datatype Call = ScaleToZero(deployment: string) | ScaleUp(deployment: string, replicas: nat) | DeletePod(pod: string)
                | Unsupported(kind: string)

  datatype Intent = Intent(call: Call, leaseTerm: nat, status: Status, appliedBy: Option<nat>, attempts: nat)

  const MAX_ATTEMPTS: nat := 5
  const MAX_BATCH: nat := 50

  // ---------------------------------------------------------------- the lease row

  // The row can be taken: expired, released, or already held under the same name.
  predicate Free(row: LeaseRow, holder: string, now: int) {
    row.expires == None || row.expires.value < now || row.holder == Some(holder)
  }

  // The token an acquire returns, if it succeeds.
  function Granted(leases: map<LeaseName, LeaseRow>, name: LeaseName, holder: string, now: int, ttl: int)
    : Option<Token>
  {
    if name !in leases then Some(Token(name, holder, 1, now + ttl))
    else if Free(leases[name], holder, now) then Some(Token(name, holder, leases[name].term + 1, now + ttl))
    else None
  }

  function Take(leases: map<LeaseName, LeaseRow>, t: Token): map<LeaseName, LeaseRow> {
    leases[t.name := LeaseRow(Some(t.holder), t.term, Some(t.expires))]
  }

  // WHERE name = :name AND holder = :holder AND term = :term
  predicate Holds(leases: map<LeaseName, LeaseRow>, t: Token) {
    t.name in leases && leases[t.name].holder == Some(t.holder) && leases[t.name].term == t.term
  }

  predicate TermIsCurrent(leases: map<LeaseName, LeaseRow>, t: Token) {
    t.name in leases && leases[t.name].term == t.term
  }

  function RenewRow(leases: map<LeaseName, LeaseRow>, t: Token, now: int): map<LeaseName, LeaseRow> {
    if Holds(leases, t) then leases[t.name := leases[t.name].(expires := Some(now + 60))] else leases
  }

  function ReleaseRow(leases: map<LeaseName, LeaseRow>, t: Token): map<LeaseName, LeaseRow> {
    if Holds(leases, t) then leases[t.name := leases[t.name].(holder := None, expires := None)] else leases
  }

  // ---------------------------------------------------------------- the system

  // What a reconcile pass remembers of a row it has read.
  datatype Read = Read(index: nat, leaseTerm: nat, attempts: nat)

  // A pass in flight: the token it started under, the rows still to do, and whether the cluster call
  // of the first of them has been made.
  datatype Tick = Tick(token: Token, todo: seq<Read>, mutated: bool)

  datatype Process = Process(token: Option<Token>, tick: Option<Tick>)

  // A cluster call made for an intent under a token.
  datatype Mutation = Mutation(index: nat, token: Token)

  /** `leases` and `intents` are the two tables, `processes` the running programs. The rest is history:
      every token issued, the lease each intent was recorded under, and every cluster call. */
  datatype Plane = Plane(
    leases: map<LeaseName, LeaseRow>,
    intents: seq<Intent>,
    processes: map<ProcessId, Process>,
    grants: seq<Token>,
    authors: seq<Token>,
    mutations: seq<Mutation>)

  datatype CallResult = Done | Conflict | Error

  datatype Step =
    | Acquire(p: ProcessId, name: LeaseName, holder: string, now: int, ttl: int)
    | Renew(p: ProcessId, now: int)
    | Release(p: ProcessId)
    | Record(p: ProcessId, call: Call)
    | StartTick(p: ProcessId)
    | Advance(p: ProcessId, result: CallResult)
    | Cancel(p: ProcessId)
    | Crash(p: ProcessId)

  function Proc(s: Plane, p: ProcessId): Process {
    if p in s.processes then s.processes[p] else Process(None, None)
  }

  function WithProc(s: Plane, p: ProcessId, q: Process): Plane {
    s.(processes := s.processes[p := q])
  }

  predicate Increasing(r: seq<Read>) {
    forall i, j :: 0 <= i < j < |r| ==> r[i].index < r[j].index
  }

  // What a query for pending rows read is what the rows say.
  predicate FreshRead(intents: seq<Intent>, r: Read) {
    && r.index < |intents|
    && intents[r.index].status == Pending
    && r.leaseTerm == intents[r.index].leaseTerm
    && r.attempts == intents[r.index].attempts
  }

  // The pending rows from `from` on, oldest first.
  function PendingReads(intents: seq<Intent>, from: nat): (r: seq<Read>)
    requires from <= |intents|
    ensures forall i :: 0 <= i < |r| ==> from <= r[i].index && FreshRead(intents, r[i])
    ensures Increasing(r)
    decreases |intents| - from
  {
    if from == |intents| then []
    else if intents[from].status == Pending then
      [Read(from, intents[from].leaseTerm, intents[from].attempts)] + PendingReads(intents, from + 1)
    else PendingReads(intents, from + 1)
  }

  // SELECT ... WHERE status = 'pending' ORDER BY created_at LIMIT 50
  function Batch(intents: seq<Intent>): (r: seq<Read>)
    ensures forall i :: 0 <= i < |r| ==> FreshRead(intents, r[i])
    ensures Increasing(r)
  {
    var r := PendingReads(intents, 0);
    if |r| <= MAX_BATCH then r else r[..MAX_BATCH]
  }

  // The three status writes, and the count of a failed attempt. None looks at the row's present status.
  function MarkedApplied(row: Intent, term: nat): Intent {
    row.(status := Applied, appliedBy := Some(term))
  }

  function MarkedSuperseded(row: Intent): Intent {
    row.(status := Superseded)
  }

  function MarkedFailed(row: Intent, attempts: nat): Intent {
    row.(status := Failed, attempts := attempts)
  }

  function Attempted(row: Intent, attempts: nat): Intent {
    if attempts >= MAX_ATTEMPTS then MarkedFailed(row, attempts) else row.(attempts := attempts)
  }

  // The next database or cluster effect of a pass.
  function AdvanceTick(s: Plane, p: ProcessId, t: Tick, result: CallResult): Plane
    requires t.todo != [] && t.todo[0].index < |s.intents|
  {
    var read := t.todo[0];
    var row := s.intents[read.index];
    var next := WithProc(s, p, Proc(s, p).(tick := Some(Tick(t.token, t.todo[1..], false))));
    if t.mutated then
      next.(intents := s.intents[read.index := MarkedApplied(row, t.token.term)])
    else if read.leaseTerm != t.token.term then
      next.(intents := s.intents[read.index := MarkedSuperseded(row)])
    else match result
      case Done =>
        WithProc(s, p, Proc(s, p).(tick := Some(t.(mutated := true))))
          .(mutations := s.mutations + [Mutation(read.index, t.token)])
      case Conflict => next
      case Error => next.(intents := s.intents[read.index := Attempted(row, read.attempts + 1)])
  }

  function Next(s: Plane, step: Step): Plane {
    match step
    case Acquire(p, name, holder, now, ttl) =>
      var g := Granted(s.leases, name, holder, now, ttl);
      if g.Some? then
        WithProc(s, p, Proc(s, p).(token := g)).(leases := Take(s.leases, g.value), grants := s.grants + [g.value])
      else WithProc(s, p, Proc(s, p).(token := None))
    case Renew(p, now) =>
      if Proc(s, p).token.Some? then s.(leases := RenewRow(s.leases, Proc(s, p).token.value, now)) else s
    case Release(p) =>
      if Proc(s, p).token.Some? then
        WithProc(s, p, Proc(s, p).(token := None)).(leases := ReleaseRow(s.leases, Proc(s, p).token.value))
      else s
    case Record(p, call) =>
      if Proc(s, p).token.Some? && TermIsCurrent(s.leases, Proc(s, p).token.value) then
        s.(intents := s.intents + [Intent(call, Proc(s, p).token.value.term, Pending, None, 0)],
           authors := s.authors + [Proc(s, p).token.value])
      else s
    case StartTick(p) =>
      if Proc(s, p).token.Some? && Proc(s, p).tick.None? then
        WithProc(s, p, Proc(s, p).(tick := Some(Tick(Proc(s, p).token.value, Batch(s.intents), false))))
      else s
    case Advance(p, result) =>
      if Proc(s, p).tick.Some? then
        var t := Proc(s, p).tick.value;
        if t.todo == [] then WithProc(s, p, Proc(s, p).(tick := None))
        else if t.todo[0].index < |s.intents| then AdvanceTick(s, p, t, result)
        else s
      else s
    case Cancel(p) => WithProc(s, p, Proc(s, p).(tick := None))
    case Crash(p) => WithProc(s, p, Process(None, None))
  }

  const START: Plane := Plane(map[], [], map[], [], [], [])

  function Run(s: Plane, steps: seq<Step>): Plane {
    if steps == [] then s else Next(Run(s, steps[..|steps| - 1]), steps[|steps| - 1])
  }

  lemma RunSnoc(s: Plane, steps: seq<Step>, step: Step)
    ensures Run(s, steps + [step]) == Next(Run(s, steps), step)
  {
    assert (steps + [step])[..|steps|] == steps;
  }

  // ---------------------------------------------------------------- invariants

  // No term of a lease is issued twice, and issued terms grow up to the one in the table.
  ghost predicate TermsGrow(s: Plane) {
    && (forall i :: 0 <= i < |s.grants| ==>
         s.grants[i].name in s.leases && s.grants[i].term <= s.leases[s.grants[i].name].term)
    && (forall i, j :: 0 <= i < j < |s.grants| && s.grants[i].name == s.grants[j].name ==>
         s.grants[i].term < s.grants[j].term)
  }

  // The term in the table was granted, to whomever the table names as holder.
  ghost predicate HoldersAreGranted(s: Plane) {
    forall n :: n in s.leases ==> exists g :: g in s.grants && Heads(g, n, s.leases[n])
  }

  predicate Heads(g: Token, n: LeaseName, row: LeaseRow) {
    g.name == n && g.term == row.term && (row.holder.Some? ==> row.holder.value == g.holder)
  }

  // Every intent carries the term of the grant it was recorded under; per lease, terms never step back.
  ghost predicate IntentsAreFenced(s: Plane) {
    && |s.authors| == |s.intents|
    && (forall i :: 0 <= i < |s.intents| ==> s.authors[i] in s.grants && s.intents[i].leaseTerm == s.authors[i].term)
    && (forall i, j :: 0 <= i < j < |s.intents| && s.authors[i].name == s.authors[j].name ==>
          s.intents[i].leaseTerm <= s.intents[j].leaseTerm)
  }

  // A process acts under issued tokens, on rows as they are, and a pass that has made its call has it on record.
  ghost predicate ProcessOk(s: Plane, q: Process) {
    && (q.token.Some? ==> q.token.value in s.grants)
    && (q.tick.Some? ==>
          var t := q.tick.value;
          && t.token in s.grants
          && (forall i :: 0 <= i < |t.todo| ==>
                t.todo[i].index < |s.intents| && t.todo[i].leaseTerm == s.intents[t.todo[i].index].leaseTerm)
          && (t.mutated ==> t.todo != [] && Mutation(t.todo[0].index, t.token) in s.mutations))
  }

  ghost predicate ProcessesOk(s: Plane) {
    forall p :: p in s.processes ==> ProcessOk(s, s.processes[p])
  }

  // Every cluster call is under a token of the intent's own term.
  ghost predicate CallsMatch(s: Plane) {
    forall m :: m in s.mutations ==>
      m.token in s.grants && m.index < |s.intents| && s.intents[m.index].leaseTerm == m.token.term
  }

  // Applied means called before, under the intent's own term.
  ghost predicate AppliedWasCalled(s: Plane) {
    forall i :: 0 <= i < |s.intents| && s.intents[i].status == Applied ==>
      && s.intents[i].appliedBy == Some(s.intents[i].leaseTerm)
      && exists m :: m in s.mutations && m.index == i
  }

  ghost predicate Inv(s: Plane) {
    && TermsGrow(s) && HoldersAreGranted(s) && IntentsAreFenced(s)
    && ProcessesOk(s) && CallsMatch(s) && AppliedWasCalled(s)
  }

  // History only grows, and a recorded intent keeps its term.
  ghost predicate Extends(s: Plane, t: Plane) {
    && s.grants <= t.grants
    && s.authors <= t.authors
    && s.mutations <= t.mutations
    && |s.intents| <= |t.intents|
    && forall i :: 0 <= i < |s.intents| ==> t.intents[i].leaseTerm == s.intents[i].leaseTerm
  }

  lemma StepExtends(s: Plane, step: Step)
    ensures Extends(s, Next(s, step))
  {
  }

  lemma ExtendsProcess(s: Plane, t: Plane, q: Process)
    requires Extends(s, t) && ProcessOk(s, q)
    ensures ProcessOk(t, q)
  {
  }

  // A step concerns one process; the others do not notice.
  lemma StepTouchesOne(s: Plane, step: Step, p: ProcessId)
    requires p != step.p
    ensures Proc(Next(s, step), p) == Proc(s, p)
  {
  }

  /** Terms only grow: a lease row never disappears and its term never falls. */
  lemma StepKeepsTerms(s: Plane, step: Step, n: LeaseName)
    requires n in s.leases
    ensures n in Next(s, step).leases && s.leases[n].term <= Next(s, step).leases[n].term
  {
  }

  lemma StepKeepsGrants(s: Plane, step: Step)
    requires TermsGrow(s)
    ensures TermsGrow(Next(s, step))
  {
    var t := Next(s, step);
    forall i | 0 <= i < |s.grants|
      ensures s.grants[i].name in t.leases && s.grants[i].term <= t.leases[s.grants[i].name].term
    {
      StepKeepsTerms(s, step, s.grants[i].name);
    }
  }

  lemma StepKeepsHolders(s: Plane, step: Step)
    requires HoldersAreGranted(s)
    ensures HoldersAreGranted(Next(s, step))
  {
    var t := Next(s, step);
    forall n | n in t.leases ensures exists g :: g in t.grants && Heads(g, n, t.leases[n]) {
      if step.Acquire? && step.name == n && Granted(s.leases, n, step.holder, step.now, step.ttl).Some? {
        assert t.grants[|s.grants|] in t.grants;
      } else {
        var g :| g in s.grants && Heads(g, n, s.leases[n]);
        assert g in t.grants && Heads(g, n, t.leases[n]);
      }
    }
  }

  lemma StepKeepsFence(s: Plane, step: Step)
    requires TermsGrow(s) && IntentsAreFenced(s) && ProcessOk(s, Proc(s, step.p))
    ensures IntentsAreFenced(Next(s, step))
  {
    StepExtends(s, step);
    var t := Next(s, step);
    if step.Record? && |t.intents| > |s.intents| {
      var token := Proc(s, step.p).token.value;
      forall i | 0 <= i < |s.intents| && s.authors[i].name == token.name ensures s.intents[i].leaseTerm <= token.term {
        assert s.authors[i] in s.grants;
      }
    }
  }

  lemma StepKeepsProcess(s: Plane, step: Step)
    requires ProcessOk(s, Proc(s, step.p))
    ensures ProcessOk(Next(s, step), Proc(Next(s, step), step.p))
  {
    StepExtends(s, step);
    var t := Next(s, step);
    ExtendsProcess(s, t, Proc(s, step.p));
    if step.Advance? {
      AdvanceKeepsProcess(s, step);
    } else {
      hide AdvanceTick;
      if step.Acquire? && |t.grants| > |s.grants| {
        assert t.grants[|s.grants|] in t.grants;
      }
    }
  }

  lemma AdvanceKeepsProcess(s: Plane, step: Step)
    requires step.Advance? && ProcessOk(s, Proc(s, step.p)) && Extends(s, Next(s, step))
    ensures ProcessOk(Next(s, step), Proc(Next(s, step), step.p))
  {
    hide Extends;
    var t := Next(s, step);
    assert |t.mutations| > |s.mutations| ==> t.mutations[|s.mutations|] in t.mutations;
  }

  lemma StepKeepsCalls(s: Plane, step: Step)
    requires ProcessOk(s, Proc(s, step.p)) && CallsMatch(s)
    ensures CallsMatch(Next(s, step))
  {
    StepExtends(s, step);
  }

  lemma StepKeepsApplied(s: Plane, step: Step)
    requires ProcessOk(s, Proc(s, step.p)) && CallsMatch(s) && AppliedWasCalled(s)
    ensures AppliedWasCalled(Next(s, step))
  {
    StepExtends(s, step);
    var t := Next(s, step);
    forall i | 0 <= i < |t.intents| && t.intents[i].status == Applied
      ensures t.intents[i].appliedBy == Some(t.intents[i].leaseTerm) && exists m :: m in t.mutations && m.index == i
    {
      if i < |s.intents| && s.intents[i].status == Applied && t.intents[i].appliedBy == s.intents[i].appliedBy {
        var m :| m in s.mutations && m.index == i;
        assert m in t.mutations;
      } else {
        var tick := Proc(s, step.p).tick.value;
        assert Mutation(i, tick.token) in s.mutations && Mutation(i, tick.token) in t.mutations;
      }
    }
  }

  lemma StepKeepsInv(s: Plane, step: Step)
    requires Inv(s)
    ensures Inv(Next(s, step))
  {
    hide Next, AdvanceTick, TermsGrow, HoldersAreGranted, IntentsAreFenced, CallsMatch, AppliedWasCalled, Extends;
    var t := Next(s, step);
    StepKeepsGrants(s, step);
    StepKeepsHolders(s, step);
    assert ProcessOk(s, Proc(s, step.p));
    hide ProcessOk;
    StepKeepsFence(s, step);
    StepKeepsProcess(s, step);
    StepKeepsCalls(s, step);
    StepKeepsApplied(s, step);
    StepExtends(s, step);
    forall p | p in t.processes ensures ProcessOk(t, t.processes[p]) {
      if p != step.p {
        StepTouchesOne(s, step, p);
        ExtendsProcess(s, t, Proc(s, p));
      }
    }
  }

  /** Every run of any number of processes, in any interleaving, with crashes anywhere and clocks that
      need not agree, satisfies all of the above. */
  lemma {:induction false} EveryRunIsFenced(steps: seq<Step>)
    ensures Inv(Run(START, steps))
  {
    if steps != [] {
      EveryRunIsFenced(steps[..|steps| - 1]);
      StepKeepsInv(Run(START, steps[..|steps| - 1]), steps[|steps| - 1]);
    }
  }

  // ---------------------------------------------------------------- what fencing buys

  /** A term of a lease belongs to one acquire only. */
  lemma OneGrantPerTerm(s: Plane, g: Token, h: Token)
    requires Inv(s) && g in s.grants && h in s.grants && g.name == h.name && g.term == h.term
    ensures g == h
  {
    var i :| 0 <= i < |s.grants| && s.grants[i] == g;
    var j :| 0 <= j < |s.grants| && s.grants[j] == h;
    assert i == j;
  }

  /** A deposed leader adds nothing: a step that records an intent does so under the highest term ever issued. */
  lemma OnlyTheNewestRecords(s: Plane, step: Step, g: Token)
    requires Inv(s) && |Next(s, step).intents| > |s.intents|
    requires g in s.grants && g.name == Proc(s, step.p).token.value.name
    ensures g.term <= Next(s, step).intents[|s.intents|].leaseTerm
  {
  }

  /** A cluster call is made under the very grant its intent was recorded under exactly when the pass ran on the
      intent's own lease. The row stores a term but no lease name, so the numbers alone agree otherwise. */
  lemma CallsAreByTheAuthorIff(s: Plane, m: Mutation)
    requires Inv(s) && m in s.mutations
    ensures m.index < |s.authors| && m.token.term == s.intents[m.index].leaseTerm
    ensures m.token == s.authors[m.index] <==> m.token.name == s.authors[m.index].name
  {
    if m.token.name == s.authors[m.index].name {
      OneGrantPerTerm(s, m.token, s.authors[m.index]);
    }
  }

  /** On the intent's own lease, a pass that still holds the current term supersedes only intents of older terms. */
  lemma CurrentPassSupersedesOnlyStale(s: Plane, step: Step, i: nat)
    requires Inv(s) && step.Advance? && i < |s.intents|
    requires s.intents[i].status != Superseded && Next(s, step).intents[i].status == Superseded
    requires TermIsCurrent(s.leases, Proc(s, step.p).tick.value.token)
    requires s.authors[i].name == Proc(s, step.p).tick.value.token.name
    ensures s.intents[i].leaseTerm < s.leases[s.authors[i].name].term
  {
    assert s.authors[i] in s.grants;
  }

  // ---------------------------------------------------------------- effects under a current term

  // The intent a step calls the cluster for or marks applied, if it does either.
  function EffectOf(s: Plane, step: Step): Option<nat> {
    if step.Advance? && Proc(s, step.p).tick.Some? then
      var t := Proc(s, step.p).tick.value;
      if t.todo == [] || t.todo[0].index >= |s.intents| then None
      else if t.mutated || (t.todo[0].leaseTerm == t.token.term && step.result == Done) then Some(t.todo[0].index)
      else None
    else None
  }

  // The token a step's effect is made under.
  function EffectToken(s: Plane, step: Step): Token
    requires EffectOf(s, step).Some?
  {
    Proc(s, step.p).tick.value.token
  }

  // No later acquisition of the token's lease was granted.
  ghost predicate Newest(s: Plane, g: Token) {
    forall h :: h in s.grants && h.name == g.name ==> h.term <= g.term
  }

  /** A granted term is the current one exactly as long as nobody acquired the lease since. */
  lemma CurrentIffNewest(s: Plane, g: Token)
    requires Inv(s) && g in s.grants
    ensures TermIsCurrent(s.leases, g) <==> Newest(s, g)
  {
    var i :| 0 <= i < |s.grants| && s.grants[i] == g;
    var h :| h in s.grants && Heads(h, g.name, s.leases[g.name]);
  }

  // The effect concerns an intent whose term is no longer its lease's term.
  ghost predicate LateEffect(s: Plane, step: Step)
    requires Inv(s)
  {
    && EffectOf(s, step).Some?
    && var i := EffectOf(s, step).value;
       var n := s.authors[i].name;
       n in s.leases && s.intents[i].leaseTerm != s.leases[n].term
  }

  /** On the intent's own lease, a call or an applied mark is late exactly when somebody acquired the lease after the
      pass's token was granted. Nothing in the pass looks. */
  lemma LateEffectIff(s: Plane, step: Step)
    requires Inv(s) && EffectOf(s, step).Some?
    requires s.authors[EffectOf(s, step).value].name == EffectToken(s, step).name
    ensures LateEffect(s, step) <==> !TermIsCurrent(s.leases, EffectToken(s, step))
    ensures LateEffect(s, step) <==> !Newest(s, EffectToken(s, step))
  {
    assert ProcessOk(s, Proc(s, step.p));
    CurrentIffNewest(s, EffectToken(s, step));
  }

  // Only one lease is in use.
  predicate OneLease(steps: seq<Step>, n: LeaseName) {
    forall k :: 0 <= k < |steps| && steps[k].Acquire? ==> steps[k].name == n
  }

  lemma {:induction false} OneLeaseGrants(steps: seq<Step>, n: LeaseName)
    requires OneLease(steps, n)
    ensures forall g :: g in Run(START, steps).grants ==> g.name == n
  {
    if steps != [] {
      OneLeaseGrants(steps[..|steps| - 1], n);
    }
  }

  /** Over whole runs of one lease: no intent is ever called or marked applied under a term that has passed exactly
      when no pass has an effect left once its lease has been acquired again. */
  lemma NoLateEffectsIff(steps: seq<Step>, n: LeaseName)
    requires OneLease(steps, n)
    ensures forall k :: 0 <= k < |steps| ==> Inv(Run(START, steps[..k]))
    ensures (forall k :: 0 <= k < |steps| ==> !LateEffect(Run(START, steps[..k]), steps[k])) <==>
            (forall k :: 0 <= k < |steps| && EffectOf(Run(START, steps[..k]), steps[k]).Some? ==>
               Newest(Run(START, steps[..k]), EffectToken(Run(START, steps[..k]), steps[k])))
  {
    forall k | 0 <= k < |steps|
      ensures Inv(Run(START, steps[..k]))
      ensures EffectOf(Run(START, steps[..k]), steps[k]).Some? ==>
                (LateEffect(Run(START, steps[..k]), steps[k]) <==>
                   !Newest(Run(START, steps[..k]), EffectToken(Run(START, steps[..k]), steps[k])))
    {
      hide Next, Run, Newest, LateEffect;
      var s := Run(START, steps[..k]);
      EveryRunIsFenced(steps[..k]);
      OneLeaseGrants(steps[..k], n);
      if EffectOf(s, steps[k]).Some? {
        assert ProcessOk(s, Proc(s, steps[k].p));
        assert s.authors[EffectOf(s, steps[k]).value] in s.grants;
        LateEffectIff(s, steps[k]);
      }
    }
  }

  /** Acquiring a lease raises its term above every term granted before, the process's own included. */
  lemma AcquireRaisesTheTerm(s: Plane, step: Step, g: Token)
    requires Inv(s) && step.Acquire? && g in s.grants && g.name == step.name
    requires Granted(s.leases, step.name, step.holder, step.now, step.ttl).Some?
    ensures var token := Proc(Next(s, step), step.p).token; token.Some? && g.term < token.value.term
  {
  }

  // ---------------------------------------------------------------- who may take a lease

  // The step wrote this row for the lease: a granted acquire, a renewal or a release by its holder.
  ghost predicate Writes(s: Plane, step: Step, n: LeaseName, row: LeaseRow) {
    match step
    case Acquire(_, name, holder, now, ttl) =>
      && name == n && row.holder == Some(holder) && row.expires == Some(now + ttl)
      && row.term == (if n in s.leases then s.leases[n].term + 1 else 1)
    case Renew(p, now) =>
      && n in s.leases && Proc(s, p).token.Some? && Proc(s, p).token.value.name == n
      && s.leases[n].holder == Some(Proc(s, p).token.value.holder) && s.leases[n].term == Proc(s, p).token.value.term
      && row == LeaseRow(s.leases[n].holder, s.leases[n].term, Some(now + 60))
    case Release(p) =>
      && n in s.leases && Proc(s, p).token.Some? && Proc(s, p).token.value.name == n
      && s.leases[n].holder == Some(Proc(s, p).token.value.holder) && s.leases[n].term == Proc(s, p).token.value.term
      && row == LeaseRow(None, s.leases[n].term, None)
    case _ => false
  }

  // The k-th step of the run was the last to write the row.
  ghost predicate WroteLast(steps: seq<Step>, n: LeaseName, k: nat) {
    && k < |steps| && n in Run(START, steps).leases
    && Writes(Run(START, steps[..k]), steps[k], n, Run(START, steps).leases[n])
    && forall j :: k < j <= |steps| ==>
         n in Run(START, steps[..j]).leases
         && Run(START, steps[..j]).leases[n] == Run(START, steps).leases[n]
  }

  lemma RowIsWritten(s: Plane, step: Step, n: LeaseName)
    requires n in Next(s, step).leases
    ensures Writes(s, step, n, Next(s, step).leases[n]) || (n in s.leases && Next(s, step).leases[n] == s.leases[n])
  {
  }

  lemma {:induction false} EveryRowHasItsWriter(steps: seq<Step>, n: LeaseName) returns (k: nat)
    requires n in Run(START, steps).leases
    ensures WroteLast(steps, n, k)
  {
    var init := steps[..|steps| - 1];
    var s := Run(START, init);
    RowIsWritten(s, steps[|steps| - 1], n);
    assert steps[..|steps|] == steps;
    hide Next, Writes;
    if n in s.leases && Run(START, steps).leases[n] == s.leases[n] {
      k := EveryRowHasItsWriter(init, n);
      forall j | k < j <= |steps| ensures n in Run(START, steps[..j]).leases
                                          && Run(START, steps[..j]).leases[n] == Run(START, steps).leases[n] {
        if j <= |init| { assert init[..j] == steps[..j]; }
      }
      assert init[..k] == steps[..k];
    } else {
      k := |steps| - 1;
    }
  }

  /** Over every run: an acquire of a lease that has a row is granted exactly when the caller holds it already, or the
      last write to the row was a release, or it was an acquire or a renewal whose expiry lies before the caller's
      `now`. A grant writes the caller, the next term and the new expiry; a refusal changes no lease. */
  lemma TakeoverIff(steps: seq<Step>, step: Step) returns (k: nat)
    requires step.Acquire? && step.name in Run(START, steps).leases
    ensures WroteLast(steps, step.name, k)
    ensures var s := Run(START, steps);
            var t, row := Next(s, step), s.leases[step.name];
      && (|t.grants| == |s.grants| + 1 <==>
            || row.holder == Some(step.holder)
            || steps[k].Release?
            || (steps[k].Acquire? && steps[k].now + steps[k].ttl < step.now)
            || (steps[k].Renew? && steps[k].now + 60 < step.now))
      && (|t.grants| == |s.grants| + 1 ==>
            && t.leases == s.leases[step.name := LeaseRow(Some(step.holder), row.term + 1, Some(step.now + step.ttl))]
            && Proc(t, step.p).token == Some(Token(step.name, step.holder, row.term + 1, step.now + step.ttl)))
      && (|t.grants| != |s.grants| + 1 ==>
            t.leases == s.leases && t.grants == s.grants && Proc(t, step.p).token == None)
  {
    k := EveryRowHasItsWriter(steps, step.name);
    hide Run;
  }

  // ---------------------------------------------------------------- what a process forgets

  // The process holds no token and runs no pass.
  predicate Idle(s: Plane, p: ProcessId) { Proc(s, p).token.None? && Proc(s, p).tick.None? }

  predicate SameTables(s: Plane, t: Plane) {
    t.leases == s.leases && t.intents == s.intents && t.grants == s.grants && t.mutations == s.mutations
  }

  /** What a process has in hand after its own steps: a crash takes everything, a release its token, a cancellation its
      pass, and a pass ends with its last row. None of these but the release touches a table. */
  lemma StepForgets(s: Plane, step: Step)
    ensures var was, now := Proc(s, step.p), Proc(Next(s, step), step.p);
      && (step.Crash? ==> Idle(Next(s, step), step.p) && SameTables(s, Next(s, step)))
      && (step.Cancel? ==> now == Process(was.token, None) && SameTables(s, Next(s, step)))
      && (step.Release? ==> now == Process(None, was.tick))
      && (step.Renew? || step.Record? ==> now == was)
      && (step.StartTick? ==> now.token == was.token && (was.tick.Some? ==> now == was) && SameTables(s, Next(s, step)))
      && (step.Advance? && was.tick.Some? && was.tick.value.todo == [] ==>
            now == Process(was.token, None) && SameTables(s, Next(s, step)))
      && (Idle(s, step.p) && !step.Acquire? ==> Idle(Next(s, step), step.p) && SameTables(s, Next(s, step)))
  {
  }

  lemma {:induction false} StaysIdle(steps: seq<Step>, p: ProcessId, k: nat, j: nat)
    requires k < j <= |steps| && steps[k] == Crash(p)
    requires forall i :: k < i < j && steps[i].p == p ==> !steps[i].Acquire?
    ensures Idle(Run(START, steps[..j]), p)
    decreases j
  {
    hide Next, Idle;
    var s := Run(START, steps[..j - 1]);
    assert steps[..j][..j - 1] == steps[..j - 1];
    if j - 1 > k { StaysIdle(steps, p, k, j - 1); }
    StepForgets(s, steps[j - 1]);
    if steps[j - 1].p != p { IdleElsewhere(s, steps[j - 1], p); }
  }

  lemma IdleElsewhere(s: Plane, step: Step, p: ProcessId)
    requires p != step.p && Idle(s, p)
    ensures Idle(Next(s, step), p)
  {
    StepTouchesOne(s, step, p);
  }

  /** Over every run: between a crash and its next acquire a process changes no table and calls nothing. */
  lemma CrashedProcessIsSilent(steps: seq<Step>, p: ProcessId, k: nat, j: nat)
    requires k < j < |steps| && steps[k] == Crash(p) && steps[j].p == p
    requires forall i :: k < i <= j && steps[i].p == p ==> !steps[i].Acquire?
    ensures SameTables(Run(START, steps[..j]), Run(START, steps[..j + 1]))
  {
    hide Next, Idle;
    StaysIdle(steps, p, k, j);
    assert steps[..j + 1][..j] == steps[..j];
    StepForgets(Run(START, steps[..j]), steps[j]);
  }

  // ---------------------------------------------------------------- decided intents

  // The status write a step makes, if it makes one.
  function StatusWrite(s: Plane, step: Step): Option<(nat, Status)> {
    if step.Advance? && Proc(s, step.p).tick.Some? then
      var t := Proc(s, step.p).tick.value;
      if t.todo == [] || t.todo[0].index >= |s.intents| then None
      else if t.mutated then Some((t.todo[0].index, Applied))
      else if t.todo[0].leaseTerm != t.token.term then Some((t.todo[0].index, Superseded))
      else if step.result == Error && t.todo[0].attempts + 1 >= MAX_ATTEMPTS then Some((t.todo[0].index, Status.Failed))
      else None
    else None
  }

  // Applied, superseded and failed intents stay what they are.
  ghost predicate KeepsDecided(s: Plane, t: Plane) {
    forall i :: 0 <= i < |s.intents| && i < |t.intents| && s.intents[i].status != Pending ==>
      t.intents[i].status == s.intents[i].status
  }

  /** The status writes carry no guard on the present status. A step leaves decided intents alone exactly
      when the row it writes is still pending or already has that status. */
  lemma StepKeepsDecidedIff(s: Plane, step: Step)
    ensures KeepsDecided(s, Next(s, step)) <==>
            (StatusWrite(s, step).Some? ==>
               var (i, status) := StatusWrite(s, step).value; s.intents[i].status in {Pending, status})
  {
    if StatusWrite(s, step).Some? {
      var (i, status) := StatusWrite(s, step).value;
      assert Next(s, step).intents[i].status == status;
    }
  }

  // No pass starts while another is in flight.
  ghost predicate Exclusive(steps: seq<Step>) {
    forall i, p :: 0 <= i < |steps| && steps[i].StartTick? ==> Proc(Run(START, steps[..i]), p).tick.None?
  }

  // The rows still to do are distinct and pending.
  ghost predicate Undone(intents: seq<Intent>, todo: seq<Read>) {
    Increasing(todo) && forall i :: 0 <= i < |todo| ==>
      todo[i].index < |intents| && intents[todo[i].index].status == Pending
  }

  // At most one pass is in flight, and its rows are distinct and pending.
  ghost predicate OnePass(s: Plane) {
    && (forall p, q :: Proc(s, p).tick.Some? && Proc(s, q).tick.Some? ==> p == q)
    && (forall p :: Proc(s, p).tick.Some? ==> Undone(s.intents, Proc(s, p).tick.value.todo))
  }

  lemma StepKeepsOnePass(s: Plane, step: Step)
    requires OnePass(s) && (step.StartTick? ==> forall p :: Proc(s, p).tick.None?)
    ensures OnePass(Next(s, step)) && KeepsDecided(s, Next(s, step))
  {
    var t := Next(s, step);
    forall p | p != step.p ensures Proc(t, p) == Proc(s, p) {
      StepTouchesOne(s, step, p);
    }
    StepKeepsDecidedIff(s, step);
    if Proc(s, step.p).tick.Some? {
      PassAdvances(s, step);
    }
  }

  // Writing the first of the rows to do leaves the others as they were.
  lemma RestIsUndone(intents: seq<Intent>, todo: seq<Read>, r: Intent)
    requires Undone(intents, todo) && todo != []
    ensures Undone(intents[todo[0].index := r], todo[1..]) && Undone(intents, todo[1..])
  {
  }

  lemma MoreIntents(intents: seq<Intent>, todo: seq<Read>, r: Intent)
    requires Undone(intents, todo)
    ensures Undone(intents + [r], todo)
  {
  }

  // The pass in flight keeps distinct, pending rows.
  lemma PassAdvances(s: Plane, step: Step)
    requires Proc(s, step.p).tick.Some? && Undone(s.intents, Proc(s, step.p).tick.value.todo)
    ensures Proc(Next(s, step), step.p).tick.Some? ==>
              Undone(Next(s, step).intents, Proc(Next(s, step), step.p).tick.value.todo)
  {
    var todo := Proc(s, step.p).tick.value.todo;
    if step.Advance? && todo != [] {
      AdvanceKeepsUndone(s, step.p, Proc(s, step.p).tick.value, step.result);
    } else if step.Record? && Proc(s, step.p).token.Some? {
      hide Undone;
      MoreIntents(s.intents, todo, Intent(step.call, Proc(s, step.p).token.value.term, Pending, None, 0));
    }
  }

  lemma AdvanceKeepsUndone(s: Plane, p: ProcessId, t: Tick, result: CallResult)
    requires Undone(s.intents, t.todo) && t.todo != []
    ensures var u := AdvanceTick(s, p, t, result);
      Proc(u, p).tick.Some? && Undone(u.intents, Proc(u, p).tick.value.todo)
  {
    var i := t.todo[0].index;
    assert i < |s.intents|;
    hide Undone, MarkedApplied, MarkedSuperseded, Attempted;
    RestIsUndone(s.intents, t.todo, MarkedApplied(s.intents[i], t.token.term));
    RestIsUndone(s.intents, t.todo, MarkedSuperseded(s.intents[i]));
    RestIsUndone(s.intents, t.todo, Attempted(s.intents[i], t.todo[0].attempts + 1));
  }

  /** If passes never overlap, decided intents are final in every run. */
  lemma {:induction false} ExclusiveRunsAbsorb(steps: seq<Step>, i: nat)
    requires Exclusive(steps) && i <= |steps|
    ensures OnePass(Run(START, steps))
    ensures KeepsDecided(Run(START, steps[..i]), Run(START, steps))
    ensures |Run(START, steps[..i]).intents| <= |Run(START, steps).intents|
    decreases |steps|
  {
    if i == |steps| {
      assert steps[..i] == steps;
    }
    if steps != [] {
      var init := steps[..|steps| - 1];
      forall j, p | 0 <= j < |init| && init[j].StartTick? ensures Proc(Run(START, init[..j]), p).tick.None? {
        assert init[..j] == steps[..j];
      }
      ExclusiveRunsAbsorb(init, if i < |steps| then i else i - 1);
      StepKeepsOnePass(Run(START, init), steps[|steps| - 1]);
      StepExtends(Run(START, init), steps[|steps| - 1]);
      assert i < |steps| ==> init[..i] == steps[..i];
    }
  }

  // ---------------------------------------------------------------- what overlapping passes break

  const OLD_TOKEN := Token("controller", "a", 1, 60)
  const NEW_TOKEN := Token("controller", "b", 2, 160)
  const TWO_LEADERS := [Acquire(0, "controller", "a", 0, 60), Acquire(1, "controller", "b", 100, 60)]

  lemma BatchOfOne(intents: seq<Intent>)
    requires |intents| == 1 && intents[0].status == Pending
    ensures Batch(intents) == [Read(0, intents[0].leaseTerm, intents[0].attempts)]
  {
    assert PendingReads(intents, 1) == [];
  }

  // The old leader has recorded an intent, started a pass and made the cluster call, but not yet written it down.
  const STALLED := [Acquire(0, "controller", "a", 0, 60), Record(0, ScaleToZero("d")), StartTick(0), Advance(0, Done)]

  ghost predicate Stalled(s: Plane) {
    && s.leases == map["controller" := LeaseRow(Some("a"), 1, Some(60))]
    && s.intents == [Intent(ScaleToZero("d"), 1, Pending, None, 0)]
    && s.processes == map[0 := Process(Some(OLD_TOKEN), Some(Tick(OLD_TOKEN, [Read(0, 1, 0)], true)))]
  }

  lemma RunNone(s: Plane)
    ensures Run(s, []) == s
  {}

  lemma RunFour(s: Plane, a: Step, b: Step, c: Step, d: Step)
    ensures Run(s, [a, b, c, d]) == Next(Next(Next(Next(s, a), b), c), d)
  {
    hide Next, Run;
    RunNone(s);
    RunSnoc(s, [], a);
    RunSnoc(s, [a], b);
    RunSnoc(s, [a, b], c);
    RunSnoc(s, [a, b, c], d);
    assert [] + [a] == [a] && [a] + [b] == [a, b] && [a, b] + [c] == [a, b, c] && [a, b, c] + [d] == [a, b, c, d];
  }

  lemma StalledIsReached()
    ensures Stalled(Run(START, STALLED))
  {
    var a, b, c, d := STALLED[0], STALLED[1], STALLED[2], STALLED[3];
    RunFour(START, a, b, c, d);
    var s2 := Next(Next(START, a), b);
    assert s2.intents == [Intent(ScaleToZero("d"), 1, Pending, None, 0)];
    assert s2.processes == map[0 := Process(Some(OLD_TOKEN), None)];
    BatchOfOne(s2.intents);
    var s3 := Next(s2, c);
    assert s3.processes == map[0 := Process(Some(OLD_TOKEN), Some(Tick(OLD_TOKEN, [Read(0, 1, 0)], false)))];
  }

  // The successor takes over and reads the old intent as stale; then the old leader writes.
  lemma SuccessorThenLateWrite(s: Plane)
    requires Stalled(s)
    ensures var t := Next(Next(Next(s, Acquire(1, "controller", "b", 100, 60)), StartTick(1)), Advance(1, Done));
      && |t.intents| == 1 && t.intents[0].status == Superseded
      && t.leases == map["controller" := LeaseRow(Some("b"), 2, Some(160))]
      && Next(t, Advance(0, Done)).leases == t.leases
      && Next(t, Advance(0, Done)).intents == [Intent(ScaleToZero("d"), 1, Applied, Some(1), 0)]
  {
    var t1 := Next(s, Acquire(1, "controller", "b", 100, 60));
    BatchOfOne(t1.intents);
    var t2 := Next(t1, StartTick(1));
    assert t2.processes ==
      map[0 := Proc(s, 0), 1 := Process(Some(NEW_TOKEN), Some(Tick(NEW_TOKEN, [Read(0, 1, 0)], false)))];
    var t3 := Next(t2, Advance(1, Done));
    assert Proc(t3, 0) == Proc(s, 0);
  }

  /** A leader whose lease ran out finishes its pass late: the intent its successor had already superseded
      ends up applied, under a term that is no longer current. */
  lemma LateWriteRevivesSuperseded()
    ensures exists steps, step :: var s, t := Run(START, steps), Run(START, steps + [step]);
      && |s.intents| == |t.intents| == 1
      && s.intents[0].status == Superseded && t.intents[0].status == Applied
      && "controller" in t.leases && t.leases["controller"].term == 2 != t.intents[0].leaseTerm
  {
    StalledIsReached();
    SuccessorThenLateWrite(Run(START, STALLED));
    var a1 := STALLED + [Acquire(1, "controller", "b", 100, 60)];
    var a2 := a1 + [StartTick(1)];
    var a3 := a2 + [Advance(1, Done)];
    RunSnoc(START, STALLED, Acquire(1, "controller", "b", 100, 60));
    RunSnoc(START, a1, StartTick(1));
    RunSnoc(START, a2, Advance(1, Done));
    RunSnoc(START, a3, Advance(0, Done));
  }

  /** ... and its pass rejects the new leader's intent: superseded although its term is the current one. */
  lemma DeposedPassRejectsLiveIntent()
    ensures exists steps :: var s := Run(START, steps);
      && |s.intents| == 1 && s.intents[0].status == Superseded
      && "controller" in s.leases && s.intents[0].leaseTerm == s.leases["controller"].term == 2
  {
    var o, n := TWO_LEADERS[0], TWO_LEADERS[1];
    RunSnoc(START, [], o);
    assert [] + [o] == [o];
    assert Run(START, [o]).processes == map[0 := Process(Some(OLD_TOKEN), None)];
    RunSnoc(START, [o], n);
    assert [o] + [n] == TWO_LEADERS;
    var s2 := Run(START, TWO_LEADERS);
    assert s2.processes == map[0 := Process(Some(OLD_TOKEN), None), 1 := Process(Some(NEW_TOKEN), None)];
    RunSnoc(START, TWO_LEADERS, Record(1, ScaleToZero("d")));
    var a3 := TWO_LEADERS + [Record(1, ScaleToZero("d"))];
    var s3 := Run(START, a3);
    assert s3.intents == [Intent(ScaleToZero("d"), 2, Pending, None, 0)];
    RunSnoc(START, a3, StartTick(0));
    var a4 := a3 + [StartTick(0)];
    BatchOfOne(s3.intents);
    RunSnoc(START, a4, Advance(0, Done));
    assert Run(START, a4 + [Advance(0, Done)]).intents[0].status == Superseded;
  }

  // The process dies between the cluster call and the mark, restarts under the same name and runs a pass.
  lemma RestartThenPass(s: Plane)
    requires Stalled(s) && s.mutations == [Mutation(0, OLD_TOKEN)]
    ensures var t := Next(Next(Next(Next(s, Crash(0)), Acquire(0, "controller", "a", 1, 60)), StartTick(0)),
                          Advance(0, Done));
      t.intents == [Intent(ScaleToZero("d"), 1, Superseded, None, 0)] && t.mutations == s.mutations
  {
    var token := Token("controller", "a", 2, 61);
    var t1 := Next(s, Crash(0));
    var t2 := Next(t1, Acquire(0, "controller", "a", 1, 60));
    assert t2.processes == map[0 := Process(Some(token), None)];
    BatchOfOne(t2.intents);
    var t3 := Next(t2, StartTick(0));
    assert t3.processes == map[0 := Process(Some(token), Some(Tick(token, [Read(0, 1, 0)], false)))];
  }

  lemma StalledCall()
    ensures Run(START, STALLED).mutations == [Mutation(0, OLD_TOKEN)]
  {
    var a, b, c, d := STALLED[0], STALLED[1], STALLED[2], STALLED[3];
    RunFour(START, a, b, c, d);
    var s2 := Next(Next(START, a), b);
    assert s2.intents == [Intent(ScaleToZero("d"), 1, Pending, None, 0)];
    assert s2.processes == map[0 := Process(Some(OLD_TOKEN), None)];
    BatchOfOne(s2.intents);
  }

  /** A crash between the cluster call and the mark loses the mark for good: the restarted process acquires a higher
      term even under its old name, and supersedes the intent whose effect is already in the cluster. */
  lemma CrashLosesTheMark()
    ensures exists steps :: var s := Run(START, steps);
      |s.intents| == 1 && s.intents[0].status == Superseded && |s.mutations| == 1 && s.mutations[0].index == 0
  {
    hide Next, Run, Stalled;
    StalledIsReached();
    StalledCall();
    RestartThenPass(Run(START, STALLED));
    var a1 := STALLED + [Crash(0)];
    var a2 := a1 + [Acquire(0, "controller", "a", 1, 60)];
    var a3 := a2 + [StartTick(0)];
    var a4 := a3 + [Advance(0, Done)];
    RunSnoc(START, STALLED, Crash(0));
    RunSnoc(START, a1, Acquire(0, "controller", "a", 1, 60));
    RunSnoc(START, a2, StartTick(0));
    RunSnoc(START, a3, Advance(0, Done));
    assert Run(START, a4).intents == [Intent(ScaleToZero("d"), 1, Superseded, None, 0)];
  }

  // ---------------------------------------------------------------- two leases, one table of intents

  const OTHER_TOKEN := Token("sweeper", "b", 1, 60)

  // Leaders of two leases, both at term one; the first has recorded an intent, the second runs a pass.
  const TWO_LEASES := [Acquire(0, "controller", "a", 0, 60), Acquire(1, "sweeper", "b", 0, 60),
                       Record(0, ScaleToZero("d")), StartTick(1)]

  ghost predicate SweeperInPass(s: Plane) {
    && s.intents == [Intent(ScaleToZero("d"), 1, Pending, None, 0)] && s.authors == [OLD_TOKEN]
    && s.mutations == [] && Proc(s, 1).tick == Some(Tick(OTHER_TOKEN, [Read(0, 1, 0)], false))
    && s.leases == map["controller" := LeaseRow(Some("a"), 1, Some(60)), "sweeper" := LeaseRow(Some("b"), 1, Some(60))]
  }

  lemma TwoLeasesReached()
    ensures SweeperInPass(Run(START, TWO_LEASES))
  {
    var a, b, c, d := TWO_LEASES[0], TWO_LEASES[1], TWO_LEASES[2], TWO_LEASES[3];
    RunFour(START, a, b, c, d);
    var s2 := Next(Next(START, a), b);
    assert s2.processes == map[0 := Process(Some(OLD_TOKEN), None), 1 := Process(Some(OTHER_TOKEN), None)];
    var s3 := Next(s2, c);
    assert s3.intents == [Intent(ScaleToZero("d"), 1, Pending, None, 0)];
    BatchOfOne(s3.intents);
  }

  /** With two leases at the same term, the leader of one makes the calls of the other's intents. */
  lemma OtherLeaseMakesTheCall()
    ensures exists steps :: var s := Run(START, steps);
      && |s.mutations| == 1 && |s.authors| == 1
      && s.mutations[0].index == 0 && s.mutations[0].token.name != s.authors[0].name
  {
    TwoLeasesReached();
    var s := Run(START, TWO_LEASES);
    RunSnoc(START, TWO_LEASES, Advance(1, Done));
    assert Run(START, TWO_LEASES + [Advance(1, Done)]).mutations == [Mutation(0, OTHER_TOKEN)];
  }

  /** ... and at another term it supersedes them, although their own term is current. */
  lemma OtherLeaseSupersedes()
    ensures exists steps :: var s := Run(START, steps);
      && |s.intents| == 1 && |s.authors| == 1 && s.intents[0].status == Superseded
      && s.authors[0].name in s.leases && s.intents[0].leaseTerm == s.leases[s.authors[0].name].term
  {
    hide Next, Run, SweeperInPass;
    TwoLeasesReached();
    SweeperAgain(Run(START, TWO_LEASES));
    var a1 := TWO_LEASES + [Cancel(1)];
    var a2 := a1 + [Acquire(1, "sweeper", "b", 1, 60)];
    var a3 := a2 + [StartTick(1)];
    RunSnoc(START, TWO_LEASES, Cancel(1));
    RunSnoc(START, a1, Acquire(1, "sweeper", "b", 1, 60));
    RunSnoc(START, a2, StartTick(1));
    RunSnoc(START, a3, Advance(1, Done));
    var t := Run(START, a3 + [Advance(1, Done)]);
    assert t.intents[0].status == Superseded && t.authors[0].name == "controller";
  }

  // The second leader drops its pass, acquires its lease once more and runs a pass at term two.
  lemma SweeperAgain(s: Plane)
    requires SweeperInPass(s)
    ensures var t := Next(Next(Next(Next(s, Cancel(1)), Acquire(1, "sweeper", "b", 1, 60)), StartTick(1)),
                          Advance(1, Done));
      && t.intents == [Intent(ScaleToZero("d"), 1, Superseded, None, 0)] && t.authors == [OLD_TOKEN]
      && "controller" in t.leases && t.leases["controller"].term == 1
  {
    var token := Token("sweeper", "b", 2, 61);
    var s2 := Next(Next(s, Cancel(1)), Acquire(1, "sweeper", "b", 1, 60));
    assert Proc(s2, 1) == Process(Some(token), None);
    BatchOfOne(s2.intents);
    var s3 := Next(s2, StartTick(1));
    assert Proc(s3, 1).tick == Some(Tick(token, [Read(0, 1, 0)], false));
  }
}
