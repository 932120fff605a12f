/**
  * The convergence guards of one automation: a budget of auto-applied edits that only a human
  * approval refills, and a cooldown between edits written by agent runs.
  *
  * Times are microseconds; the cooldown column counts seconds.
  */
module ConvergenceGuards {
  import opened Prelude

  const MICROS: int := 1_000_000

  /** The four guard columns of an automation definition. */
  datatype Guard = Guard(budgetMax: int, cooldown: int, consumed: int, lastSelfEdit: Option<int>)

  /**
    * What happens to the guard columns. An auto-apply reads the clock twice: when the guard is
    * checked and when the edit is stamped.
    */
  datatype Event =
    | AutoApply(checkedAt: int, stampedAt: int, byRun: bool)
    | Approval

  /** An agent-authored edit is refused while the last auto-applied edit is too recent. */
  predicate Cooling(g: Guard, now: int, byRun: bool) {
    byRun && g.lastSelfEdit.Some? && g.cooldown > 0 && now - g.lastSelfEdit.value < g.cooldown * MICROS
  }

  predicate Exhausted(g: Guard) {
    g.budgetMax > 0 && g.consumed >= g.budgetMax
  }

  predicate Legal(g: Guard, e: Event) {
    e.AutoApply? ==> e.checkedAt <= e.stampedAt && !Cooling(g, e.checkedAt, e.byRun) && !Exhausted(g)
  }

  function After(g: Guard, e: Event): Guard {
    match e
    case AutoApply(_, at, _) => g.(consumed := g.consumed + 1, lastSelfEdit := Some(at))
    case Approval => g.(consumed := 0)
  }

  function Run(g: Guard, es: seq<Event>): Guard {
    if es == [] then g else After(Run(g, es[..|es| - 1]), es[|es| - 1])
  }

  predicate LegalRun(g: Guard, es: seq<Event>) {
    es != [] ==>
      LegalRun(g, es[..|es| - 1]) && Legal(Run(g, es[..|es| - 1]), es[|es| - 1])
  }

  /** How many of the events are auto-applied edits. */
  function Edits(es: seq<Event>): nat {
    if es == [] then 0 else Edits(es[..|es| - 1]) + if es[|es| - 1].AutoApply? then 1 else 0
  }

  predicate NoApproval(es: seq<Event>) {
    forall k :: 0 <= k < |es| ==> es[k].AutoApply?
  }

  lemma {:induction false} ColumnsAreFixed(g: Guard, es: seq<Event>)
    ensures Run(g, es).budgetMax == g.budgetMax && Run(g, es).cooldown == g.cooldown
  {
    if es != [] { ColumnsAreFixed(g, es[..|es| - 1]); }
  }

  lemma {:induction false} RunSplits(g: Guard, es: seq<Event>, fs: seq<Event>)
    ensures Run(g, es + fs) == Run(Run(g, es), fs)
    ensures LegalRun(g, es + fs) <==> LegalRun(g, es) && LegalRun(Run(g, es), fs)
    decreases |fs|
  {
    if fs == [] {
      assert es + fs == es;
    } else {
      RunSplits(g, es, fs[..|fs| - 1]);
      assert (es + fs)[..|es + fs| - 1] == es + fs[..|fs| - 1];
    }
  }

  /** The counter never goes negative, and never passes a positive budget it started within. */
  lemma {:induction false} CounterStaysWithinBudget(g: Guard, es: seq<Event>)
    requires LegalRun(g, es) && 0 <= g.consumed && (g.budgetMax > 0 ==> g.consumed <= g.budgetMax)
    ensures 0 <= Run(g, es).consumed
    ensures g.budgetMax > 0 ==> Run(g, es).consumed <= g.budgetMax
  {
    if es != [] {
      CounterStaysWithinBudget(g, es[..|es| - 1]);
      ColumnsAreFixed(g, es[..|es| - 1]);
    }
  }

  /** Without an approval the counter moves by exactly the number of auto-applied edits. */
  lemma {:induction false} CounterCounts(g: Guard, es: seq<Event>)
    requires NoApproval(es)
    ensures Run(g, es).consumed == g.consumed + Edits(es) && Edits(es) == |es|
  {
    if es != [] { CounterCounts(g, es[..|es| - 1]); }
  }

  /** Between two human approvals, over every run, at most `budgetMax` edits are auto-applied. */
  lemma {:induction false} BudgetBoundsEdits(g: Guard, es: seq<Event>, i: nat, j: nat)
    requires LegalRun(g, es) && 0 <= g.consumed <= g.budgetMax && 0 < g.budgetMax
    requires i <= j <= |es| && NoApproval(es[i..j])
    ensures Edits(es[i..j]) <= g.budgetMax
  {
    assert es == es[..i] + es[i..j] + es[j..];
    RunSplits(g, es[..i] + es[i..j], es[j..]);
    RunSplits(g, es[..i], es[i..j]);
    CounterStaysWithinBudget(g, es[..i]);
    CounterStaysWithinBudget(g, es[..i] + es[i..j]);
    CounterCounts(Run(g, es[..i]), es[i..j]);
  }

  /** `n` edits by a person, all at the same moment. */
  function Burst(n: nat, at: int): (es: seq<Event>)
    ensures |es| == n
    ensures NoApproval(es)
  {
    if n == 0 then [] else Burst(n - 1, at) + [AutoApply(at, at, false)]
  }

  lemma {:induction false} BurstIsLegal(g: Guard, n: nat, at: int)
    requires g.budgetMax <= 0 || g.consumed + n <= g.budgetMax
    ensures LegalRun(g, Burst(n, at))
  {
    if n > 0 {
      BurstIsLegal(g, n - 1, at);
      ColumnsAreFixed(g, Burst(n - 1, at));
      CounterCounts(g, Burst(n - 1, at));
      assert Burst(n, at)[..n - 1] == Burst(n - 1, at);
    }
  }

  /**
    * The budget is a bound on approval-free edits exactly when the column is positive: zero and
    * negative values switch the guard off altogether rather than forbidding every edit.
    */
  lemma {:induction false} SomeBoundIff(g: Guard)
    requires 0 <= g.consumed && (g.budgetMax > 0 ==> g.consumed <= g.budgetMax)
    ensures (exists bound: nat :: BoundsEveryRun(g, bound)) <==> g.budgetMax > 0
  {
    if g.budgetMax > 0 {
      forall es | LegalRun(g, es) && NoApproval(es) ensures Edits(es) <= g.budgetMax {
        assert es[0..|es|] == es;
        BudgetBoundsEdits(g, es, 0, |es|);
      }
      assert BoundsEveryRun(g, g.budgetMax);
    } else {
      forall bound: nat ensures !BoundsEveryRun(g, bound) {
        var es := Burst(bound + 1, 0);
        BurstIsLegal(g, bound + 1, 0);
        CounterCounts(g, es);
      }
    }
  }

  ghost predicate BoundsEveryRun(g: Guard, bound: nat) {
    forall es :: LegalRun(g, es) && NoApproval(es) ==> Edits(es) <= bound
  }

  // ---------------------------------------------------------------------
  // The cooldown
  // ---------------------------------------------------------------------

  /** The stamps follow one clock that never runs backwards. */
  predicate OneClock(es: seq<Event>) {
    forall i, j :: 0 <= i < j < |es| && es[i].AutoApply? && es[j].AutoApply? ==>
      es[i].stampedAt <= es[j].checkedAt
  }

  predicate ByRun(e: Event) { e.AutoApply? && e.byRun }

  /** How many of the events are edits written by an agent run. */
  function RunEdits(es: seq<Event>): nat {
    if es == [] then 0 else RunEdits(es[..|es| - 1]) + if ByRun(es[|es| - 1]) then 1 else 0
  }

  /** After an auto-applied edit, the stored stamp is at or after it until the run ends. */
  lemma {:induction false} StampIsLatest(g: Guard, es: seq<Event>, i: nat)
    requires OneClock(es) && i < |es| && es[i].AutoApply?
    requires LegalRun(g, es)
    ensures Run(g, es).lastSelfEdit.Some? && es[i].stampedAt <= Run(g, es).lastSelfEdit.value
  {
    var init := es[..|es| - 1];
    if i < |es| - 1 {
      assert es[i] == init[i];
      StampIsLatest(g, init, i);
    }
  }

  lemma LastIsLegal(g: Guard, es: seq<Event>)
    requires LegalRun(g, es) && es != []
    ensures LegalRun(g, es[..|es| - 1]) && Legal(Run(g, es[..|es| - 1]), es[|es| - 1])
  {}

  /** An edit by an agent run comes at least one cooldown after every earlier auto-applied edit. */
  lemma {:induction false} RunEditsAreSpaced(g: Guard, es: seq<Event>, i: nat, j: nat)
    requires OneClock(es) && LegalRun(g, es)
    requires i < j < |es| && es[i].AutoApply? && ByRun(es[j])
    requires 0 < g.cooldown
    ensures es[j].checkedAt - es[i].stampedAt >= g.cooldown * MICROS
  {
    hide Run, LegalRun;
    assert es == es[..j + 1] + es[j + 1..];
    RunSplits(g, es[..j + 1], es[j + 1..]);
    LastIsLegal(g, es[..j + 1]);
    var upTo := es[..j + 1];
    assert upTo[..|upTo| - 1] == es[..j];
    ColumnsAreFixed(g, es[..j]);
    assert es[i] == es[..j][i];
    StampIsLatest(g, es[..j], i);
  }

  lemma Monotone(k: int, gap: int, a: int, b: int, c: int)
    requires b - a >= (k - 1) * gap && c - b >= gap
    ensures c - a >= k * gap
  {}

  /** `last` is the final run-authored edit of `es`, and `first` the opening one. */
  predicate Ends(es: seq<Event>, first: nat, last: nat) {
    && first <= last < |es| && ByRun(es[first]) && ByRun(es[last])
    && (forall k :: 0 <= k < first ==> !ByRun(es[k]))
    && (forall k :: last < k < |es| ==> !ByRun(es[k]))
  }

  lemma {:induction false} NoRunEdits(es: seq<Event>)
    requires forall k :: 0 <= k < |es| ==> !ByRun(es[k])
    ensures RunEdits(es) == 0
  {
    if es != [] { NoRunEdits(es[..|es| - 1]); }
  }

  lemma {:induction false} LastRunEdit(es: seq<Event>, first: nat) returns (last: nat)
    requires first < |es| && ByRun(es[first]) && forall k :: 0 <= k < first ==> !ByRun(es[k])
    ensures Ends(es, first, last)
  {
    last := |es| - 1;
    while !ByRun(es[last])
      invariant first <= last < |es|
      invariant forall k :: last < k < |es| ==> !ByRun(es[k])
      decreases last
    {
      last := last - 1;
    }
  }

  /** Any N auto-applied edits by agent runs span at least (N - 1) cooldowns. */
  lemma {:induction false} CooldownSpans(g: Guard, es: seq<Event>, first: nat, last: nat)
    requires OneClock(es) && LegalRun(g, es) && 0 < g.cooldown && Ends(es, first, last)
    ensures es[last].stampedAt - es[first].stampedAt >= (RunEdits(es) - 1) * (g.cooldown * MICROS)
    decreases |es|
  {
    var init := es[..|es| - 1];
    if last < |es| - 1 {
      assert Ends(init, first, last);
      CooldownSpans(g, init, first, last);
    } else if first == last {
      NoRunEdits(init);
    } else {
      var before := LastRunEdit(init, first);
      CooldownSpans(g, init, first, before);
      RunEditsAreSpaced(g, es, before, last);
      Monotone(RunEdits(init), g.cooldown * MICROS,
               es[first].stampedAt, es[before].stampedAt, es[last].stampedAt);
    }
  }

  /** Edits proposed by a person skip the cooldown: any number of them may share one moment. */
  lemma {:induction false} PeopleSkipTheCooldown(g: Guard, n: nat, at: int)
    requires g.budgetMax <= 0 || g.consumed + n <= g.budgetMax
    ensures LegalRun(g, Burst(n, at)) && Edits(Burst(n, at)) == n && OneClock(Burst(n, at))
  {
    BurstIsLegal(g, n, at);
    CounterCounts(g, Burst(n, at));
    BurstTimes(n, at);
  }

  lemma {:induction false} BurstTimes(n: nat, at: int)
    ensures forall k :: 0 <= k < n ==> Burst(n, at)[k] == AutoApply(at, at, false)
  {
    if n > 0 { BurstTimes(n - 1, at); }
  }

  // ---------------------------------------------------------------------
  // When the next edit may come
  // ---------------------------------------------------------------------

  /** When the last edit of the run was stamped, or the one before the run. */
  function LastStamp(g: Guard, es: seq<Event>): Option<int> {
    if es == [] then g.lastSelfEdit
    else if es[|es| - 1].AutoApply? then Some(es[|es| - 1].stampedAt)
    else LastStamp(g, es[..|es| - 1])
  }

  /** The edits since the last approval; without one, those counted before the run come on top. */
  function SinceApproval(g: Guard, es: seq<Event>): int {
    if es == [] then g.consumed
    else if es[|es| - 1].Approval? then 0
    else SinceApproval(g, es[..|es| - 1]) + 1
  }

  lemma {:induction false} ColumnsSayHistory(g: Guard, es: seq<Event>)
    ensures Run(g, es) == Guard(g.budgetMax, g.cooldown, SinceApproval(g, es), LastStamp(g, es))
  {
    if es != [] { ColumnsSayHistory(g, es[..|es| - 1]); }
  }

  /** After any run the next edit is let through exactly when the budget, if there is one, is above the edits since the
      last approval, and for an agent run the cooldown since the last edit is over. Approvals are always let through. */
  lemma NextIsLegalIff(g: Guard, es: seq<Event>, e: Event)
    ensures LegalRun(g, es + [e]) <==>
              LegalRun(g, es)
              && (e.AutoApply? ==>
                    && e.checkedAt <= e.stampedAt
                    && (0 < g.budgetMax ==> SinceApproval(g, es) < g.budgetMax)
                    && (e.byRun && 0 < g.cooldown && LastStamp(g, es).Some? ==>
                          LastStamp(g, es).value + g.cooldown * 1_000_000 <= e.checkedAt))
  {
    assert (es + [e])[..|es|] == es;
    ColumnsSayHistory(g, es);
  }

  // ---------------------------------------------------------------------
  // Overlapping creations
  // ---------------------------------------------------------------------

  /** A creation reads the counter and tests it, and later writes back what it read plus one. */
  datatype Phase = Read(p: nat) | Write(p: nat)

  /** The stored counter, how many edits were applied since the last approval, and what creations have read. */
  datatype Shared = Shared(counter: int, edits: nat, seen: map<nat, int>)

  predicate Can(s: Shared, budget: int, ph: Phase) {
    match ph
    case Read(_) => budget > 0 ==> s.counter < budget
    case Write(p) => p in s.seen
  }

  function Then(s: Shared, ph: Phase): Shared {
    match ph
    case Read(p) => s.(seen := s.seen[p := s.counter])
    case Write(p) => if p in s.seen then Shared(s.seen[p] + 1, s.edits + 1, s.seen - {p}) else s
  }

  function Interleaved(s: Shared, phases: seq<Phase>): Shared {
    if phases == [] then s else Then(Interleaved(s, phases[..|phases| - 1]), phases[|phases| - 1])
  }

  predicate Runs(s: Shared, budget: int, phases: seq<Phase>) {
    phases != [] ==>
      var init, last := phases[..|phases| - 1], phases[|phases| - 1];
      Runs(s, budget, init) && Can(Interleaved(s, init), budget, last)
  }

  /** Nothing in flight and nothing applied since the last approval. */
  const IDLE: Shared := Shared(0, 0, map[])

  /** At every moment at most `k` creations are between their read and their write. */
  predicate AtMost(phases: seq<Phase>, k: nat) {
    && |Interleaved(IDLE, phases).seen| <= k
    && (phases != [] ==> AtMost(phases[..|phases| - 1], k))
  }

  /** One at a time, the counter is exact and the budget binds. */
  lemma {:induction false} SerialCreationsCount(budget: int, phases: seq<Phase>)
    requires Runs(IDLE, budget, phases) && AtMost(phases, 1)
    ensures var s := Interleaved(IDLE, phases);
            s.counter == s.edits && (budget > 0 ==> s.edits <= budget)
            && (forall p :: p in s.seen ==> s.seen[p] == s.counter && (budget > 0 ==> s.counter < budget))
  {
    if phases != [] {
      var init, last := phases[..|phases| - 1], phases[|phases| - 1];
      SerialCreationsCount(budget, init);
      var before, after := Interleaved(IDLE, init), Interleaved(IDLE, phases);
      assert after == Then(before, last);
      forall p, q | p in before.seen && q in before.seen ensures p == q { OneKey(before.seen, p, q); }
      forall p, q | p in after.seen && q in after.seen ensures p == q { OneKey(after.seen, p, q); }
    }
  }

  lemma OneKey(m: map<nat, int>, p: nat, q: nat)
    requires |m| <= 1 && p in m && q in m
    ensures p == q
  {
    assert |m.Keys - {p}| == |m.Keys| - 1;
    assert m.Keys - {p} == {};
  }

  lemma AppendPhase(s: Shared, budget: int, phases: seq<Phase>, ph: Phase)
    requires Runs(s, budget, phases) && Can(Interleaved(s, phases), budget, ph)
    ensures Runs(s, budget, phases + [ph]) && Interleaved(s, phases + [ph]) == Then(Interleaved(s, phases), ph)
    ensures s == IDLE ==> forall k: nat :: AtMost(phases + [ph], k) <==>
                            AtMost(phases, k) && |Then(Interleaved(s, phases), ph).seen| <= k
  {
    assert (phases + [ph])[..|phases|] == phases;
  }

  // `n` edits, one after another.
  function OneByOne(n: nat): seq<Phase> {
    if n == 0 then [] else OneByOne(n - 1) + [Read(0)] + [Write(0)]
  }

  lemma {:induction false} OneByOneRuns(budget: int, n: nat)
    requires n <= budget
    ensures Runs(IDLE, budget, OneByOne(n)) && AtMost(OneByOne(n), 1)
    ensures Interleaved(IDLE, OneByOne(n)) == Shared(n, n, map[])
  {
    if n > 0 {
      hide Runs, Interleaved, AtMost;
      OneByOneRuns(budget, n - 1);
      var before := OneByOne(n - 1);
      AppendPhase(IDLE, budget, before, Read(0));
      AppendPhase(IDLE, budget, before + [Read(0)], Write(0));
      assert map[0 := n - 1] - {0} == map[];
    } else {
      assert AtMost([], 1);
    }
  }

  // `budget - 1` edits one by one, then two creations that both read before either writes.
  function TwoAtTheEnd(budget: int): seq<Phase>
    requires budget > 0
  {
    OneByOne(budget - 1) + [Read(0)] + [Read(1)] + [Write(0)] + [Write(1)]
  }

  lemma TwoReadsAtTheEnd(budget: int)
    requires budget > 0
    ensures var phases := OneByOne(budget - 1) + [Read(0)] + [Read(1)];
            && Runs(IDLE, budget, phases) && AtMost(phases, 2)
            && Interleaved(IDLE, phases) == Shared(budget - 1, budget - 1, map[0 := budget - 1, 1 := budget - 1])
  {
    hide Runs, Interleaved, AtMost;
    var a := OneByOne(budget - 1);
    OneByOneRuns(budget, budget - 1);
    Wider(a, 1, 2);
    AppendPhase(IDLE, budget, a, Read(0));
    AppendPhase(IDLE, budget, a + [Read(0)], Read(1));
  }

  lemma TwoAtTheEndRuns(budget: int)
    requires budget > 0
    ensures Runs(IDLE, budget, TwoAtTheEnd(budget)) && AtMost(TwoAtTheEnd(budget), 2)
    ensures Interleaved(IDLE, TwoAtTheEnd(budget)) == Shared(budget, budget + 1, map[])
  {
    hide Runs, Interleaved, AtMost;
    var n := budget - 1;
    var both := OneByOne(n) + [Read(0)] + [Read(1)];
    TwoReadsAtTheEnd(budget);
    AppendPhase(IDLE, budget, both, Write(0));
    AppendPhase(IDLE, budget, both + [Write(0)], Write(1));
    assert map[0 := n, 1 := n] - {0} == map[1 := n] && map[1 := n] - {1} == map[];
  }

  lemma {:induction false} Wider(phases: seq<Phase>, k: nat, l: nat)
    requires AtMost(phases, k) && k <= l
    ensures AtMost(phases, l)
  {
    if phases != [] { Wider(phases[..|phases| - 1], k, l); }
  }

  /**
    * The counter is read, tested and written back without a lock. A positive budget binds every run with at most `k`
    * creations in flight exactly when `k` is at most one: with two, both can pass the test on the last free place.
    */
  lemma BudgetBindsIff(budget: int, k: nat)
    requires budget > 0
    ensures (forall phases :: Runs(IDLE, budget, phases) && AtMost(phases, k) ==>
            Interleaved(IDLE, phases).edits <= budget)
            <==> k <= 1
  {
    if k <= 1 {
      forall phases | Runs(IDLE, budget, phases) && AtMost(phases, k)
        ensures Interleaved(IDLE, phases).edits <= budget
      {
        Wider(phases, k, 1);
        SerialCreationsCount(budget, phases);
      }
    } else {
      TwoAtTheEndRuns(budget);
      Wider(TwoAtTheEnd(budget), 2, k);
      assert Interleaved(IDLE, TwoAtTheEnd(budget)).edits > budget;
    }
  }

  function Reads(n: nat): seq<Phase> {
    if n == 0 then [] else Reads(n - 1) + [Read(n - 1)]
  }

  function Writes(n: nat): seq<Phase> {
    if n == 0 then [] else Writes(n - 1) + [Write(n - 1)]
  }

  /** Creations `k` up to `n` have read a zero and not written yet. */
  ghost predicate InFlight(s: Shared, k: nat, n: nat) {
    && (forall p :: p in s.seen ==> s.seen[p] == 0)
    && (forall p :: p in s.seen <==> k <= p < n)
  }

  lemma {:induction false} ManyRead(budget: int, n: nat)
    ensures Runs(IDLE, budget, Reads(n))
    ensures var s := Interleaved(IDLE, Reads(n)); s.counter == 0 && s.edits == 0 && InFlight(s, 0, n)
  {
    if n > 0 {
      hide Runs, Interleaved, AtMost;
      ManyRead(budget, n - 1);
      AppendPhase(IDLE, budget, Reads(n - 1), Read(n - 1));
    }
  }

  lemma {:induction false} ManyWrite(budget: int, n: nat, k: nat)
    requires k <= n
    ensures Runs(IDLE, budget, Reads(n) + Writes(k))
    ensures var s := Interleaved(IDLE, Reads(n) + Writes(k));
            s.edits == k && s.counter == (if k == 0 then 0 else 1) && InFlight(s, k, n)
  {
    hide Runs, Interleaved, AtMost;
    ManyRead(budget, n);
    if k == 0 {
      assert Reads(n) + Writes(0) == Reads(n);
    } else {
      ManyWrite(budget, n, k - 1);
      AppendPhase(IDLE, budget, Reads(n) + Writes(k - 1), Write(k - 1));
      assert Reads(n) + Writes(k) == Reads(n) + Writes(k - 1) + [Write(k - 1)];
    }
  }

  /** Nor is there another bound: whatever the budget, `n` overlapping creations can all pass the test, and the counter
      then says one. */
  lemma OverlapsBeatAnyBudget(budget: int, n: nat)
    requires n > 0
    ensures exists phases :: Runs(IDLE, budget, phases)
                             && Interleaved(IDLE, phases).edits == n && Interleaved(IDLE, phases).counter == 1
  {
    ManyWrite(budget, n, n);
    assert Runs(IDLE, budget, Reads(n) + Writes(n));
  }
}
