/**
The LiteLLM key ledger: a tree of budgeted keys.

`Ledger` is the value-level specification of one ledger table; the module `KeyLedger`
holds the mutable table with the operations of the service. Money is counted in
micro-dollars, the resolution of the `Numeric(12, 6)` columns.
*/
module KeyLedgerSpec {
  import opened Prelude

  type KeyId = string

  datatype Tier = Session | Invocation | Nested

  datatype KeyState = Pending | Active | Settling | Settled | Reaped | Revoked | Failed

  datatype Row = Row(parent: Option<KeyId>, tier: Tier, budget: int, spent: int, state: KeyState)

  // A spend of `delta` reported against `key`.
  datatype Charge = Charge(key: KeyId, delta: int)

  /** `rows` is the table. `depth` and `log` are history: the nesting depth each key was minted at,
      and every charge accepted so far. */
  datatype Ledger = Ledger(rows: map<KeyId, Row>, depth: map<KeyId, nat>, log: seq<Charge>)

  // The walks up the parent chain stop after this many keys.
  const WALK_LIMIT: nat := 32

  predicate IsTerminal(s: KeyState) {
    s == Settled || s == Revoked || s == Failed
  }

  predicate LegalTransition(src: KeyState, dst: KeyState) {
    match src
    case Pending => dst == Active || dst == Failed
    case Active => dst == Settling || dst == Reaped || dst == Revoked || dst == Failed
    case Reaped => dst == Settling || dst == Failed
    case Settling => dst == Settled || dst == Failed
    case _ => false
  }

  // A live key that may not be revoked: a cascade neither revokes it nor looks below it.
  predicate Blocked(s: KeyState) {
    !IsTerminal(s) && !LegalTransition(s, Revoked)
  }

  function Remaining(r: Row): int {
    r.budget - r.spent
  }

  // ---------------------------------------------------------------- the tree

  // `k` is a root at depth 0 or hangs one level below an existing key.
  ghost predicate Linked(s: Ledger, k: KeyId)
    requires s.depth.Keys == s.rows.Keys && k in s.rows
  {
    match s.rows[k].parent
    case None => s.depth[k] == 0
    case Some(p) => p in s.rows && s.depth[k] == s.depth[p] + 1
  }

  ghost predicate WellFormed(s: Ledger) {
    && s.depth.Keys == s.rows.Keys
    && forall k {:trigger Linked(s, k)} :: k in s.rows ==> Linked(s, k)
  }

  // `t` has every key of `s`, at the same place in the tree.
  ghost predicate SameLinks(s: Ledger, t: Ledger) {
    && s.depth.Keys == s.rows.Keys
    && t.depth.Keys == t.rows.Keys
    && forall j :: j in s.rows ==> j in t.rows && t.rows[j].parent == s.rows[j].parent && t.depth[j] == s.depth[j]
  }

  lemma SameLinksWellFormed(s: Ledger, t: Ledger)
    requires WellFormed(s) && SameLinks(s, t) && s.rows.Keys == t.rows.Keys
    ensures WellFormed(t)
  {
    forall k | k in t.rows ensures Linked(t, k) {
      assert Linked(s, k);
    }
  }

  // The key followed by its ancestors, up to the root.
  ghost function Chain(s: Ledger, k: KeyId): (c: seq<KeyId>)
    requires WellFormed(s) && k in s.rows
    ensures |c| == s.depth[k] + 1 && c[0] == k
    ensures forall i :: 0 <= i < |c| ==> c[i] in s.rows && s.depth[c[i]] == s.depth[k] - i
    decreases s.depth[k]
  {
    assert Linked(s, k);
    match s.rows[k].parent
    case None => [k]
    case Some(p) => [k] + Chain(s, p)
  }

  ghost predicate ChildOf(s: Ledger, c: KeyId, p: KeyId) {
    c in s.rows && s.rows[c].parent == Some(p)
  }

  ghost predicate Descendant(s: Ledger, d: KeyId, a: KeyId)
    requires WellFormed(s) && d in s.rows
  {
    d != a && a in Chain(s, d)
  }

  // ---------------------------------------------------------------- spend

  ghost function ChargeRows(rows: map<KeyId, Row>, ks: set<KeyId>, delta: int): map<KeyId, Row> {
    map k | k in rows :: if k in ks then rows[k].(spent := rows[k].spent + delta) else rows[k]
  }

  // The keys a charge on `k` reaches: the first WALK_LIMIT links of its chain.
  ghost function Walked(s: Ledger, k: KeyId): set<KeyId>
    requires WellFormed(s) && k in s.rows
  {
    var c := Chain(s, k);
    set i | 0 <= i < |c| && i < WALK_LIMIT :: c[i]
  }

  // The independent account of what a key should have spent: every charge in its subtree.
  ghost function SubtreeSpend(s: Ledger, log: seq<Charge>, k: KeyId): int
    requires WellFormed(s) && forall c :: c in log ==> c.key in s.rows
  {
    if log == [] then 0
    else
      var last := log[|log| - 1];
      assert last in log;
      SubtreeSpend(s, log[..|log| - 1], k) + if k in Chain(s, last.key) then last.delta else 0
  }

  ghost predicate LogOk(s: Ledger) {
    forall c :: c in s.log ==> c.key in s.rows && c.delta >= 0
  }

  ghost predicate Conserved(s: Ledger)
    requires WellFormed(s) && LogOk(s)
  {
    forall k :: k in s.rows ==> s.rows[k].spent == SubtreeSpend(s, s.log, k)
  }

  // ---------------------------------------------------------------- cascade

  // The keys a cascade from `root` visits.
  ghost predicate Reached(s: Ledger, root: KeyId, k: KeyId)
    requires WellFormed(s)
    decreases if k in s.rows then s.depth[k] else 0
  {
    && k in s.rows
    && assert Linked(s, k);
       match s.rows[k].parent
       case None => false
       case Some(p) => p == root || (Reached(s, root, p) && !Blocked(s.rows[p].state))
  }

  ghost function CascadeRows(s: Ledger, root: KeyId): map<KeyId, Row>
    requires WellFormed(s)
  {
    map k | k in s.rows ::
      if Reached(s, root, k) && s.rows[k].state == Active then s.rows[k].(state := Revoked) else s.rows[k]
  }

  // ---------------------------------------------------------------- operations

  datatype Op =
    | Mint(tier: Tier, parent: Option<KeyId>, budget: int, keyId: Option<KeyId>)
    | Spend(key: KeyId, delta: int)
    | BeginSettlement(key: KeyId)
    | FinalizeSettlement(key: KeyId)
    | MarkFailed(key: KeyId)
    | CascadeRevoke(key: KeyId)

  function Min(a: int, b: int): int { if a <= b then a else b }

  // A mint goes through: tier and parent agree, the nested checks pass, the proxy answered with a new key id.
  ghost predicate CanMint(s: Ledger, op: Op, maxDepth: int)
    requires op.Mint? && WellFormed(s)
  {
    && (op.parent.Some? <==> op.tier == Nested)
    && (op.parent.Some? ==>
          && op.parent.value in s.rows
          && Min(s.depth[op.parent.value] + 1, WALK_LIMIT) <= maxDepth
          && s.rows[op.parent.value].state == Active
          && 0 < op.budget <= Remaining(s.rows[op.parent.value]))
    && op.keyId.Some? && op.keyId.value !in s.rows
  }

  // A new leaf under an existing key, or a new root.
  ghost function Minted(s: Ledger, k: KeyId, row: Row): (t: Ledger)
    requires WellFormed(s) && k !in s.rows && (row.parent.Some? ==> row.parent.value in s.rows)
    ensures WellFormed(t) && SameLinks(s, t)
  {
    var t := Ledger(s.rows[k := row],
                    s.depth[k := if row.parent.Some? then s.depth[row.parent.value] + 1 else 0],
                    s.log);
    assert forall j {:trigger Linked(t, j)} :: j in s.rows && Linked(s, j) ==> Linked(t, j);
    t
  }

  ghost function SetState(s: Ledger, k: KeyId, st: KeyState): (t: Ledger)
    requires WellFormed(s) && k in s.rows
    ensures WellFormed(t)
  {
    var t := s.(rows := s.rows[k := s.rows[k].(state := st)]);
    SameLinksWellFormed(s, t);
    t
  }

  // The ledger after one operation; an operation that raises leaves it as it was.
  ghost function Next(s: Ledger, op: Op, maxDepth: int): (t: Ledger)
    requires WellFormed(s)
    ensures WellFormed(t)
  {
    match op
    case Mint(tier, parent, budget, keyId) =>
      if CanMint(s, op, maxDepth) then
        Minted(s, keyId.value, Row(parent, tier, budget, 0, Active))
      else s
    case Spend(k, delta) =>
      if delta >= 0 && k in s.rows then
        var t := Ledger(ChargeRows(s.rows, Walked(s, k), delta), s.depth, s.log + [Charge(k, delta)]);
        SameLinksWellFormed(s, t);
        t
      else s
    case BeginSettlement(k) =>
      if k in s.rows && LegalTransition(s.rows[k].state, Settling) then SetState(s, k, Settling) else s
    case FinalizeSettlement(k) =>
      if k in s.rows && LegalTransition(s.rows[k].state, Settled) then SetState(s, k, Settled) else s
    case MarkFailed(k) =>
      if k in s.rows && LegalTransition(s.rows[k].state, Failed) then SetState(s, k, Failed) else s
    case CascadeRevoke(k) =>
      var t := s.(rows := CascadeRows(s, k));
      SameLinksWellFormed(s, t);
      t
  }

  const EMPTY: Ledger := Ledger(map[], map[], [])

  ghost function Run(s: Ledger, ops: seq<Op>, maxDepth: int): (t: Ledger)
    requires WellFormed(s)
    ensures WellFormed(t)
  {
    if ops == [] then s else Next(Run(s, ops[..|ops| - 1], maxDepth), ops[|ops| - 1], maxDepth)
  }

  // ---------------------------------------------------------------- invariants of every run

  // Only nested keys have a parent, and no key is given more than its parent was.
  ghost predicate Budgeted(s: Ledger, k: KeyId)
    requires k in s.rows
  {
    && (s.rows[k].parent.Some? <==> s.rows[k].tier == Nested)
    && s.rows[k].spent >= 0
    && match s.rows[k].parent
       case None => true
       case Some(p) => p in s.rows && s.rows[k].budget <= s.rows[p].budget
  }

  ghost predicate Inv(s: Ledger) {
    && WellFormed(s)
    && LogOk(s)
    && forall k {:trigger Budgeted(s, k)} :: k in s.rows ==> Budgeted(s, k)
  }

  ghost predicate Shallow(s: Ledger, maxDepth: int)
    requires WellFormed(s)
  {
    forall k :: k in s.rows ==> s.depth[k] <= maxDepth || s.depth[k] == 0
  }

  // Two ledgers with the same parent links have the same chains.
  lemma {:induction false} ChainFrame(s: Ledger, t: Ledger, k: KeyId)
    requires WellFormed(s) && WellFormed(t) && k in s.rows
    requires SameLinks(s, t)
    ensures Chain(t, k) == Chain(s, k)
    decreases s.depth[k]
  {
    assert Linked(s, k);
    if s.rows[k].parent.Some? {
      ChainFrame(s, t, s.rows[k].parent.value);
    }
  }

  lemma {:induction false} SubtreeSpendFrame(s: Ledger, t: Ledger, log: seq<Charge>, k: KeyId)
    requires WellFormed(s) && WellFormed(t)
    requires forall c :: c in log ==> c.key in s.rows
    requires SameLinks(s, t)
    ensures SubtreeSpend(t, log, k) == SubtreeSpend(s, log, k)
  {
    if log != [] {
      var last := log[|log| - 1];
      assert last in log;
      SubtreeSpendFrame(s, t, log[..|log| - 1], k);
      ChainFrame(s, t, last.key);
    }
  }

  lemma {:induction false} FreshKeySpendsNothing(s: Ledger, log: seq<Charge>, k: KeyId)
    requires WellFormed(s) && k !in s.rows
    requires forall c :: c in log ==> c.key in s.rows
    ensures SubtreeSpend(s, log, k) == 0
  {
    if log != [] {
      var last := log[|log| - 1];
      assert last in log;
      FreshKeySpendsNothing(s, log[..|log| - 1], k);
    }
  }

  lemma SubtreeSpendAppend(s: Ledger, log: seq<Charge>, c: Charge, k: KeyId)
    requires WellFormed(s) && c.key in s.rows
    requires forall d :: d in log ==> d.key in s.rows
    ensures SubtreeSpend(s, log + [c], k)
         == SubtreeSpend(s, log, k) + if k in Chain(s, c.key) then c.delta else 0
  {
    assert (log + [c])[..|log|] == log;
  }

  // Below the walk limit, a charge reaches exactly the keys of the chain.
  lemma WalkedIsChain(s: Ledger, k: KeyId, j: KeyId)
    requires WellFormed(s) && k in s.rows && s.depth[k] < WALK_LIMIT
    ensures j in Walked(s, k) <==> j in Chain(s, k)
  {
    var c := Chain(s, k);
    if j in c {
      var i :| 0 <= i < |c| && c[i] == j;
      assert i < WALK_LIMIT;
    }
  }

  lemma NextKeepsInv(s: Ledger, op: Op, maxDepth: int)
    requires Inv(s)
    ensures Inv(Next(s, op, maxDepth))
  {
    var t := Next(s, op, maxDepth);
    forall k | k in t.rows ensures Budgeted(t, k) {
      if k in s.rows {
        assert Budgeted(s, k);
      } else {
        assert op.parent.Some? ==> Budgeted(s, op.parent.value);
      }
    }
  }

  lemma NextKeepsShallow(s: Ledger, op: Op, maxDepth: int)
    requires WellFormed(s) && Shallow(s, maxDepth) && maxDepth < WALK_LIMIT
    ensures Shallow(Next(s, op, maxDepth), maxDepth)
  {
  }

  // A charge adds the same amount to a key's row and to the charges below it, or nothing to either.
  lemma SpendConserves(s: Ledger, op: Op, maxDepth: int, k: KeyId)
    requires Inv(s) && Conserved(s) && Shallow(s, maxDepth) && maxDepth < WALK_LIMIT
    requires op.Spend? && op.delta >= 0 && op.key in s.rows && k in s.rows
    ensures var t := Next(s, op, maxDepth);
      LogOk(t) && k in t.rows && t.rows[k].spent == SubtreeSpend(t, t.log, k)
  {
    hide Chain, Walked, SubtreeSpend;
    var t := Next(s, op, maxDepth);
    assert t.log == s.log + [Charge(op.key, op.delta)];
    assert s.rows[k].spent == SubtreeSpend(s, s.log, k);
    SubtreeSpendAppend(t, s.log, Charge(op.key, op.delta), k);
    SubtreeSpendFrame(s, t, s.log, k);
    ChainFrame(s, t, op.key);
    WalkedIsChain(s, op.key, k);
  }

  lemma NextConserves(s: Ledger, op: Op, maxDepth: int)
    requires Inv(s) && Conserved(s) && Shallow(s, maxDepth) && maxDepth < WALK_LIMIT
    ensures LogOk(Next(s, op, maxDepth)) && Conserved(Next(s, op, maxDepth))
  {
    hide SubtreeSpend, Chain, Walked;
    var t := Next(s, op, maxDepth);
    NextKeepsInv(s, op, maxDepth);
    forall k | k in t.rows ensures t.rows[k].spent == SubtreeSpend(t, t.log, k) {
      if op.Spend? && op.delta >= 0 && op.key in s.rows {
        SpendConserves(s, op, maxDepth, k);
      } else {
        SubtreeSpendFrame(s, t, s.log, k);
        if k !in s.rows {
          FreshKeySpendsNothing(s, s.log, k);
        }
      }
    }
  }

  /** Conservation over every run: whatever is minted, spent, settled, failed or revoked, each key's
      `spent_usd` is the sum of all charges in its subtree. */
  lemma {:induction false} EveryRunConserves(ops: seq<Op>, maxDepth: int)
    requires maxDepth < WALK_LIMIT
    ensures Inv(Run(EMPTY, ops, maxDepth)) && Conserved(Run(EMPTY, ops, maxDepth))
    ensures Shallow(Run(EMPTY, ops, maxDepth), maxDepth)
  {
    if ops != [] {
      var init := ops[..|ops| - 1];
      EveryRunConserves(init, maxDepth);
      NextKeepsInv(Run(EMPTY, init, maxDepth), ops[|ops| - 1], maxDepth);
      NextKeepsShallow(Run(EMPTY, init, maxDepth), ops[|ops| - 1], maxDepth);
      NextConserves(Run(EMPTY, init, maxDepth), ops[|ops| - 1], maxDepth);
    }
  }

  // ---------------------------------------------------------------- consequences for any tree

  /** Budgets never grow down a chain of nested keys, so no key outranks its root. */
  lemma {:induction false} BudgetsShrinkDownTheChain(s: Ledger, k: KeyId, i: nat)
    requires Inv(s) && k in s.rows && i < |Chain(s, k)|
    ensures s.rows[k].budget <= s.rows[Chain(s, k)[i]].budget
    decreases i
  {
    assert Linked(s, k) && Budgeted(s, k);
    if i > 0 {
      BudgetsShrinkDownTheChain(s, s.rows[k].parent.value, i - 1);
    }
  }

  lemma {:induction false} EveryRunKeepsInv(ops: seq<Op>, maxDepth: int)
    ensures Inv(Run(EMPTY, ops, maxDepth))
  {
    if ops != [] {
      EveryRunKeepsInv(ops[..|ops| - 1], maxDepth);
      NextKeepsInv(Run(EMPTY, ops[..|ops| - 1], maxDepth), ops[|ops| - 1], maxDepth);
    }
  }

  /** In every run, whatever the nesting limit, no key has a larger budget than any key above it. */
  lemma EveryRunShrinksBudgets(ops: seq<Op>, maxDepth: int, k: KeyId, a: KeyId)
    requires k in Run(EMPTY, ops, maxDepth).rows && a in Chain(Run(EMPTY, ops, maxDepth), k)
    ensures var s := Run(EMPTY, ops, maxDepth); s.rows[k].budget <= s.rows[a].budget
  {
    hide Run, Inv;
    var s := Run(EMPTY, ops, maxDepth);
    EveryRunKeepsInv(ops, maxDepth);
    var i :| 0 <= i < |Chain(s, k)| && Chain(s, k)[i] == a;
    BudgetsShrinkDownTheChain(s, k, i);
  }

  lemma {:induction false} ChainTransitive(s: Ledger, k: KeyId, j: KeyId, a: KeyId)
    requires WellFormed(s) && k in s.rows && j in Chain(s, k) && a in Chain(s, j)
    ensures a in Chain(s, k)
    decreases s.depth[k]
  {
    assert Linked(s, k);
    if j != k {
      ChainTransitive(s, s.rows[k].parent.value, j, a);
    }
  }

  /** An ancestor's account covers its descendants' accounts. */
  lemma {:induction false} AncestorsSpendMore(s: Ledger, log: seq<Charge>, k: KeyId, a: KeyId)
    requires WellFormed(s) && k in s.rows && a in Chain(s, k)
    requires forall c :: c in log ==> c.key in s.rows && c.delta >= 0
    ensures SubtreeSpend(s, log, k) <= SubtreeSpend(s, log, a)
  {
    if log != [] {
      var last := log[|log| - 1];
      assert last in log;
      AncestorsSpendMore(s, log[..|log| - 1], k, a);
      if k in Chain(s, last.key) {
        ChainTransitive(s, last.key, k, a);
      }
    }
  }

  /** Every operation moves a key along the transition table only, never touches its place, tier or
      budget, and never lowers its spend; terminal states absorb. */
  lemma StepsAreLegal(s: Ledger, op: Op, maxDepth: int, k: KeyId)
    requires WellFormed(s) && k in s.rows
    ensures var t := Next(s, op, maxDepth);
      && k in t.rows
      && t.rows[k].(state := s.rows[k].state, spent := s.rows[k].spent) == s.rows[k]
      && s.rows[k].spent <= t.rows[k].spent
      && (t.rows[k].state == s.rows[k].state || LegalTransition(s.rows[k].state, t.rows[k].state))
      && (IsTerminal(s.rows[k].state) ==> t.rows[k].state == s.rows[k].state)
  {
  }

  // ---------------------------------------------------------------- what a mint needs

  /** A mint goes through exactly when tier and parent agree, the id is there and new, and for a nested key the parent
      is active, not too deep, and has the whole budget left over from what was spent. The new key starts active and
      unspent. The depth check counts 32 keys at most. */
  lemma MintGoesThroughIff(s: Ledger, op: Op, maxDepth: int)
    requires WellFormed(s) && op.Mint?
    ensures Next(s, op, maxDepth) != s <==>
            && (op.tier == Nested <==> op.parent.Some?)
            && op.keyId.Some? && op.keyId.value !in s.rows
            && (op.parent.Some? ==>
                  && op.parent.value in s.rows
                  && var p := s.rows[op.parent.value];
                     && p.state == Active && 0 < op.budget && p.spent + op.budget <= p.budget
                     && (s.depth[op.parent.value] < maxDepth || 32 <= maxDepth))
    ensures var t := Next(s, op, maxDepth);
            t != s ==> && t.rows == s.rows[op.keyId.value := Row(op.parent, op.tier, op.budget, 0, Active)]
                       && t.log == s.log
  {
    var t := Next(s, op, maxDepth);
    if CanMint(s, op, maxDepth) { assert op.keyId.value in t.rows; }
  }

  // A nested mint that goes through fits into what the charges below its parent have left.
  ghost predicate MintFits(s: Ledger, op: Op, maxDepth: int)
    requires WellFormed(s)
  {
    op.Mint? && op.parent.Some? && Next(s, op, maxDepth) != s ==>
      && LogOk(s) && op.parent.value in s.rows
      && SubtreeSpend(s, s.log, op.parent.value) + op.budget <= s.rows[op.parent.value].budget
  }

  lemma EveryMintFits(ops: seq<Op>, op: Op, maxDepth: int)
    requires maxDepth < WALK_LIMIT
    ensures MintFits(Run(EMPTY, ops, maxDepth), op, maxDepth)
  {
    hide Run;
    var s := Run(EMPTY, ops, maxDepth);
    EveryRunConserves(ops, maxDepth);
    if op.Mint? { MintGoesThroughIff(s, op, maxDepth); }
  }

  // ---------------------------------------------------------------- the settlement barrier

  ghost predicate ChildrenTerminal(s: Ledger, p: KeyId) {
    forall c :: ChildOf(s, c, p) ==> IsTerminal(s.rows[c].state)
  }

  // No key is settled over a live child.
  ghost predicate Barrier(s: Ledger) {
    forall p :: p in s.rows && s.rows[p].state == Settled ==> ChildrenTerminal(s, p)
  }

  ghost predicate DescendantsTerminal(s: Ledger, p: KeyId)
    requires WellFormed(s)
  {
    forall d :: d in s.rows && Descendant(s, d, p) ==> IsTerminal(s.rows[d].state)
  }

  /** The service settles without looking at children, so one step keeps the barrier exactly when
      the operation is not a settling one or the children were terminal beforehand. */
  lemma StepKeepsBarrierIff(s: Ledger, op: Op, maxDepth: int)
    requires WellFormed(s) && Barrier(s)
    ensures Barrier(Next(s, op, maxDepth)) <==>
            (op.FinalizeSettlement? && op.key in s.rows && s.rows[op.key].state == Settling ==>
               ChildrenTerminal(s, op.key))
  {
    var t := Next(s, op, maxDepth);
    var settles := op.FinalizeSettlement? && op.key in s.rows && s.rows[op.key].state == Settling;
    if settles && !ChildrenTerminal(s, op.key) {
      var c :| ChildOf(s, c, op.key) && !IsTerminal(s.rows[c].state);
      assert Linked(s, c);
      assert ChildOf(t, c, op.key) && t.rows[c].state == s.rows[c].state;
      assert !ChildrenTerminal(t, op.key);
    } else {
      forall p, c | p in t.rows && t.rows[p].state == Settled && ChildOf(t, c, p)
        ensures IsTerminal(t.rows[c].state)
      {
        if c in s.rows {
          StepsAreLegal(s, op, maxDepth, c);
          assert ChildOf(s, c, p) && Linked(s, c);
          assert ChildrenTerminal(s, p);
        }
      }
    }
  }

  // Every settling operation of the run found its children terminal.
  ghost predicate Gated(ops: seq<Op>, maxDepth: int) {
    forall i :: 0 <= i < |ops| && ops[i].FinalizeSettlement? ==>
      ChildrenTerminal(Run(EMPTY, ops[..i], maxDepth), ops[i].key)
  }

  /** With the documented protocol (wait for `await_children_terminal`, then finalize) no reachable
      ledger has a settled key over a live child. */
  lemma {:induction false} GatedRunsKeepBarrier(ops: seq<Op>, maxDepth: int)
    requires Gated(ops, maxDepth)
    ensures Barrier(Run(EMPTY, ops, maxDepth))
  {
    if ops != [] {
      var init := ops[..|ops| - 1];
      forall i | 0 <= i < |init| && init[i].FinalizeSettlement?
        ensures ChildrenTerminal(Run(EMPTY, init[..i], maxDepth), init[i].key)
      {
        assert init[..i] == ops[..i];
      }
      GatedRunsKeepBarrier(init, maxDepth);
      assert ops[..|ops| - 1] == init;
      StepKeepsBarrierIff(Run(EMPTY, init, maxDepth), ops[|ops| - 1], maxDepth);
    }
  }

  lemma NextMint(s: Ledger, op: Op, maxDepth: int)
    requires op.Mint? && WellFormed(s) && CanMint(s, op, maxDepth)
    ensures Next(s, op, maxDepth) ==
            Ledger(s.rows[op.keyId.value := Row(op.parent, op.tier, op.budget, 0, Active)],
                   s.depth[op.keyId.value := if op.parent.Some? then s.depth[op.parent.value] + 1 else 0], s.log)
  {
    hide WellFormed;
  }

  /** The idle reaper's own call sequence, begin then finalize, on a session with one live nested key. */
  lemma ReaperSettlesOverLiveChild()
    ensures var ops := [Mint(Session, None, 10, Some("s")), Mint(Nested, Some("s"), 5, Some("n")),
                        BeginSettlement("s"), FinalizeSettlement("s")];
            !Barrier(Run(EMPTY, ops, 3))
  {
    var o0, o1 := Mint(Session, None, 10, Some("s")), Mint(Nested, Some("s"), 5, Some("n"));
    var o2, o3 := BeginSettlement("s"), FinalizeSettlement("s");
    var ops := [o0, o1, o2, o3];
    assert ops[..3] == [o0, o1, o2] && [o0, o1, o2][..2] == [o0, o1] && [o0, o1][..1] == [o0] && [o0][..0] == [];
    var s1 := Run(EMPTY, [o0], 3);
    assert s1 == Next(Run(EMPTY, [], 3), o0, 3);
    NextMint(EMPTY, o0, 3);
    var s2 := Run(EMPTY, [o0, o1], 3);
    assert s2 == Next(s1, o1, 3);
    NextMint(s1, o1, 3);
    assert s2.rows["n"] == Row(Some("s"), Nested, 5, 0, Active);
    hide CanMint, Minted, WellFormed;
    var s3 := Run(EMPTY, [o0, o1, o2], 3);
    assert s3 == Next(s2, o2, 3);
    var s4 := Run(EMPTY, ops, 3);
    assert s4 == Next(s3, o3, 3);
    assert s4.rows["s"].state == Settled && ChildOf(s4, "n", "s") && s4.rows["n"].state == Active;
    assert !ChildrenTerminal(s4, "s");
  }

  lemma ChildIsDescendant(s: Ledger, c: KeyId, p: KeyId)
    requires WellFormed(s) && ChildOf(s, c, p)
    ensures p in s.rows && Descendant(s, c, p)
    ensures forall a :: a in s.rows && Descendant(s, p, a) ==> Descendant(s, c, a)
  {
    assert Linked(s, c);
    assert Chain(s, c) == [c] + Chain(s, p);
    assert Chain(s, c)[1] == p;
    forall a | a in s.rows && Descendant(s, p, a) ensures Descendant(s, c, a) {
      assert a in Chain(s, c) && s.depth[a] <= s.depth[p] < s.depth[c];
    }
  }

  // Going down from terminal children, terminality never stops.
  lemma {:induction false} TerminalAllTheWay(s: Ledger, p: KeyId, d: KeyId)
    requires WellFormed(s) && d in s.rows && Descendant(s, d, p) && ChildrenTerminal(s, p)
    requires forall e :: e in s.rows && Descendant(s, e, p) && IsTerminal(s.rows[e].state) ==> ChildrenTerminal(s, e)
    ensures IsTerminal(s.rows[d].state)
    decreases s.depth[d]
  {
    assert Linked(s, d);
    var q := s.rows[d].parent.value;
    assert ChildOf(s, d, q);
    if q != p {
      assert Chain(s, d) == [d] + Chain(s, q);
      TerminalAllTheWay(s, p, q);
      assert ChildrenTerminal(s, q);
    }
  }

  /** The barrier query looks at direct children only. When it says yes, it speaks for all descendants exactly when
      every terminal descendant has terminal children. */
  lemma ChildrenAnswerForDescendantsIff(s: Ledger, p: KeyId)
    requires WellFormed(s) && ChildrenTerminal(s, p)
    ensures DescendantsTerminal(s, p) <==>
            forall d :: d in s.rows && Descendant(s, d, p) && IsTerminal(s.rows[d].state) ==> ChildrenTerminal(s, d)
  {
    if DescendantsTerminal(s, p) {
      forall d, c | d in s.rows && Descendant(s, d, p) && ChildOf(s, c, d) ensures IsTerminal(s.rows[c].state) {
        ChildIsDescendant(s, c, d);
        assert Descendant(s, c, p);
      }
    } else {
      var d :| d in s.rows && Descendant(s, d, p) && !IsTerminal(s.rows[d].state);
      if forall e :: e in s.rows && Descendant(s, e, p) && IsTerminal(s.rows[e].state) ==> ChildrenTerminal(s, e) {
        TerminalAllTheWay(s, p, d);
      }
    }
  }

  // No terminal key, settled, revoked or failed, stands over a live child.
  ghost predicate Closed(s: Ledger) {
    forall k :: k in s.rows && IsTerminal(s.rows[k].state) ==> ChildrenTerminal(s, k)
  }

  /** Looking at children is enough everywhere: no terminal key has a live child exactly when no terminal key has a
      live descendant, and then the query and the descendants say the same of every key. */
  lemma ClosedIff(s: Ledger)
    requires WellFormed(s)
    ensures Closed(s) <==> forall k :: k in s.rows && IsTerminal(s.rows[k].state) ==> DescendantsTerminal(s, k)
    ensures Closed(s) ==> forall p :: p in s.rows ==> (ChildrenTerminal(s, p) <==> DescendantsTerminal(s, p))
  {
    forall p | p in s.rows
      ensures DescendantsTerminal(s, p) ==> ChildrenTerminal(s, p)
      ensures Closed(s) && ChildrenTerminal(s, p) ==> DescendantsTerminal(s, p)
    {
      forall c | ChildOf(s, c, p) ensures Descendant(s, c, p) { ChildIsDescendant(s, c, p); }
      if Closed(s) && ChildrenTerminal(s, p) { ChildrenAnswerForDescendantsIff(s, p); }
    }
  }

  // The operation ends no key that has a live child, except together with that child.
  ghost predicate Careful(s: Ledger, op: Op)
    requires WellFormed(s)
  {
    match op
    case FinalizeSettlement(k) => k in s.rows && LegalTransition(s.rows[k].state, Settled) ==> ChildrenTerminal(s, k)
    case MarkFailed(k) => k in s.rows && LegalTransition(s.rows[k].state, Failed) ==> ChildrenTerminal(s, k)
    case CascadeRevoke(root) =>
      forall c, k :: Reached(s, root, k) && s.rows[k].state == Active && ChildOf(s, c, k) ==> !Blocked(s.rows[c].state)
    case _ => true
  }

  // One direction of the next lemma.
  lemma CarefulKeepsClosed(s: Ledger, op: Op, maxDepth: int)
    requires WellFormed(s) && Closed(s) && Careful(s, op)
    ensures Closed(Next(s, op, maxDepth))
  {
    var t := Next(s, op, maxDepth);
    forall k, c | k in t.rows && IsTerminal(t.rows[k].state) && ChildOf(t, c, k) ensures IsTerminal(t.rows[c].state) {
      hide WellFormed, Closed, Careful;
      if c in s.rows {
        ParentsStay(s, op, maxDepth, c, k);
        hide Next;
        OldChildEnds(s, op, maxDepth, c, k);
      } else {
        hide Reached, CascadeRows;
      }
    }
  }

  lemma OldChildEnds(s: Ledger, op: Op, maxDepth: int, c: KeyId, k: KeyId)
    requires WellFormed(s) && Closed(s) && Careful(s, op) && ChildOf(s, c, k) && k in s.rows
    requires k in Next(s, op, maxDepth).rows && IsTerminal(Next(s, op, maxDepth).rows[k].state)
    ensures c in Next(s, op, maxDepth).rows && IsTerminal(Next(s, op, maxDepth).rows[c].state)
  {
    StepsAreLegal(s, op, maxDepth, c);
    hide WellFormed;
    if IsTerminal(s.rows[k].state) {
      hide Next;
      assert ChildrenTerminal(s, k);
    } else if op.CascadeRevoke? {
      assert Reached(s, op.key, k) && !Blocked(s.rows[c].state);
      assert Reached(s, op.key, c);
    } else {
      hide Reached, CascadeRows;
    }
  }

  // A key that was there before has the parent it had, and terminal ones stay terminal.
  lemma ParentsStay(s: Ledger, op: Op, maxDepth: int, c: KeyId, k: KeyId)
    requires WellFormed(s) && c in s.rows && ChildOf(Next(s, op, maxDepth), c, k)
    ensures ChildOf(s, c, k) && k in s.rows
    ensures var t := Next(s, op, maxDepth);
      && (IsTerminal(s.rows[c].state) ==> IsTerminal(t.rows[c].state))
      && k in t.rows && (t.rows[k].state == s.rows[k].state || LegalTransition(s.rows[k].state, t.rows[k].state))
  {
    hide Next;
    StepsAreLegal(s, op, maxDepth, c);
    assert Linked(s, c);
    StepsAreLegal(s, op, maxDepth, k);
  }

  /** One step keeps terminal keys from standing over live ones exactly when it is careful: it settles or fails only
      keys whose children are terminal, and its cascade meets no live key it may not revoke. */
  lemma StepKeepsClosedIff(s: Ledger, op: Op, maxDepth: int)
    requires WellFormed(s) && Closed(s)
    ensures Closed(Next(s, op, maxDepth)) <==> Careful(s, op)
  {
    var t := Next(s, op, maxDepth);
    if Careful(s, op) {
      CarefulKeepsClosed(s, op, maxDepth);
    } else if op.CascadeRevoke? {
      var c, k :| Reached(s, op.key, k) && s.rows[k].state == Active && ChildOf(s, c, k) && Blocked(s.rows[c].state);
      assert ChildOf(t, c, k) && t.rows[k].state == Revoked && t.rows[c].state == s.rows[c].state;
      assert !ChildrenTerminal(t, k);
    } else {
      var c :| ChildOf(s, c, op.key) && !IsTerminal(s.rows[c].state);
      assert Linked(s, c) && s.depth[c] != s.depth[op.key];
      assert ChildOf(t, c, op.key) && !IsTerminal(t.rows[c].state);
      assert !ChildrenTerminal(t, op.key);
    }
  }

  /** In runs of careful operations the barrier query is exact at every moment and for every key. */
  lemma {:induction false} CarefulRunsAnswerExactly(ops: seq<Op>, maxDepth: int)
    requires forall i :: 0 <= i < |ops| ==> Careful(Run(EMPTY, ops[..i], maxDepth), ops[i])
    ensures var s := Run(EMPTY, ops, maxDepth);
      Closed(s) && forall p :: p in s.rows ==> (ChildrenTerminal(s, p) <==> DescendantsTerminal(s, p))
  {
    if ops != [] {
      var init := ops[..|ops| - 1];
      forall i | 0 <= i < |init| ensures Careful(Run(EMPTY, init[..i], maxDepth), init[i]) {
        assert init[..i] == ops[..i];
      }
      CarefulRunsAnswerExactly(init, maxDepth);
      assert ops[..|ops| - 1] == init;
      StepKeepsClosedIff(Run(EMPTY, init, maxDepth), ops[|ops| - 1], maxDepth);
    }
    ClosedIff(Run(EMPTY, ops, maxDepth));
  }

  lemma RunSnoc(s: Ledger, ops: seq<Op>, op: Op, maxDepth: int)
    requires WellFormed(s)
    ensures Run(s, ops + [op], maxDepth) == Next(Run(s, ops, maxDepth), op, maxDepth)
  {
    assert (ops + [op])[..|ops|] == ops;
  }

  // A session, a nested key under it and one more under that.
  const THREE_KEYS: seq<Op> := [Mint(Session, None, 9, Some("s")), Mint(Nested, Some("s"), 5, Some("c")),
                                Mint(Nested, Some("c"), 3, Some("g"))]

  lemma ThreeKeysMinted()
    ensures Run(EMPTY, THREE_KEYS, 3) ==
            Ledger(map["s" := Row(None, Session, 9, 0, Active), "c" := Row(Some("s"), Nested, 5, 0, Active),
                       "g" := Row(Some("c"), Nested, 3, 0, Active)],
                   map["s" := 0, "c" := 1, "g" := 2], [])
  {
    var o0, o1, o2 := THREE_KEYS[0], THREE_KEYS[1], THREE_KEYS[2];
    assert Run(EMPTY, [], 3) == EMPTY;
    assert Remaining(Row(None, Session, 9, 0, Active)) == 9 && Remaining(Row(Some("s"), Nested, 5, 0, Active)) == 5;
    hide Run, Next, WellFormed, Remaining;
    RunSnoc(EMPTY, [], o0, 3);
    assert [] + [o0] == [o0];
    var s1 := Run(EMPTY, [o0], 3);
    NextMint(EMPTY, o0, 3);
    assert s1 == Ledger(map["s" := Row(None, Session, 9, 0, Active)], map["s" := 0], []);
    RunSnoc(EMPTY, [o0], o1, 3);
    assert [o0] + [o1] == [o0, o1];
    NextMint(s1, o1, 3);
    var s2 := Run(EMPTY, [o0, o1], 3);
    assert s2 == Ledger(map["s" := Row(None, Session, 9, 0, Active), "c" := Row(Some("s"), Nested, 5, 0, Active)],
                        map["s" := 0, "c" := 1], []);
    RunSnoc(EMPTY, [o0, o1], o2, 3);
    assert [o0, o1] + [o2] == THREE_KEYS;
    NextMint(s2, o2, 3);
  }

  lemma FailedChildHidesGrandchild(s: Ledger)
    requires WellFormed(s) && s.rows.Keys == {"s", "c", "g"}
    requires s.rows["c"].parent == Some("s") && s.rows["c"].state == Active
    requires s.rows["g"].parent == Some("c") && s.rows["g"].state == Active && s.rows["s"].parent == None
    ensures var t := Next(s, MarkFailed("c"), 3); ChildrenTerminal(t, "s") && !DescendantsTerminal(t, "s")
  {
    var t := Next(s, MarkFailed("c"), 3);
    var g, c := Chain(t, "g"), Chain(t, "c");
    assert g == ["g"] + c && c == ["c"] + Chain(t, "s");
    assert g[2] == "s";
    assert Descendant(t, "g", "s");
  }

  /** A failed child with a live grandchild: the query says yes, a descendant is still active. */
  lemma BarrierQueryMissesGrandchild()
    ensures var s := Run(EMPTY, THREE_KEYS + [MarkFailed("c")], 3);
            ChildrenTerminal(s, "s") && !DescendantsTerminal(s, "s")
  {
    ThreeKeysMinted();
    RunSnoc(EMPTY, THREE_KEYS, MarkFailed("c"), 3);
    FailedChildHidesGrandchild(Run(EMPTY, THREE_KEYS, 3));
  }

  // ---------------------------------------------------------------- cascades

  // A live, unrevocable key strictly between `root` and `d`.
  ghost predicate Shielded(s: Ledger, root: KeyId, d: KeyId)
    requires WellFormed(s) && d in s.rows
  {
    exists b :: b in s.rows && Descendant(s, d, b) && Descendant(s, b, root) && Blocked(s.rows[b].state)
  }

  /** The keys a cascade visits are the descendants with no blocked key in between. */
  lemma {:induction false} ReachedIff(s: Ledger, root: KeyId, k: KeyId)
    requires WellFormed(s) && k in s.rows
    ensures Reached(s, root, k) <==> Descendant(s, k, root) && !Shielded(s, root, k)
    decreases s.depth[k]
  {
    assert Linked(s, k);
    match s.rows[k].parent
    case None =>
    case Some(p) =>
      ReachedIff(s, root, p);
      assert Chain(s, k) == [k] + Chain(s, p);
      assert Descendant(s, k, p) by { assert Chain(s, k)[1] == p; }
      if p == root {
        assert Descendant(s, k, root);
        forall b | b in s.rows && Descendant(s, k, b) ensures !Descendant(s, b, root) {
          assert s.depth[b] <= s.depth[p];
        }
      } else {
        assert root != k ==> (Descendant(s, k, root) <==> root in Chain(s, p));
        assert root == k ==> !Descendant(s, p, root) by {
          assert s.depth[p] < s.depth[k];
        }
        forall b | b in s.rows ensures Descendant(s, k, b) <==> b == p || Descendant(s, p, b) {
          assert b == k ==> !(b in Chain(s, p)) by { assert s.depth[p] < s.depth[k]; }
        }
      }
  }

  /** The state every operation leaves a key in. */
  lemma StateAfter(s: Ledger, op: Op, maxDepth: int, k: KeyId)
    requires WellFormed(s) && k in s.rows
    ensures k in Next(s, op, maxDepth).rows
    ensures var was := s.rows[k].state;
            Next(s, op, maxDepth).rows[k].state ==
            match op
            case BeginSettlement(j) => if j == k && was in {Active, Reaped} then Settling else was
            case FinalizeSettlement(j) => if j == k && was == Settling then Settled else was
            case MarkFailed(j) => if j == k && was in {Pending, Active, Settling, Reaped} then Failed else was
            case CascadeRevoke(root) =>
              if was == Active && Descendant(s, k, root)
                 && !exists b :: b in s.rows && Descendant(s, k, b) && Descendant(s, b, root)
                                 && s.rows[b].state in {Pending, Settling, Reaped}
              then Revoked else was
            case _ => was
  {
    if op.CascadeRevoke? { ReachedIff(s, op.key, k); }
  }

  /** `cascade_revoke` promises to revoke every active descendant. It does so exactly when none of them
      lies below a settling, reaped or pending key. */
  lemma CascadeRevokesAllIff(s: Ledger, root: KeyId)
    requires WellFormed(s)
    ensures (forall d :: d in s.rows && Descendant(s, d, root) ==> CascadeRows(s, root)[d].state != Active)
       <==> (forall d :: d in s.rows && Descendant(s, d, root) && s.rows[d].state == Active ==> !Shielded(s, root, d))
  {
    forall d | d in s.rows
      ensures CascadeRows(s, root)[d].state == Active <==>
              s.rows[d].state == Active && !(Descendant(s, d, root) && !Shielded(s, root, d))
    {
      ReachedIff(s, root, d);
    }
  }

  lemma {:induction false} ReachedIsDeeper(s: Ledger, root: KeyId, k: KeyId)
    requires WellFormed(s) && Reached(s, root, k)
    ensures root in s.rows && s.depth[root] < s.depth[k]
    decreases s.depth[k]
  {
    assert Linked(s, k);
    if s.rows[k].parent != Some(root) {
      ReachedIsDeeper(s, root, s.rows[k].parent.value);
    }
  }

  // ---------------------------------------------------------------- the depth limit is exact

  function Name(n: nat): (k: KeyId)
    ensures |k| == n
  {
    seq(n, _ => 'k')
  }

  // One root and n nested keys, each under the previous one.
  ghost function TowerOps(n: nat): seq<Op> {
    if n == 0 then [Mint(Session, None, 1, Some(Name(0)))]
    else TowerOps(n - 1) + [Mint(Nested, Some(Name(n - 1)), 1, Some(Name(n)))]
  }

  // The ledger after `TowerOps(n)`.
  ghost predicate Tower(s: Ledger, n: nat) {
    && s.log == []
    && (forall k :: k in s.rows ==> |k| <= n && s.rows[k].spent == 0)
    && (forall i :: 0 <= i <= n ==> Name(i) in s.rows && Name(i) in s.depth && s.depth[Name(i)] == i)
    && (forall i :: 0 < i <= n ==> s.rows[Name(i)].parent == Some(Name(i - 1)))
    && (forall i :: 0 <= i <= n ==> s.rows[Name(i)].state == Active && s.rows[Name(i)].budget == 1)
  }

  lemma {:induction false} TowerStands(n: nat, maxDepth: int)
    requires maxDepth >= WALK_LIMIT
    ensures Tower(Run(EMPTY, TowerOps(n), maxDepth), n)
  {
    var ops := TowerOps(n);
    var last := ops[|ops| - 1];
    if n == 0 {
      assert ops[..0] == [];
    } else {
      assert ops[..|ops| - 1] == TowerOps(n - 1);
      TowerStands(n - 1, maxDepth);
      RunSnoc(EMPTY, TowerOps(n - 1), last, maxDepth);
      TowerGrows(Run(EMPTY, TowerOps(n - 1), maxDepth), n, maxDepth);
    }
  }

  lemma TowerGrows(s: Ledger, n: nat, maxDepth: int)
    requires WellFormed(s) && n > 0 && Tower(s, n - 1) && maxDepth >= WALK_LIMIT
    ensures Tower(Next(s, Mint(Nested, Some(Name(n - 1)), 1, Some(Name(n))), maxDepth), n)
  {
    assert CanMint(s, Mint(Nested, Some(Name(n - 1)), 1, Some(Name(n))), maxDepth);
  }

  lemma {:induction false} TowerChain(s: Ledger, n: nat, i: nat)
    requires WellFormed(s) && i <= n
    requires forall j :: 0 <= j <= n ==> Name(j) in s.rows && s.depth[Name(j)] == j
    requires forall j :: 0 < j <= n ==> s.rows[Name(j)].parent == Some(Name(j - 1))
    ensures Chain(s, Name(n))[i] == Name(n - i)
    decreases n
  {
    assert Linked(s, Name(n));
    if i > 0 {
      TowerChain(s, n - 1, i - 1);
    }
  }

  lemma RootIsNotWalked(s: Ledger, n: nat)
    requires WellFormed(s) && Tower(s, n) && n >= WALK_LIMIT
    ensures Name(0) in Chain(s, Name(n)) && Name(0) !in Walked(s, Name(n))
  {
    hide Name, Chain;
    TowerChain(s, n, n);
    var c := Chain(s, Name(n));
    assert c[n] == Name(0);
    forall i | 0 <= i < |c| && i < WALK_LIMIT ensures c[i] != Name(0) {
      assert s.depth[c[i]] == n - i;
    }
  }

  // The root of the tower is untouched by a charge on its top.
  lemma TopCharge(s: Ledger, n: nat, maxDepth: int)
    requires WellFormed(s) && Tower(s, n) && Name(0) !in Walked(s, Name(n))
    ensures var t := Next(s, Spend(Name(n), 1), maxDepth);
      t.log == [] + [Charge(Name(n), 1)] && t.rows.Keys == s.rows.Keys && t.rows[Name(0)].spent == 0
  {
    hide Name, Chain, Walked;
  }

  // A charge on the top of a tower taller than the walk never reaches the bottom.
  lemma TopChargeMissesRoot(s: Ledger, n: nat, maxDepth: int)
    requires WellFormed(s) && Tower(s, n) && n >= WALK_LIMIT
    ensures var t := Next(s, Spend(Name(n), 1), maxDepth); LogOk(t) && !Conserved(t)
  {
    hide Name, Chain, Walked, Next, SubtreeSpend;
    var t := Next(s, Spend(Name(n), 1), maxDepth);
    RootIsNotWalked(s, n);
    TopCharge(s, n, maxDepth);
    TopChargeFrame(s, n, maxDepth);
    SubtreeSpendAppend(t, [], Charge(Name(n), 1), Name(0));
    NothingSpent(t, Name(0));
    assert t.log == [] + [Charge(Name(n), 1)];
    assert SubtreeSpend(t, t.log, Name(0)) == 1 != t.rows[Name(0)].spent;
  }

  lemma TopChargeFrame(s: Ledger, n: nat, maxDepth: int)
    requires WellFormed(s) && Tower(s, n)
    ensures var t := Next(s, Spend(Name(n), 1), maxDepth); Name(n) in t.rows && Chain(t, Name(n)) == Chain(s, Name(n))
  {
    hide Name, Chain, Walked;
    ChainFrame(s, Next(s, Spend(Name(n), 1), maxDepth), Name(n));
  }

  lemma NothingSpent(s: Ledger, k: KeyId)
    requires WellFormed(s)
    ensures SubtreeSpend(s, [], k) == 0
  {
  }

  lemma TallTowerLosesSpend(n: nat, maxDepth: int)
    requires n >= WALK_LIMIT && maxDepth >= WALK_LIMIT
    ensures var t := Run(EMPTY, TowerOps(n) + [Spend(Name(n), 1)], maxDepth); LogOk(t) && !Conserved(t)
  {
    hide TowerOps, Run, Tower, LogOk, Conserved;
    RunSnoc(EMPTY, TowerOps(n), Spend(Name(n), 1), maxDepth);
    TowerStands(n, maxDepth);
    TopChargeMissesRoot(Run(EMPTY, TowerOps(n), maxDepth), n, maxDepth);
  }

  /** The depth limit that makes the ledger add up is exact: conservation holds in every run if and only
      if `NESTED_MAX_DEPTH` is below the walk limit. From 32 on, the capped depth check never fires, a
      tower of 33 keys can be minted, and a charge on its top misses the root. */
  lemma ConservationIff(maxDepth: int)
    ensures maxDepth < 32 <==>
            forall ops :: LogOk(Run(EMPTY, ops, maxDepth)) && Conserved(Run(EMPTY, ops, maxDepth))
  {
    if maxDepth < WALK_LIMIT {
      forall ops ensures LogOk(Run(EMPTY, ops, maxDepth)) && Conserved(Run(EMPTY, ops, maxDepth)) {
        EveryRunConserves(ops, maxDepth);
      }
    } else {
      var n: nat := WALK_LIMIT;
      TallTowerLosesSpend(n, maxDepth);
    }
  }
  // After the lost charge the root still has its budget, and mints a child of that size.
  lemma RootOverMints(s: Ledger, n: nat, maxDepth: int)
    requires WellFormed(s) && Tower(s, n) && n >= WALK_LIMIT && maxDepth >= WALK_LIMIT
    ensures var t := Next(s, Spend(Name(n), 1), maxDepth);
            !MintFits(t, Mint(Nested, Some(Name(0)), 1, Some(Name(n + 1))), maxDepth)
  {
    hide Chain, Walked, SubtreeSpend;
    var t := Next(s, Spend(Name(n), 1), maxDepth);
    RootIsNotWalked(s, n);
    TopCharge(s, n, maxDepth);
    TopChargeFrame(s, n, maxDepth);
    SubtreeSpendAppend(t, [], Charge(Name(n), 1), Name(0));
    NothingSpent(t, Name(0));
    assert SubtreeSpend(t, t.log, Name(0)) == 1;
    assert Name(n + 1) !in s.rows;
    assert t.rows[Name(0)] == s.rows[Name(0)];
    MintGoesThroughIff(t, Mint(Nested, Some(Name(0)), 1, Some(Name(n + 1))), maxDepth);
  }

  /** In every run each nested mint that goes through fits into what the charges in its parent's subtree have left of
      the parent's budget, if and only if `NESTED_MAX_DEPTH` is below the walk limit. */
  lemma NestedMintsFitIff(maxDepth: int)
    ensures maxDepth < 32 <==> forall ops, op :: MintFits(Run(EMPTY, ops, maxDepth), op, maxDepth)
  {
    hide Run, MintFits;
    if maxDepth < WALK_LIMIT {
      forall ops, op ensures MintFits(Run(EMPTY, ops, maxDepth), op, maxDepth) { EveryMintFits(ops, op, maxDepth); }
    } else {
      var ops, op := TallTowerOverMints(WALK_LIMIT, maxDepth);
    }
  }

  lemma TallTowerOverMints(n: nat, maxDepth: int) returns (ops: seq<Op>, op: Op)
    requires n >= WALK_LIMIT && maxDepth >= WALK_LIMIT
    ensures !MintFits(Run(EMPTY, ops, maxDepth), op, maxDepth)
  {
    hide Run, Tower, TowerOps, Name, MintFits;
    ops, op := TowerOps(n) + [Spend(Name(n), 1)], Mint(Nested, Some(Name(0)), 1, Some(Name(n + 1)));
    RunSnoc(EMPTY, TowerOps(n), Spend(Name(n), 1), maxDepth);
    TowerStands(n, maxDepth);
    RootOverMints(Run(EMPTY, TowerOps(n), maxDepth), n, maxDepth);
  }
}
