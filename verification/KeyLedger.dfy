/** The mutable ledger table and the service operations on it, each proved to take the step of `Next`. */
module KeyLedger {
  import opened Prelude
  import opened KeyLedgerSpec

  datatype LedgerError =
    | TierMismatch
    | ParentNotFound
    | TooDeep
    | ParentNotActive
    | BudgetNotPositive
    | OverParentRemaining
    | ProxyFailed
    | DuplicateKeyId
    | NegativeDelta
    | KeyNotFound
    | IllegalTransition

  class Table {
    var rows: map<KeyId, Row>
    ghost var depth: map<KeyId, nat>
    ghost var log: seq<Charge>
    const maxDepth: int

    ghost function Contents(): Ledger
      reads this
    {
      Ledger(rows, depth, log)
    }

    ghost predicate Valid()
      reads this
    {
      WellFormed(Contents())
    }

    constructor (maxDepth: int)
      ensures Valid() && Contents() == EMPTY && this.maxDepth == maxDepth
    {
      this.maxDepth := maxDepth;
      rows, depth, log := map[], map[], [];
    }

    // The walk of the depth check: capped, so a deeper chain reads as WALK_LIMIT.
    method AncestorChainLen(parent: KeyId) returns (n: nat)
      requires Valid() && parent in rows
      ensures n == Min(depth[parent] + 1, WALK_LIMIT)
    {
      n := 0;
      var cursor := Some(parent);
      while cursor.Some? && n < WALK_LIMIT
        invariant n <= WALK_LIMIT && n <= depth[parent] + 1
        invariant cursor.Some? ==> cursor.value in rows && depth[cursor.value] == depth[parent] - n
        invariant cursor.None? ==> n == depth[parent] + 1
        decreases WALK_LIMIT - n
      {
        assert Linked(Contents(), cursor.value);
        n := n + 1;
        cursor := rows[cursor.value].parent;
      }
    }

    method Mint(tier: Tier, parent: Option<KeyId>, budget: int, proxyKeyId: Option<KeyId>)
      returns (r: Result<KeyId, LedgerError>)
      requires Valid()
      modifies this
      ensures Valid() && Contents() == Next(old(Contents()), Op.Mint(tier, parent, budget, proxyKeyId), maxDepth)
      ensures r.Ok? <==>
              && (tier == Nested <==> parent.Some?) && proxyKeyId.Some? && proxyKeyId.value !in old(rows)
              && (parent.Some? ==>
                    && parent.value in old(rows)
                    && var p := old(rows)[parent.value];
                       && p.state == Active && 0 < budget && p.spent + budget <= p.budget
                       && (old(depth)[parent.value] < maxDepth || 32 <= maxDepth))
      ensures r.Ok? ==> proxyKeyId == Some(r.value)
                        && rows == old(rows)[r.value := Row(parent, tier, budget, 0, Active)]
      ensures r.Err? ==> rows == old(rows)
      ensures r ==
              if parent.Some? != (tier == Nested) then Err(TierMismatch)
              else if parent.Some? && parent.value !in old(rows) then Err(ParentNotFound)
              else if parent.Some? && maxDepth < 32 && maxDepth <= old(depth)[parent.value] then Err(TooDeep)
              else if parent.Some? && old(rows)[parent.value].state != Active then Err(ParentNotActive)
              else if parent.Some? && budget <= 0 then Err(BudgetNotPositive)
              else if parent.Some? && old(rows)[parent.value].budget < old(rows)[parent.value].spent + budget then
                Err(OverParentRemaining)
              else if proxyKeyId.None? then Err(ProxyFailed)
              else if proxyKeyId.value in old(rows) then Err(DuplicateKeyId)
              else Ok(proxyKeyId.value)
    {
      if parent.Some? != (tier == Nested) {
        return Err(TierMismatch);
      }
      if parent.Some? {
        if parent.value !in rows {
          return Err(ParentNotFound);
        }
        var n := AncestorChainLen(parent.value);
        if n > maxDepth {
          return Err(TooDeep);
        }
        if rows[parent.value].state != Active {
          return Err(ParentNotActive);
        }
        if budget <= 0 {
          return Err(BudgetNotPositive);
        }
        if budget > Remaining(rows[parent.value]) {
          return Err(OverParentRemaining);
        }
      }
      if proxyKeyId.None? {
        return Err(ProxyFailed);
      }
      if proxyKeyId.value in rows {
        return Err(DuplicateKeyId);
      }
      var row := Row(parent, tier, budget, 0, Active);
      ghost var t := Minted(Contents(), proxyKeyId.value, row);
      rows, depth := rows[proxyKeyId.value := row], t.depth;
      return Ok(proxyKeyId.value);
    }

    /** The charge is added to the key and to each ancestor in turn. */
    method RecordSpend(key: KeyId, delta: int) returns (r: Result<Row, LedgerError>)
      requires Valid()
      modifies this
      ensures Valid() && Contents() == Next(old(Contents()), Spend(key, delta), maxDepth)
      ensures r.Ok? <==> delta >= 0 && key in old(rows)
      ensures r.Ok? ==> r.value == rows[key]
    {
      if delta < 0 {
        return Err(NegativeDelta);
      }
      if key !in rows {
        return Err(KeyNotFound);
      }
      ghost var before := Contents();
      ghost var chain := Chain(before, key);
      forall i | 0 <= i < |chain| ensures PointsUp(rows, chain, i) {
        ParentIsNext(before, key, i);
      }
      ChargeChain(key, delta, chain);
      WalkedIsPrefix(before, key);
      log := log + [Charge(key, delta)];
      assert Contents() == Next(before, Spend(key, delta), maxDepth);
      return Ok(rows[key]);
    }

    // The walk of `RecordSpend`, from `key` towards the root, at most WALK_LIMIT keys far.
    method ChargeChain(key: KeyId, delta: int, ghost chain: seq<KeyId>)
      requires chain != [] && chain[0] == key
      requires forall i, j :: 0 <= i < j < |chain| ==> chain[i] != chain[j]
      requires forall i {:trigger PointsUp(rows, chain, i)} :: 0 <= i < |chain| ==> PointsUp(rows, chain, i)
      modifies this`rows
      ensures rows == ChargeRows(old(rows), Prefix(chain, Min(|chain|, WALK_LIMIT)), delta)
    {
      hide ChargeRows, Prefix;
      ghost var n: nat := 0;
      var seen: set<KeyId> := {};
      var cursor := Some(key);
      ChargeNone(rows, chain, delta);
      while cursor.Some? && cursor.value !in seen && |seen| < WALK_LIMIT
        invariant |seen| == n && n <= |chain| && n <= WALK_LIMIT
        invariant seen == Prefix(chain, n)
        invariant cursor == if n < |chain| then Some(chain[n]) else None
        invariant rows == ChargeRows(old(rows), seen, delta)
        decreases WALK_LIMIT - n
      {
        var k := cursor.value;
        assert PointsUp(old(rows), chain, n);
        PrefixGrows(chain, n);
        ChargedRow(old(rows), seen, k, delta);
        ChargeGrows(old(rows), seen, k, delta);
        seen := seen + {k};
        rows := rows[k := rows[k].(spent := rows[k].spent + delta)];
        cursor := rows[k].parent;
        n := n + 1;
      }
      if n < |chain| {
        PrefixGrows(chain, n);
      }
    }

    method BeginSettlement(key: KeyId) returns (r: Result<KeyState, LedgerError>)
      requires Valid()
      modifies this
      ensures Valid() && Contents() == Next(old(Contents()), Op.BeginSettlement(key), maxDepth)
      ensures r == if key !in old(rows) then Err(KeyNotFound)
                   else if old(rows)[key].state in {Settled, Revoked, Failed} then Ok(old(rows)[key].state)
                   else if old(rows)[key].state in {Active, Reaped} then Ok(Settling)
                   else Err(IllegalTransition)
      ensures rows == if r == Ok(Settling) then old(rows)[key := old(rows)[key].(state := Settling)] else old(rows)
    {
      if key !in rows {
        return Err(KeyNotFound);
      }
      if IsTerminal(rows[key].state) {
        return Ok(rows[key].state);
      }
      if !LegalTransition(rows[key].state, Settling) {
        return Err(IllegalTransition);
      }
      ghost var t := SetState(Contents(), key, Settling);
      rows := rows[key := rows[key].(state := Settling)];
      return Ok(Settling);
    }

    method FinalizeSettlement(key: KeyId) returns (r: Result<(), LedgerError>)
      requires Valid()
      modifies this
      ensures Valid() && Contents() == Next(old(Contents()), Op.FinalizeSettlement(key), maxDepth)
      ensures r == if key !in old(rows) then Err(KeyNotFound)
                   else if old(rows)[key].state in {Settling, Settled} then Ok(()) else Err(IllegalTransition)
      ensures rows == if r.Ok? then old(rows)[key := old(rows)[key].(state := Settled)] else old(rows)
    {
      if key !in rows {
        return Err(KeyNotFound);
      }
      if rows[key].state == Settled {
        return Ok(());
      }
      if !LegalTransition(rows[key].state, Settled) {
        return Err(IllegalTransition);
      }
      ghost var t := SetState(Contents(), key, Settled);
      rows := rows[key := rows[key].(state := Settled)];
      return Ok(());
    }

    method MarkFailed(key: KeyId) returns (r: Result<KeyState, LedgerError>)
      requires Valid()
      modifies this
      ensures Valid() && Contents() == Next(old(Contents()), Op.MarkFailed(key), maxDepth)
      ensures r == if key !in old(rows) then Err(KeyNotFound)
                   else if old(rows)[key].state in {Settled, Revoked, Failed} then Ok(old(rows)[key].state)
                   else Ok(Failed)
      ensures rows == if r.Ok? then old(rows)[key := old(rows)[key].(state := r.value)] else old(rows)
    {
      if key !in rows {
        return Err(KeyNotFound);
      }
      if IsTerminal(rows[key].state) {
        return Ok(rows[key].state);
      }
      ghost var t := SetState(Contents(), key, Failed);
      rows := rows[key := rows[key].(state := Failed)];
      return Ok(Failed);
    }

    /** Breadth-first revocation below `root`, level by level. The answer lists exactly the keys revoked. */
    method CascadeRevoke(root: KeyId) returns (revoked: seq<KeyId>)
      requires Valid()
      modifies this
      ensures Valid() && Contents() == Next(old(Contents()), Op.CascadeRevoke(root), maxDepth)
      ensures rows.Keys == old(rows).Keys
      ensures forall k :: k in revoked <==> k in rows && rows[k] != old(rows)[k]
      ensures forall i, j :: 0 <= i < j < |revoked| ==> revoked[i] != revoked[j]
    {
      hide RevokeIn, CascadeRows, AtLevel, Lists, Reached;
      ghost var before := Contents();
      ghost var level := if root in depth then depth[root] else 0;
      revoked := [];
      var frontier := {root};
      var visited: set<KeyId> := {};
      StartLevel(before, root, level);
      NothingRevoked(before);
      while frontier != {}
        invariant depth == before.depth && log == before.log
        invariant AtLevel(before, root, level, visited, frontier)
        invariant rows == RevokeIn(before, visited)
        invariant Lists(before, visited, revoked)
        decreases before.rows.Keys - visited, frontier
      {
        var children := set c | c in rows && rows[c].parent.Some? && rows[c].parent.value in frontier :: c;
        RevokedShape(before, visited);
        NextLevel(before, root, level, visited, frontier, children);
        ghost var visitedBefore, frontierBefore := visited, frontier;
        revoked, visited, frontier := RevokeLevel(children, visited, revoked, before);
        LevelAdvances(before, root, level, visitedBefore, frontierBefore, children, frontier);
        if frontier != {} {
          assert before.rows.Keys - visited < before.rows.Keys - visitedBefore;
        }
        level := level + 1;
      }
      forall k | k in before.rows ensures k in visited <==> Reached(before, root, k) {
        EmptyFrontierIsEverything(before, root, level, visited, k);
      }
      CascadeIsReached(before, root, visited, revoked);
      assert Contents() == Next(before, Op.CascadeRevoke(root), maxDepth);
    }

    // One level: revoke what may be revoked, and go on below everything that is now terminal.
    method RevokeLevel(children: set<KeyId>, visited0: set<KeyId>, revoked0: seq<KeyId>, ghost before: Ledger)
      returns (revoked: seq<KeyId>, visited: set<KeyId>, next: set<KeyId>)
      requires children !! visited0 && children <= before.rows.Keys
      requires rows == RevokeIn(before, visited0) && Lists(before, visited0, revoked0)
      modifies this`rows
      ensures visited == visited0 + children
      ensures next <= children && forall c :: c in children ==> (c in next <==> !Blocked(before.rows[c].state))
      ensures rows == RevokeIn(before, visited) && Lists(before, visited, revoked)
    {
      hide RevokeIn, Lists;
      revoked, visited, next := revoked0, visited0, {};
      var todo := children;
      while todo != {}
        invariant todo <= children && visited == visited0 + (children - todo)
        invariant next <= children - todo
        invariant forall c :: c in children - todo ==> (c in next <==> !Blocked(before.rows[c].state))
        invariant rows == RevokeIn(before, visited)
        invariant Lists(before, visited, revoked)
        decreases todo
      {
        var c :| c in todo;
        assert c !in visited;
        RevokeOne(before, visited, revoked, c);
        todo := todo - {c};
        visited := visited + {c};
        if !IsTerminal(rows[c].state) {
          if LegalTransition(rows[c].state, Revoked) {
            rows := rows[c := rows[c].(state := Revoked)];
            revoked := revoked + [c];
            next := next + {c};
          }
        } else {
          next := next + {c};
        }
      }
    }

    /** The barrier query. */
    method AwaitChildrenTerminal(parent: KeyId) returns (ok: bool)
      requires Valid()
      ensures ok <==> ChildrenTerminal(Contents(), parent)
    {
      ok := forall c :: c in rows && rows[c].parent == Some(parent) ==> IsTerminal(rows[c].state);
      assert forall c :: ChildOf(Contents(), c, parent) <==> c in rows && rows[c].parent == Some(parent);
    }
  }

  // The table with the active keys of `ks` revoked.
  ghost function RevokeIn(s: Ledger, ks: set<KeyId>): map<KeyId, Row> {
    map k | k in s.rows :: if k in ks && s.rows[k].state == Active then s.rows[k].(state := Revoked) else s.rows[k]
  }

  // `revoked` lists, once each, the active keys of `ks`.
  ghost predicate Lists(s: Ledger, ks: set<KeyId>, revoked: seq<KeyId>) {
    && (forall k :: k in revoked <==> k in ks && k in s.rows && s.rows[k].state == Active)
    && (forall i, j :: 0 <= i < j < |revoked| ==> revoked[i] != revoked[j])
  }

  // All reached keys down to depth `level` are visited; the frontier is where the search goes on.
  ghost predicate AtLevel(s: Ledger, root: KeyId, level: nat, visited: set<KeyId>, frontier: set<KeyId>)
    requires WellFormed(s)
  {
    && (forall k :: k in visited <==> Reached(s, root, k) && s.depth[k] <= level)
    && (forall k :: k in frontier <==>
          (k == root && level == Base(s, root)) ||
          (Reached(s, root, k) && s.depth[k] == level && !Blocked(s.rows[k].state)))
    && Base(s, root) <= level
  }

  ghost function Base(s: Ledger, root: KeyId): nat {
    if root in s.depth then s.depth[root] else 0
  }

  // Visiting one more key revokes and lists it when it is active.
  lemma RevokeOne(s: Ledger, ks: set<KeyId>, revoked: seq<KeyId>, c: KeyId)
    requires Lists(s, ks, revoked) && c in s.rows && c !in ks
    ensures c in RevokeIn(s, ks) && RevokeIn(s, ks)[c] == s.rows[c]
    ensures if s.rows[c].state == Active
            then RevokeIn(s, ks + {c}) == RevokeIn(s, ks)[c := s.rows[c].(state := Revoked)]
                 && Lists(s, ks + {c}, revoked + [c])
            else RevokeIn(s, ks + {c}) == RevokeIn(s, ks) && Lists(s, ks + {c}, revoked)
  {
  }

  lemma NothingRevoked(s: Ledger)
    ensures RevokeIn(s, {}) == s.rows && Lists(s, {}, [])
  {
  }

  // Revoking keeps the keys and the parents.
  lemma RevokedShape(s: Ledger, ks: set<KeyId>)
    ensures RevokeIn(s, ks).Keys == s.rows.Keys
    ensures forall k :: k in s.rows ==> RevokeIn(s, ks)[k].parent == s.rows[k].parent
  {
  }

  lemma LevelAdvances(s: Ledger, root: KeyId, level: nat, visited: set<KeyId>, frontier: set<KeyId>,
                      children: set<KeyId>, next: set<KeyId>)
    requires WellFormed(s) && AtLevel(s, root, level, visited, frontier) && children <= s.rows.Keys
    requires forall c :: c in children <==> Reached(s, root, c) && s.depth[c] == level + 1
    requires next <= children && forall c :: c in children ==> (c in next <==> !Blocked(s.rows[c].state))
    ensures AtLevel(s, root, level + 1, visited + children, next)
  {
  }

  lemma CascadeIsReached(s: Ledger, root: KeyId, visited: set<KeyId>, revoked: seq<KeyId>)
    requires WellFormed(s) && Lists(s, visited, revoked)
    requires forall k :: k in s.rows ==> (k in visited <==> Reached(s, root, k))
    ensures RevokeIn(s, visited) == CascadeRows(s, root)
    ensures forall k :: k in revoked <==> k in s.rows && RevokeIn(s, visited)[k] != s.rows[k]
    ensures forall i, j :: 0 <= i < j < |revoked| ==> revoked[i] != revoked[j]
    ensures CascadeRows(s, root).Keys == s.rows.Keys
  {
  }

  lemma StartLevel(s: Ledger, root: KeyId, level: nat)
    requires WellFormed(s) && level == Base(s, root)
    ensures AtLevel(s, root, level, {}, {root})
  {
    forall k | Reached(s, root, k) ensures level < s.depth[k] {
      ReachedIsDeeper(s, root, k);
    }
  }

  lemma NextLevel(s: Ledger, root: KeyId, level: nat, visited: set<KeyId>, frontier: set<KeyId>, children: set<KeyId>)
    requires WellFormed(s) && AtLevel(s, root, level, visited, frontier)
    requires forall c :: c in children <==> c in s.rows && s.rows[c].parent.Some? && s.rows[c].parent.value in frontier
    ensures forall c :: c in children <==> Reached(s, root, c) && s.depth[c] == level + 1
    ensures children !! visited
  {
    forall c | c in s.rows ensures c in children <==> Reached(s, root, c) && s.depth[c] == level + 1 {
      assert Linked(s, c);
      if Reached(s, root, c) {
        ReachedIsDeeper(s, root, c);
      }
    }
  }

  // Once nothing is left to expand, every reached key has been visited.
  lemma {:induction false} EmptyFrontierIsEverything(s: Ledger, root: KeyId, level: nat, visited: set<KeyId>, k: KeyId)
    requires WellFormed(s) && AtLevel(s, root, level, visited, {}) && k in s.rows
    ensures k in visited <==> Reached(s, root, k)
    decreases s.depth[k]
  {
    if Reached(s, root, k) {
      assert Linked(s, k);
      ReachedIsDeeper(s, root, k);
      var p := s.rows[k].parent.value;
      if p != root {
        EmptyFrontierIsEverything(s, root, level, visited, p);
      }
      assert p !in {};
    }
  }

  ghost function Prefix(c: seq<KeyId>, n: nat): set<KeyId>
    requires n <= |c|
  {
    set i | 0 <= i < n :: c[i]
  }

  lemma PrefixGrows(c: seq<KeyId>, n: nat)
    requires n < |c| && forall i, j :: 0 <= i < j < |c| ==> c[i] != c[j]
    ensures Prefix(c, n + 1) == Prefix(c, n) + {c[n]} && c[n] !in Prefix(c, n)
  {
  }

  lemma ChargeNone(rows: map<KeyId, Row>, c: seq<KeyId>, delta: int)
    ensures Prefix(c, 0) == {} && ChargeRows(rows, {}, delta) == rows
  {
  }

  lemma ChargedRow(rows: map<KeyId, Row>, ks: set<KeyId>, k: KeyId, delta: int)
    requires k in rows
    ensures k in ChargeRows(rows, ks, delta) && ChargeRows(rows, ks, delta)[k].parent == rows[k].parent
  {
  }

  ghost predicate PointsUp(rows: map<KeyId, Row>, chain: seq<KeyId>, i: nat)
    requires i < |chain|
  {
    chain[i] in rows && rows[chain[i]].parent == if i + 1 < |chain| then Some(chain[i + 1]) else None
  }

  lemma WalkedIsPrefix(s: Ledger, k: KeyId)
    requires WellFormed(s) && k in s.rows
    ensures Walked(s, k) == Prefix(Chain(s, k), Min(|Chain(s, k)|, WALK_LIMIT))
  {
  }

  lemma ChargeGrows(rows: map<KeyId, Row>, ks: set<KeyId>, k: KeyId, delta: int)
    requires k in rows && k !in ks
    ensures var r := ChargeRows(rows, ks, delta);
      ChargeRows(rows, ks + {k}, delta) == r[k := r[k].(spent := r[k].spent + delta)]
  {
  }

  // In a chain, each key's parent is the next entry.
  lemma {:induction false} ParentIsNext(s: Ledger, k: KeyId, i: nat)
    requires WellFormed(s) && k in s.rows && i < |Chain(s, k)|
    ensures s.rows[Chain(s, k)[i]].parent == if i + 1 < |Chain(s, k)| then Some(Chain(s, k)[i + 1]) else None
    decreases i
  {
    assert Linked(s, k);
    if i > 0 {
      ParentIsNext(s, s.rows[k].parent.value, i - 1);
    }
  }
}
