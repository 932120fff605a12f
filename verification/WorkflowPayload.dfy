/** What applying a payload writes, row by row and field by field, up to where it stops. */
module WorkflowPayload {
  import opened Prelude
  import opened WorkflowSpec
  import Guards = ConvergenceGuards

  predicate ReadableAction(a: ActionIn) { a.body && a.ids }

  predicate ReadableTrigger(t: TriggerIn) { t.detail.Some? }

  predicate ReadableTarget(t: TargetIn) { t.destination.Some? && t.detail.Some? }

  predicate Readable(p: Payload) {
    && p.tierParses
    && (forall i :: 0 <= i < |p.actions| ==> ReadableAction(p.actions[i]))
    && (forall i :: 0 <= i < |p.triggers| ==> ReadableTrigger(p.triggers[i]))
    && (forall i :: 0 <= i < |p.targets| ==> ReadableTarget(p.targets[i]))
  }

  predicate RowAt(rows: map<nat, Row>, id: nat, row: Row) { id in rows && rows[id] == row }

  /** The first `a` actions, `t` triggers and `g` targets stand under consecutive ids, each with its item's fields. */
  predicate RowsUpTo(rows: map<nat, Row>, p: Payload, next: nat, a: nat, t: nat, g: nat)
    requires a <= |p.actions| && t <= |p.triggers| && g <= |p.targets|
  {
    && (forall i :: 0 <= i < a ==> RowAt(rows, next + i, ActionRow(p.actions[i].kind, p.actions[i].detail)))
    && (forall i :: 0 <= i < t ==>
          && p.triggers[i].detail.Some?
          && RowAt(rows, next + a + i, TriggerRow(p.triggers[i].active, p.triggers[i].detail.value)))
    && (forall i :: 0 <= i < g ==>
          && p.targets[i].destination.Some? && p.targets[i].detail.Some?
          && RowAt(rows, next + a + t + i, TargetRow(p.targets[i].destination.value, p.targets[i].detail.value)))
  }

  /** The numbers of actions, triggers and targets that are read: none behind a tier that does not parse, and none
      behind the first item that cannot be read. */
  predicate StopsAt(p: Payload, a: nat, t: nat, g: nat) {
    && a <= |p.actions| && t <= |p.triggers| && g <= |p.targets|
    && (!p.tierParses ==> a == t == g == 0)
    && (a < |p.actions| ==> t == 0) && (a < |p.actions| || t < |p.triggers| ==> g == 0)
    && (forall i :: 0 <= i < a ==> ReadableAction(p.actions[i]))
    && (forall i :: 0 <= i < t ==> ReadableTrigger(p.triggers[i]))
    && (forall i :: 0 <= i < g ==> ReadableTarget(p.targets[i]))
    && (p.tierParses && a < |p.actions| ==> !ReadableAction(p.actions[a]))
    && (p.tierParses && a == |p.actions| && t < |p.triggers| ==> !ReadableTrigger(p.triggers[t]))
    && (p.tierParses && a == |p.actions| && t == |p.triggers| && g < |p.targets| ==> !ReadableTarget(p.targets[g]))
  }

  /** The old row is deleted: its list's turn has come. */
  predicate Gone(row: Row, p: Payload, a: nat, t: nat) {
    match row
    case ActionRow(_, _) => p.tierParses
    case TriggerRow(_, _) => p.tierParses && a == |p.actions|
    case TargetRow(_, _) => p.tierParses && a == |p.actions| && t == |p.triggers|
  }

  /** The setting is written before the tier is converted, or the tier can be. */
  predicate Reaches(p: Payload, k: Setting) {
    k in p.settings && (p.tierParses || k in {Name, WorkspaceScope, ComputeProfile, Contract})
  }

  predicate SettingsUpTo(was: map<Setting, int>, p: Payload, now: map<Setting, int>) {
    && (forall k :: k in now <==> k in was || Reaches(p, k))
    && (forall k :: k in now ==> now[k] == if Reaches(p, k) then p.settings[k] else was[k])
  }

  ghost predicate WritesUpTo(was: Live, p: Payload, next: nat, now: Live, a: nat, t: nat, g: nat) {
    && StopsAt(p, a, t, g) && RowsUpTo(now.rows, p, next, a, t, g) && SettingsUpTo(was.settings, p, now.settings)
    && (forall id :: id in now.rows <==>
          next <= id < next + a + t + g || (id in was.rows && !Gone(was.rows[id], p, a, t)))
    && (forall id :: id in now.rows && !(next <= id < next + a + t + g) ==> now.rows[id] == was.rows[id])
  }

  ghost predicate WritesSome(was: Live, p: Payload, next: nat, now: Live) {
    exists a, t, g :: WritesUpTo(was, p, next, now, a, t, g)
  }

  /** The definition is what the payload spells: one row for each item and no other, each given setting at its new value
      and every other one as it was. */
  ghost predicate IsPayload(was: Live, p: Payload, next: nat, now: Live) {
    && RowsUpTo(now.rows, p, next, |p.actions|, |p.triggers|, |p.targets|)
    && (forall id :: id in now.rows <==> next <= id < next + |p.actions| + |p.triggers| + |p.targets|)
    && (forall k :: k in now.settings <==> k in was.settings || k in p.settings)
    && (forall k :: k in now.settings ==> now.settings[k] == if k in p.settings then p.settings[k] else was.settings[k])
  }

  /** What leads the items is read off them one by one, up to the first that cannot be read. */
  lemma {:induction false} LeadingIs(items: seq<Option<Row>>)
    ensures var rows := Leading(items);
            && (forall k :: 0 <= k < |rows| ==> items[k] == Some(rows[k]))
            && (|rows| < |items| ==> items[|rows|] == None)
  {
    if items != [] && items[0].Some? { LeadingIs(items[1..]); }
  }

  lemma ActionsRead(p: Payload)
    ensures var rows := Leading(Items(p, Actions));
      && |rows| <= |p.actions| && (|rows| < |p.actions| ==> !ReadableAction(p.actions[|rows|]))
      && forall i :: 0 <= i < |rows| ==>
           ReadableAction(p.actions[i]) && rows[i] == ActionRow(p.actions[i].kind, p.actions[i].detail)
  {
    LeadingIs(Items(p, Actions));
    assert forall i :: 0 <= i < |p.actions| ==> Items(p, Actions)[i] == ActionOf(p.actions[i]);
  }

  lemma TriggersRead(p: Payload)
    ensures var rows := Leading(Items(p, Triggers));
      && |rows| <= |p.triggers| && (|rows| < |p.triggers| ==> !ReadableTrigger(p.triggers[|rows|]))
      && forall i :: 0 <= i < |rows| ==>
           && ReadableTrigger(p.triggers[i])
           && rows[i] == TriggerRow(p.triggers[i].active, p.triggers[i].detail.value)
  {
    LeadingIs(Items(p, Triggers));
    assert forall i :: 0 <= i < |p.triggers| ==> Items(p, Triggers)[i] == TriggerOf(p.triggers[i]);
  }

  lemma TargetsRead(p: Payload)
    ensures var rows := Leading(Items(p, Targets));
      && |rows| <= |p.targets| && (|rows| < |p.targets| ==> !ReadableTarget(p.targets[|rows|]))
      && forall i :: 0 <= i < |rows| ==>
           && ReadableTarget(p.targets[i])
           && rows[i] == TargetRow(p.targets[i].destination.value, p.targets[i].detail.value)
  {
    LeadingIs(Items(p, Targets));
    assert forall i :: 0 <= i < |p.targets| ==> Items(p, Targets)[i] == TargetOf(p.targets[i]);
  }

  lemma ParsesIffReadable(p: Payload)
    ensures Parses(p) <==> Readable(p)
  {
    assert |Items(p, Actions)| == |p.actions|;
    assert |Items(p, Triggers)| == |p.triggers|;
    assert |Items(p, Targets)| == |p.targets|;
    hide Leading, Items;
    ActionsRead(p);
    TriggersRead(p);
    TargetsRead(p);
  }

  /** The numbers of items a payload gets through, and the rows inserted for them. */
  lemma StopsSomewhere(p: Payload) returns (a: nat, t: nat, g: nat)
    ensures StopsAt(p, a, t, g)
    ensures forall row :: Gone(row, p, a, t) <==> ClassOf(row) in Dropped(p)
    ensures a <= |Leading(Items(p, Actions))| && t <= |Leading(Items(p, Triggers))| && g <= |Leading(Items(p, Targets))|
    ensures Specs(p) == Leading(Items(p, Actions))[..a] + Leading(Items(p, Triggers))[..t]
                        + Leading(Items(p, Targets))[..g]
  {
    assert |Items(p, Actions)| == |p.actions|;
    assert |Items(p, Triggers)| == |p.triggers|;
    assert |Items(p, Targets)| == |p.targets|;
    var acts, trigs, targs := Leading(Items(p, Actions)), Leading(Items(p, Triggers)), Leading(Items(p, Targets));
    hide Leading, Items, ReadableAction, ReadableTrigger, ReadableTarget;
    ActionsRead(p);
    TriggersRead(p);
    TargetsRead(p);
    a := if p.tierParses then |acts| else 0;
    t := if p.tierParses && a == |p.actions| then |trigs| else 0;
    g := if p.tierParses && a == |p.actions| && t == |p.triggers| then |targs| else 0;
    assert acts[..|acts|] == acts && trigs[..|trigs|] == trigs && targs[..|targs|] == targs;
  }

  lemma SpecsAre(p: Payload, a: nat, t: nat, g: nat)
    requires a <= |Leading(Items(p, Actions))| && t <= |Leading(Items(p, Triggers))|
    requires g <= |Leading(Items(p, Targets))|
    requires Specs(p) == Leading(Items(p, Actions))[..a] + Leading(Items(p, Triggers))[..t]
                         + Leading(Items(p, Targets))[..g]
    requires StopsAt(p, a, t, g)
    ensures |Specs(p)| == a + t + g
    ensures forall i :: 0 <= i < a ==> Specs(p)[i] == ActionRow(p.actions[i].kind, p.actions[i].detail)
    ensures forall i :: 0 <= i < t ==> Specs(p)[a + i] == TriggerRow(p.triggers[i].active, p.triggers[i].detail.value)
    ensures forall i :: 0 <= i < g ==>
              Specs(p)[a + t + i] == TargetRow(p.targets[i].destination.value, p.targets[i].detail.value)
  {
    hide Leading, Items, Specs;
    ActionsRead(p);
    TriggersRead(p);
    TargetsRead(p);
  }

  lemma RowsSomewhere(p: Payload) returns (a: nat, t: nat, g: nat)
    ensures StopsAt(p, a, t, g) && |Specs(p)| == a + t + g
    ensures forall row :: Gone(row, p, a, t) <==> ClassOf(row) in Dropped(p)
    ensures forall i :: 0 <= i < a ==> Specs(p)[i] == ActionRow(p.actions[i].kind, p.actions[i].detail)
    ensures forall i :: 0 <= i < t ==> Specs(p)[a + i] == TriggerRow(p.triggers[i].active, p.triggers[i].detail.value)
    ensures forall i :: 0 <= i < g ==>
              Specs(p)[a + t + i] == TargetRow(p.targets[i].destination.value, p.targets[i].detail.value)
  {
    hide Leading, Items, Specs, Gone, Dropped;
    a, t, g := StopsSomewhere(p);
    SpecsAre(p, a, t, g);
  }

  lemma SettingsAreWritten(was: map<Setting, int>, p: Payload)
    ensures SettingsUpTo(was, p, was + Written(p))
  {
    assert forall k :: k in Written(p) <==> Reaches(p, k);
    assert forall k :: k in Written(p) ==> Written(p)[k] == p.settings[k];
  }

  /** Applying a payload writes exactly what it spells up to the first part that cannot be read. */
  lemma MaterialisedFieldByField(was: Live, p: Payload, next: nat) returns (a: nat, t: nat, g: nat)
    ensures WritesUpTo(was, p, next, Materialised(was, p, next), a, t, g)
  {
    a, t, g := RowsSomewhere(p);
    SettingsAreWritten(was.settings, p);
    var now := Materialised(was, p, next);
    var specs := Specs(p);
    hide Specs, Dropped, StopsAt, SettingsUpTo, Written, Gone;
    forall id ensures id in now.rows <==>
                      next <= id < next + a + t + g || (id in was.rows && !Gone(was.rows[id], p, a, t)) {
      if id in was.rows { assert Gone(was.rows[id], p, a, t) <==> ClassOf(was.rows[id]) in Dropped(p); }
    }
    assert forall i :: 0 <= i < |specs| ==> RowAt(now.rows, next + i, specs[i]);
    RowsAreWritten(now.rows, p, next, a, t, g, specs);
  }

  lemma RowsAreWritten(rows: map<nat, Row>, p: Payload, next: nat, a: nat, t: nat, g: nat, specs: seq<Row>)
    requires StopsAt(p, a, t, g) && |specs| == a + t + g
    requires forall i :: 0 <= i < a ==> specs[i] == ActionRow(p.actions[i].kind, p.actions[i].detail)
    requires forall i :: 0 <= i < t ==> specs[a + i] == TriggerRow(p.triggers[i].active, p.triggers[i].detail.value)
    requires forall i :: 0 <= i < g ==>
               specs[a + t + i] == TargetRow(p.targets[i].destination.value, p.targets[i].detail.value)
    requires forall i :: 0 <= i < |specs| ==> RowAt(rows, next + i, specs[i])
    ensures RowsUpTo(rows, p, next, a, t, g)
  {
    forall i | 0 <= i < a
      ensures RowAt(rows, next + i, ActionRow(p.actions[i].kind, p.actions[i].detail))
    {
      assert RowAt(rows, next + i, specs[i]);
    }
    forall i | 0 <= i < t
      ensures RowAt(rows, next + a + i, TriggerRow(p.triggers[i].active, p.triggers[i].detail.value))
    {
      var j := a + i;
      assert RowAt(rows, next + j, specs[j]);
    }
    forall i | 0 <= i < g
      ensures RowAt(rows, next + a + t + i, TargetRow(p.targets[i].destination.value, p.targets[i].detail.value))
    {
      var j := a + t + i;
      assert RowAt(rows, next + j, specs[j]);
    }
  }

  /** A payload that can be read to its end leaves the definition it spells. */
  lemma ReadableIsWritten(was: Live, p: Payload, next: nat)
    requires Readable(p)
    ensures IsPayload(was, p, next, Materialised(was, p, next))
  {
    var a, t, g := MaterialisedFieldByField(was, p, next);
    hide Materialised;
    assert a == |p.actions| && t == |p.triggers| && g == |p.targets|;
  }
  /** All of it, for the method that does the writing. */
  lemma MaterialisedAsSpelled(was: Live, p: Payload, next: nat)
    ensures Parses(p) <==> Readable(p)
    ensures WritesSome(was, p, next, Materialised(was, p, next))
    ensures Readable(p) ==> IsPayload(was, p, next, Materialised(was, p, next))
  {
    ParsesIffReadable(p);
    var a, t, g := MaterialisedFieldByField(was, p, next);
    hide Materialised, WritesUpTo, IsPayload, Parses, Readable;
    if Readable(p) { ReadableIsWritten(was, p, next); }
  }
  // ---------------------------------------------------------------------
  // What becomes of a proposal
  // ---------------------------------------------------------------------

  // What a proposal is filed as: its own fields, and applied at once exactly when nothing stands against it.
  predicate FiledAs(row: Proposal, q: Request, d: Definition) {
    && row.automation == q.automation && row.payload == q.payload && row.user == q.user && row.run == q.run
    && row.base == (if q.base.Some? then q.base else d.head)
    && row.status == (if Automatic(d.guard, q) then Applied else Submitted)
    && (row.applied.Some? <==> Automatic(d.guard, q))
  }

  // An open proposal that asks for the same.
  predicate OpenAs(row: Proposal, q: Request, d: Definition) {
    && row.automation == q.automation && row.status == Submitted && row.payload == q.payload
    && row.base == (if q.base.Some? then q.base else d.head)
  }

  lemma DuplicateIsOpen(db: Db, p: nat, q: Request)
    requires p in db.proposals && q.automation in db.definitions
    ensures Duplicate(db, p, q.automation, BaseOf(db, q), q.payload) <==>
              OpenAs(db.proposals[p], q, db.definitions[q.automation])
  {
  }

  /** A person has signed, the policy allows the change, the budget is not used up, an agent run has let the cooldown
      pass, every action can be run dry, and the payload can be read to its end. */
  predicate Automatic(g: Guards.Guard, q: Request) {
    && q.user.Some? && q.policyAllows && Readable(q.payload) && DryRuns(q.payload)
    && (0 < g.budgetMax ==> g.consumed < g.budgetMax)
    && (q.run.Some? && 0 < g.cooldown && g.lastSelfEdit.Some? ==>
          g.lastSelfEdit.value + g.cooldown * 1_000_000 <= q.now)
  }

  predicate DryRuns(p: Payload) {
    && p.actions != []
    && forall i :: 0 <= i < |p.actions| ==>
         p.actions[i].body && p.actions[i].kind in {GatewaySend, Deliver, Branch, SubWorkflow(true)}
  }

  lemma {:induction false} WalkPassesIff(actions: seq<ActionIn>)
    ensures Walk(actions) == Passes <==>
            forall i :: 0 <= i < |actions| ==>
              actions[i].body && actions[i].kind in {GatewaySend, Deliver, Branch, SubWorkflow(true)}
  {
    if actions != [] {
      WalkPassesIff(actions[1..]);
      assert forall i :: 0 < i < |actions| ==> actions[i] == actions[1..][i - 1];
    }
  }

  /** The dry run lets exactly the non-empty lists of these four kinds of steps through. */
  lemma DryRunsIff(p: Payload)
    ensures DryRunOf(p) == Passes <==> DryRuns(p)
  {
    WalkPassesIff(p.actions);
  }

  /** The proposal stands as filed; if it was automatic, its payload is live, its version is the head, and the guard has
      counted and stamped it; otherwise the guard is as it was. */
  ghost predicate IsFiled(db: Db, q: Request, after: Db)
    requires q.automation in db.definitions && q.automation in after.definitions && db.nextId in after.proposals
  {
    var row, was, now := after.proposals[db.nextId], db.definitions[q.automation], after.definitions[q.automation];
    && after.proposals == db.proposals[db.nextId := row] && FiledAs(row, q, was)
    && now.guard == (if Automatic(was.guard, q)
                     then was.guard.(consumed := was.guard.consumed + 1, lastSelfEdit := Some(q.stamp)) else was.guard)
    && (Automatic(was.guard, q) ==>
          && now.head == row.applied && row.applied.value in after.versions
          && after.versions[row.applied.value].snapshot == now.live
          && IsPayload(was.live, q.payload, db.nextId + 1, now.live))
  }

  lemma SnapshotHolds(db: Db, a: nat, parent: Option<nat>, after: Db, v: nat)
    requires a in db.definitions && Snapshots(db, a, parent, after, v)
    ensures Holds(after.versions, v, a, db.definitions[a].live) && after.proposals == db.proposals
    ensures after.definitions == db.definitions[a := db.definitions[a].(head := Some(v))]
  {}

  /** Applying leaves the guard alone, and when it succeeds the head is a version that holds what the payload spells. */
  lemma AppliedAsSpelled(db: Db, p: nat, actor: Option<int>, parent: Option<nat>, after: Db, r: Result<nat, ApplyError>)
    requires p in db.proposals && db.proposals[p].automation in db.definitions
    requires Applies(db, p, actor, parent, after, r)
    ensures var q := db.proposals[p];
      && (r.Ok? <==> (actor.Some? || q.user.Some?) && Readable(q.payload))
      && q.automation in after.definitions
      && after.definitions[q.automation].guard == db.definitions[q.automation].guard
      && (r.Err? ==> after.proposals == db.proposals)
      && (r.Ok? ==>
            && after.proposals == db.proposals[p := q.(status := Applied, applied := Some(r.value))]
            && after.definitions[q.automation].head == Some(r.value) && r.value in after.versions
            && after.versions[r.value].snapshot == after.definitions[q.automation].live
            && IsPayload(db.definitions[q.automation].live, q.payload, db.nextId, after.definitions[q.automation].live))
  {
    hide Materialised, Readable, IsPayload, WritesSome, Parses;
    var q := db.proposals[p];
    var live := Materialised(db.definitions[q.automation].live, q.payload, db.nextId);
    MaterialisedAsSpelled(db.definitions[q.automation].live, q.payload, db.nextId);
    var rewritten := WithLive(db, q.automation, live, db.nextId + |Specs(q.payload)|);
    if r.Ok? {
      var mid :| Snapshots(rewritten, q.automation, parent, mid, r.value) && after == Closed(mid, p, r.value);
      SnapshotHolds(rewritten, q.automation, parent, mid, r.value);
    }
  }

  /** A new proposal is filed with its own fields, and applied at once exactly when it is automatic. */
  lemma FiledAsAsked(db: Db, q: Request, parent: Option<nat>, after: Db)
    requires q.automation in db.definitions && db.nextId !in db.proposals && Proposes(db, q, parent, after)
    requires db.nextId in after.proposals
    ensures q.automation in after.definitions && IsFiled(db, q, after)
  {
    hide Applies, Readable, IsPayload, Walk, DryRuns, Duplicate;
    var open := Submit(db, q);
    DryRunsIff(q.payload);
    if AutoApplies(db.definitions[q.automation].guard, q.payload, q.run.Some?, q.now, q.policyAllows) {
      var mid, r :|
        && Applies(open, db.nextId, q.user, parent, mid, r)
        && q.automation in mid.definitions
        && after == if r.Ok? then Counted(mid, q.automation, q.stamp) else mid;
      AppliedAsSpelled(open, db.nextId, q.user, parent, mid, r);
    }
  }
}
