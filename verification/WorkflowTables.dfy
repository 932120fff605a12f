/** The workflow operations as they change stored rows, each tied to its step of the specification. */
module WorkflowTables {
  import opened Prelude
  import opened WorkflowSpec
  import opened WorkflowPayload
  import Guards = ConvergenceGuards

  datatype ProposalError = NotFound | AlreadyDecided | NoProposer | Unreadable | Refused(why: ApplyError)

  class Tables {
    var versions: map<nat, Version>
    var definitions: map<nat, Definition>
    var proposals: map<nat, Proposal>
    var runs: map<nat, WorkRun>
    var nextId: nat

    constructor ()
      ensures State() == Db(map[], map[], map[], map[], 0)
    {
      versions, definitions, proposals, runs, nextId := map[], map[], map[], map[], 0;
    }

    function State(): Db
      reads this
    {
      Db(versions, definitions, proposals, runs, nextId)
    }

    /** The version of the highest generation, scanning the automation's versions. */
    method NewestVersion(a: nat) returns (newest: Option<nat>)
      ensures Newest(versions, a, newest)
    {
      newest := None;
      var left := versions.Keys;
      while left != {}
        invariant left <= versions.Keys
        invariant ParentRead(versions, a, newest)
        invariant forall v | v !in left && OfAutomation(versions, v, a) ::
                    newest.Some? && versions[v].generation <= versions[newest.value].generation
        decreases |left|
      {
        var v :| v in left;
        left := left - {v};
        if versions[v].automation == a
           && (newest.None? || versions[v].generation > versions[newest.value].generation) {
          newest := Some(v);
        }
      }
    }

    method SetHead(a: nat, v: nat)
      requires a in definitions
      modifies this`definitions
      ensures State() == WithHead(old(State()), a, v)
    {
      definitions := definitions[a := definitions[a].(head := Some(v))];
    }

    /** Reuses the version with the same content, else appends one; either becomes the head. */
    method Snapshot(a: nat) returns (v: nat, inserted: bool, parent: Option<nat>)
      requires a in definitions
      modifies this`versions, this`definitions, this`nextId
      ensures Snapshots(old(State()), a, parent, State(), v)
      ensures parent.Some? ==> inserted
      ensures inserted ==> Newest(old(versions), a, parent)
      ensures inserted <==> !exists w :: Holds(old(versions), w, a, old(definitions)[a].live)
      ensures v in versions && versions[v].automation == a && versions[v].snapshot == old(definitions)[a].live
      ensures definitions == old(definitions)[a := old(definitions)[a].(head := Some(v))]
      ensures !inserted ==> versions == old(versions)
      ensures inserted ==>
                && v == old(nextId) && versions == old(versions)[v := versions[v]] && versions[v].parent == parent
                && versions[v].generation == if parent.Some? then old(versions)[parent.value].generation + 1 else 1
    {
      parent := None;
      if w :| w in versions && Holds(versions, w, a, definitions[a].live) {
        SetHead(a, w);
        return w, false, parent;
      }
      parent := NewestVersion(a);
      v, inserted := nextId, true;
      var generation := if parent.Some? then versions[parent.value].generation + 1 else 1;
      versions := versions[v := Version(a, generation, parent, definitions[a].live)];
      nextId := nextId + 1;
      SetHead(a, v);
    }

    /** Inserts the rows one after another under fresh ids. */
    method InsertRows(a: nat, specs: seq<Row>)
      requires a in definitions
      modifies this`definitions, this`nextId
      ensures var d := old(definitions)[a];
              definitions ==
                old(definitions)[a := d.(live := d.live.(rows := d.live.rows + Inserted(old(nextId), specs)))]
      ensures nextId == old(nextId) + |specs|
    {
      var live := definitions[a].live;
      var rows := live.rows;
      assert rows == live.rows + Inserted(nextId, []);
      assert specs[..0] == [];
      hide Inserted;
      for i := 0 to |specs|
        invariant rows == live.rows + Inserted(nextId, specs[..i]) && unchanged(this)
      {
        InsertedSnoc(live.rows, nextId, specs, i);
        rows := rows[nextId + i := specs[i]];
      }
      assert specs[..|specs|] == specs;
      definitions := definitions[a := definitions[a].(live := live.(rows := rows))];
      nextId := nextId + |specs|;
    }

    /** Overlays settings and deletes the dropped classes of child rows. */
    method Overwrite(a: nat, settings: map<Setting, int>, dropped: set<RowClass>)
      requires a in definitions
      modifies this`definitions
      ensures var d := old(definitions)[a];
              definitions ==
                old(definitions)[a := d.(live := Live(d.live.settings + settings, Kept(d.live.rows, dropped)))]
    {
      var live := definitions[a].live;
      definitions := definitions[a := definitions[a].(live := Live(live.settings + settings,
                                                                   Kept(live.rows, dropped)))];
    }

    /** The rows before the first item that cannot be read. */
    static method ReadRows(items: seq<Option<Row>>) returns (good: seq<Row>, ok: bool)
      ensures good == Leading(items) && (ok <==> Complete(items))
    {
      hide Leading;
      good := [];
      assert items[0..] == items;
      for i := 0 to |items|
        invariant |good| == i && Leading(items) == good + Leading(items[i..])
      {
        LeadingStep(items, i);
        if items[i].None? { return good, false; }
        good := good + [items[i].value];
      }
      LeadingNone(items);
      return good, true;
    }

    /** Deletes one class of rows and inserts the given ones until one cannot be read. */
    method ReplaceClass(a: nat, c: RowClass, items: seq<Option<Row>>) returns (ok: bool)
      requires a in definitions
      modifies this`definitions, this`nextId
      ensures ok <==> Complete(items)
      ensures var d := old(definitions)[a];
              var rows := Kept(d.live.rows, {c}) + Inserted(old(nextId), Leading(items));
              definitions == old(definitions)[a := d.(live := d.live.(rows := rows))]
      ensures nextId == old(nextId) + |Leading(items)|
    {
      hide Kept, Inserted, Leading, Complete;
      Overwrite(a, map[], {c});
      NoSettings(old(definitions)[a].live.settings);
      var good;
      good, ok := ReadRows(items);
      InsertRows(a, good);
    }

    /** Replaces the three lists, one after another. */
    method ReplaceLists(a: nat, payload: Payload) returns (ok: bool)
      requires a in definitions && payload.tierParses
      modifies this`definitions, this`nextId
      ensures ok <==> Parses(payload)
      ensures var d := old(definitions)[a];
              var rows := Kept(d.live.rows, Dropped(payload)) + Inserted(old(nextId), Specs(payload));
              definitions == old(definitions)[a := d.(live := d.live.(rows := rows))]
      ensures nextId == old(nextId) + |Specs(payload)|
    {
      hide Kept, Inserted, Leading, Complete, Items;
      ghost var rows, next := definitions[a].live.rows, nextId;
      ok := ReplaceClass(a, Actions, Items(payload, Actions));
      if !ok { return; }
      ok := ReplaceClass(a, Triggers, Items(payload, Triggers));
      TriggerStage(rows, payload, next);
      if !ok { return; }
      ok := ReplaceClass(a, Targets, Items(payload, Targets));
      TargetStage(rows, payload, next);
    }

    /** Replaces the live definition; what was written before an unreadable part stays written. */
    method Materialise(a: nat, payload: Payload) returns (ok: bool)
      requires a in definitions
      modifies this`definitions, this`nextId
      ensures ok <==> Readable(payload)
      ensures ok ==> a in definitions && IsPayload(old(definitions)[a].live, payload, old(nextId), definitions[a].live)
      ensures a in definitions && WritesSome(old(definitions)[a].live, payload, old(nextId), definitions[a].live)
      ensures State() == WithLive(old(State()), a, Materialised(old(definitions)[a].live, payload, old(nextId)),
                                  old(nextId) + |Specs(payload)|)
    {
      hide WritesSome, IsPayload, Readable, Kept, Inserted, Complete, Items, Early, Specs, Dropped;
      ghost var live := definitions[a].live;
      Overwrite(a, Early(payload.settings), {});
      NoneDropped(live.rows, nextId);
      MaterialisedAsSpelled(live, payload, nextId);
      if !payload.tierParses {
        NothingReached(payload);
        return false;
      }
      Overwrite(a, payload.settings, {});
      EarlyThenAll(live.settings, payload.settings);
      ok := ReplaceLists(a, payload);
    }

    /** Replaces the live rows, snapshots them and closes the proposal. */
    method ApplyProposal(p: nat, actor: Option<int>) returns (r: Result<nat, ApplyError>, parent: Option<nat>)
      requires p in proposals && proposals[p].automation in definitions
      modifies this`versions, this`definitions, this`proposals, this`nextId
      ensures Applies(old(State()), p, actor, parent, State(), r)
      ensures var q := old(proposals)[p];
              r.Ok? <==> (actor.Some? || q.user.Some?) && Readable(q.payload)
      ensures var q := old(proposals)[p];
              r.Ok? ==>
                && q.automation in definitions && definitions[q.automation].head == Some(r.value)
                && r.value in versions && versions[r.value].automation == q.automation
                && versions[r.value].snapshot == definitions[q.automation].live
                && IsPayload(old(definitions)[q.automation].live, q.payload, old(nextId), versions[r.value].snapshot)
                && proposals == old(proposals)[p := q.(status := Applied, applied := Some(r.value))]
      ensures var a := old(proposals)[p].automation;
              && a in definitions && definitions == old(definitions)[a := definitions[a]]
              && definitions[a].guard == old(definitions)[a].guard
    {
      hide WritesSome, IsPayload, Readable, Materialised, Parses, Snapshots;
      parent := None;
      var q := proposals[p];
      if actor.None? && q.user.None? {
        return Err(Unauthorised), parent;
      }
      MaterialisedAsSpelled(definitions[q.automation].live, q.payload, nextId);
      var ok := Materialise(q.automation, q.payload);
      if !ok {
        return Err(BadPayload), parent;
      }
      ghost var rewritten := State();
      var v, inserted;
      v, inserted, parent := Snapshot(q.automation);
      ghost var mid := State();
      SnapshotHolds(rewritten, q.automation, parent, mid, v);
      assert proposals == old(proposals);
      proposals := proposals[p := proposals[p].(status := Applied, applied := Some(v))];
      assert State() == Closed(mid, p, v);
      r := Ok(v);
    }

    /** Walks the actions and stops at the first that cannot be read or run dry. */
    method DryRun(payload: Payload) returns (r: Verdict)
      ensures r == DryRunOf(payload)
    {
      if payload.actions == [] { return Refuses; }
      for i := 0 to |payload.actions|
        invariant Walk(payload.actions) == Walk(payload.actions[i..])
      {
        assert payload.actions[i..][1..] == payload.actions[i + 1..];
        if !payload.actions[i].body { return Raises; }
        if !CanDryRun(payload.actions[i].kind) { return Refuses; }
      }
      return Passes;
    }

    /** Creates a proposal and applies it at once when guards, policy and dry run agree. */
    method CreateProposal(q: Request) returns (created: Result<nat, ProposalError>, parent: Option<nat>)
      requires q.automation in definitions && q.now <= q.stamp
      modifies this`versions, this`definitions, this`proposals, this`nextId
      ensures Next(old(State()), Propose(q), parent, State())
      ensures created == Err(NoProposer) <==> q.user.None? && q.run.None?
      ensures created.Err? ==> State() == old(State())
      ensures created.Ok? && created.value in old(proposals) && old(nextId) !in old(proposals) ==>
                && State() == old(State())
                && OpenAs(proposals[created.value], q, definitions[q.automation])
      ensures created.Ok? && created.value !in old(proposals) ==>
                && created.value == old(nextId) && created.value in proposals && q.automation in definitions
                && IsFiled(old(State()), q, State())
                && forall p :: p in old(proposals) ==>
                     !OpenAs(old(proposals)[p], q, old(definitions)[q.automation])
    {
      hide Materialised, Parses, Snapshots, Walk, IsPayload, WritesSome, Readable, IsFiled, OpenAs;
      parent := None;
      if q.user.None? && q.run.None? { return Err(NoProposer), parent; }
      var a := q.automation;
      var base := if q.base.Some? then q.base else definitions[a].head;
      if p :| p in proposals && Duplicate(State(), p, a, base, q.payload) {
        assert Duplicate(State(), p, q.automation, BaseOf(State(), q), q.payload);
        DuplicateIsOpen(State(), p, q);
        return Ok(p), parent;
      }
      forall p | p in proposals ensures !OpenAs(proposals[p], q, definitions[a]) { DuplicateIsOpen(State(), p, q); }
      hide Duplicate;
      var before := State();
      var p := nextId;
      proposals := proposals[p := Proposal(a, base, q.payload, q.user, q.run, Submitted, None)];
      nextId := nextId + 1;
      ghost var open := State();
      assert open == Submit(before, q);
      created := Ok(p);
      var eligible := !Guards.Cooling(definitions[a].guard, q.now, q.run.Some?)
                      && !Guards.Exhausted(definitions[a].guard) && q.policyAllows;
      if eligible {
        var dry := DryRun(q.payload);
        if dry == Raises {
          proposals, nextId := before.proposals, before.nextId;
          return Err(Unreadable), parent;
        }
        if dry == Passes {
          var r;
          r, parent := ApplyProposal(p, q.user);
          ghost var mid := State();
          ApplyKeepsDefinitions(open, p, q.user, parent, mid, r);
          if r.Ok? {
            var d := definitions[a];
            definitions := definitions[a := d.(guard := d.guard.(consumed := d.guard.consumed + 1,
                                                                 lastSelfEdit := Some(q.stamp)))];
            assert State() == Counted(mid, a, q.stamp);
          }
        }
      }
      if p !in before.proposals { FiledAsAsked(before, q, parent, State()); }
    }

    /** Approves or rejects an open proposal; an approval that cannot be applied is rolled back. */
    method Decide(p: nat, approve: bool, approver: int) returns (r: Result<nat, ProposalError>, parent: Option<nat>)
      requires p in proposals ==> proposals[p].automation in definitions
      modifies this`versions, this`definitions, this`proposals, this`nextId
      ensures p !in old(proposals) ==> r == Err(NotFound) && State() == old(State())
      ensures p in old(proposals) && approve ==> Next(old(State()), Approve(p, approver), parent, State())
      ensures p in old(proposals) && !approve ==> Next(old(State()), Reject(p), parent, State())
      ensures p in old(proposals) ==> (r == Err(AlreadyDecided) <==> old(proposals)[p].status != Submitted)
      ensures r.Err? ==> State() == old(State())
      ensures r.Ok? && !approve ==>
                State() == old(State()).(proposals := old(proposals)[p := old(proposals)[p].(status := Rejected)])
      ensures p in old(proposals) && approve && old(proposals)[p].status == Submitted ==>
                (r.Ok? <==> Readable(old(proposals)[p].payload))
      ensures r.Ok? && approve ==>
                var a := old(proposals)[p].automation;
                && proposals == old(proposals)[p := old(proposals)[p].(status := Applied, applied := Some(r.value))]
                && a in definitions && definitions[a].head == Some(r.value) && r.value in versions
                && definitions[a].guard == old(definitions)[a].guard.(consumed := 0)
                && IsPayload(old(definitions)[a].live, old(proposals)[p].payload, old(nextId),
                             versions[r.value].snapshot)
    {
      hide IsPayload, WritesSome, Readable, Applies;
      parent := None;
      if p !in proposals { return Err(NotFound), parent; }
      if proposals[p].status != Submitted { return Err(AlreadyDecided), parent; }
      if !approve {
        proposals := proposals[p := proposals[p].(status := Rejected)];
        return Ok(p), parent;
      }
      var a := proposals[p].automation;
      var saved := (versions, definitions, proposals, nextId);
      ghost var before := State();
      var applied;
      applied, parent := ApplyProposal(p, Some(approver));
      ghost var mid := State();
      ApplyKeepsDefinitions(before, p, Some(approver), parent, mid, applied);
      match applied
      case Err(why) =>
        versions, definitions, proposals, nextId := saved.0, saved.1, saved.2, saved.3;
        r := Err(Refused(why));
      case Ok(v) =>
        definitions := definitions[a := definitions[a].(guard := definitions[a].guard.(consumed := 0))];
        assert State() == Reset(mid, a);
        r := Ok(v);
    }

    method WithdrawProposal(p: nat) returns (r: Result<nat, ProposalError>)
      modifies this`proposals
      ensures p !in old(proposals) ==> r == Err(NotFound) && State() == old(State())
      ensures p in old(proposals) ==> Next(old(State()), Withdraw(p), None, State())
      ensures r.Ok? <==> p in old(proposals) && old(proposals)[p].status == Submitted
      ensures proposals == if r.Ok? then old(proposals)[p := old(proposals)[p].(status := Withdrawn)]
                           else old(proposals)
    {
      if p !in proposals { return Err(NotFound); }
      if proposals[p].status != Submitted { return Err(AlreadyDecided); }
      proposals := proposals[p := proposals[p].(status := Withdrawn)];
      return Ok(p);
    }

    /** Binds a run to the head on its first dispatch, creating the head when there is none. */
    method BindRun(r: nat) returns (parent: Option<nat>)
      requires r in runs && runs[r].automation in definitions
      modifies this`versions, this`definitions, this`runs, this`nextId
      ensures Next(old(State()), Dispatch(r), parent, State())
      ensures old(runs)[r].version.Some? ==> State() == old(State())
      ensures var a := old(runs)[r].automation;
              old(runs)[r].version.None? ==>
                && a in definitions && definitions[a].head.Some?
                && runs == old(runs)[r := old(runs)[r].(version := definitions[a].head)]
                && (var head := old(definitions)[a].head;
                    if head.Some? && head.value in old(versions)
                    then definitions == old(definitions) && versions == old(versions)
                    else definitions[a].head.value in versions
                         && versions[definitions[a].head.value].snapshot == old(definitions)[a].live)
    {
      parent := None;
      if runs[r].version.Some? { return; }
      var a := runs[r].automation;
      var head := definitions[a].head;
      if head.Some? && head.value in versions {
        runs := runs[r := runs[r].(version := head)];
        return;
      }
      var v, inserted;
      v, inserted, parent := Snapshot(a);
      ghost var mid := State();
      runs := runs[r := runs[r].(version := Some(v))];
      assert State() == Bound(mid, r, v);
    }

    /** An edit through the API: settings, the replaced child lists, then a snapshot. */
    method Patch(a: nat, settings: map<Setting, int>, dropped: set<RowClass>, specs: seq<Row>)
      returns (v: nat, parent: Option<nat>)
      requires a in definitions
      modifies this`versions, this`definitions, this`nextId
      ensures Next(old(State()), Edit(a, settings, dropped, specs), parent, State())
      ensures a in definitions && definitions[a].head == Some(v) && v in versions
      ensures versions[v].snapshot == definitions[a].live
      ensures IsEdited(old(definitions)[a].live, settings, dropped, specs, old(nextId), definitions[a].live)
    {
      hide IsEdited, Kept, Inserted, Snapshots;
      ghost var before := State();
      RewriteIsEdited(definitions[a].live, settings, dropped, specs, nextId);
      Overwrite(a, settings, dropped);
      InsertRows(a, specs);
      var inserted;
      ghost var rewritten := State();
      assert rewritten ==
        WithLive(before, a, Rewrite(before.definitions[a].live, settings, dropped, specs, before.nextId),
                 before.nextId + |specs|);
      v, inserted, parent := Snapshot(a);
      assert Snapshots(rewritten, a, parent, State(), v);
    }

    /** Answering an approval with a wider scope writes the merged contract, and takes no snapshot. */
    method Rescope(a: nat, contract: int)
      requires a in definitions
      modifies this`definitions
      ensures var live := old(definitions)[a].live;
              Next(old(State()), Amend(map[a := live.(settings := live.settings[Contract := contract])]), None, State())
    {
      var d := definitions[a];
      var live := d.live.(settings := d.live.settings[Contract := contract]);
      definitions := definitions[a := d.(live := live)];
      assert State() == Amended(old(State()), map[a := live]);
    }

    /** The schedulers switch off every claimed trigger they cannot read, and take no snapshot. */
    method SwitchOff(malformed: seq<(nat, nat)>) returns (ghost lives: map<nat, Live>)
      requires forall k :: 0 <= k < |malformed| ==> IsTrigger(definitions, malformed[k])
      modifies this`definitions
      ensures Next(old(State()), Amend(lives), None, State())
      ensures OnlyTheseAreOff(old(definitions), definitions, malformed)
    {
      hide Amended, Amends, OnlyTheseAreOff;
      lives := map[];
      var n := 0;
      AmendNothing(State());
      while n < |malformed|
        invariant 0 <= n <= |malformed|
        invariant Amends(old(State()), lives) && State() == Amended(old(State()), lives)
        invariant OnlyTheseAreOff(old(definitions), definitions, malformed[..n])
      {
        var (a, id) := malformed[n];
        OneMoreIsOff(old(definitions), definitions, malformed[..n], (a, id));
        var d := definitions[a];
        var live := d.live.(rows := d.live.rows[id := d.live.rows[id].(active := false)]);
        AmendMore(old(State()), lives, a, live);
        definitions := definitions[a := d.(live := live)];
        lives := lives[a := live];
        assert malformed[..n + 1] == malformed[..n] + [malformed[n]];
        n := n + 1;
      }
      assert malformed[..n] == malformed;
    }
  }

  // Settings overlaid, the named lists replaced, and the other rows as they were.
  ghost predicate IsEdited(was: Live, settings: map<Setting, int>, dropped: set<RowClass>, specs: seq<Row>, next: nat,
                           now: Live) {
    && now.settings == was.settings + settings
    && (forall i :: 0 <= i < |specs| ==> RowAt(now.rows, next + i, specs[i]))
    && (forall id :: id in now.rows <==>
          next <= id < next + |specs| || (id in was.rows && !Listed(was.rows[id], dropped)))
    && (forall id :: id in now.rows && !(next <= id < next + |specs|) ==> now.rows[id] == was.rows[id])
  }

  predicate Listed(row: Row, dropped: set<RowClass>) {
    || (row.ActionRow? && Actions in dropped) || (row.TriggerRow? && Triggers in dropped)
    || (row.TargetRow? && Targets in dropped)
  }

  lemma RewriteIsEdited(was: Live, settings: map<Setting, int>, dropped: set<RowClass>, specs: seq<Row>, next: nat)
    ensures IsEdited(was, settings, dropped, specs, next, Rewrite(was, settings, dropped, specs, next))
  {
    assert forall row :: Listed(row, dropped) <==> ClassOf(row) in dropped;
  }

  predicate IsTrigger(definitions: map<nat, Definition>, at: (nat, nat)) {
    at.0 in definitions && at.1 in definitions[at.0].live.rows && definitions[at.0].live.rows[at.1].TriggerRow?
  }

  // The rows are the same ones, and exactly the listed triggers are switched off.
  predicate OnlyTheseAreOff(was: map<nat, Definition>, now: map<nat, Definition>, malformed: seq<(nat, nat)>) {
    forall a :: a in was ==> a in now && OffIn(a, was[a].live.rows, now[a].live.rows, malformed)
  }

  predicate OffIn(a: nat, was: map<nat, Row>, now: map<nat, Row>, malformed: seq<(nat, nat)>) {
    && now.Keys == was.Keys
    && forall id :: id in was ==> now[id] == SwitchedOff(was[id], (a, id) in malformed)
  }

  function SwitchedOff(row: Row, off: bool): Row {
    if off && row.TriggerRow? then row.(active := false) else row
  }

  lemma OneMoreIsOff(was: map<nat, Definition>, now: map<nat, Definition>, done: seq<(nat, nat)>, at: (nat, nat))
    requires OnlyTheseAreOff(was, now, done) && IsTrigger(was, at)
    ensures IsTrigger(now, at) && now[at.0].live.rows.Keys == was[at.0].live.rows.Keys
    ensures var d := now[at.0];
            var live := d.live.(rows := d.live.rows[at.1 := d.live.rows[at.1].(active := false)]);
            OnlyTheseAreOff(was, now[at.0 := d.(live := live)], done + [at])
  {
    assert OffIn(at.0, was[at.0].live.rows, now[at.0].live.rows, done);
    var d := now[at.0];
    var live := d.live.(rows := d.live.rows[at.1 := d.live.rows[at.1].(active := false)]);
    var next := now[at.0 := d.(live := live)];
    forall a | a in was ensures a in next && OffIn(a, was[a].live.rows, next[a].live.rows, done + [at]) {
      assert OffIn(a, was[a].live.rows, now[a].live.rows, done);
    }
  }

  lemma AmendNothing(db: Db)
    ensures Amends(db, map[]) && Amended(db, map[]) == db && OnlyTheseAreOff(db.definitions, db.definitions, [])
  {
    assert Amended(db, map[]).definitions == db.definitions;
  }

  // One more definition rewritten in the same transaction.
  lemma AmendMore(db: Db, lives: map<nat, Live>, a: nat, live: Live)
    requires Amends(db, lives) && a in db.definitions && live.rows.Keys <= db.definitions[a].live.rows.Keys
    ensures Amends(db, lives[a := live])
    ensures var mid := Amended(db, lives);
      && a in mid.definitions
      && Amended(db, lives[a := live]) == mid.(definitions := mid.definitions[a := mid.definitions[a].(live := live)])
  {
    var mid := Amended(db, lives);
    assert Amended(db, lives[a := live]).definitions == mid.definitions[a := mid.definitions[a].(live := live)];
  }

  lemma InsertedSnoc(rows: map<nat, Row>, next: nat, specs: seq<Row>, i: nat)
    requires i < |specs|
    ensures rows + Inserted(next, specs[..i + 1]) == (rows + Inserted(next, specs[..i]))[next + i := specs[i]]
  {
    assert specs[..i + 1][..i] == specs[..i];
  }

  lemma InsertedAppend(rows: map<nat, Row>, next: nat, s: seq<Row>, t: seq<Row>)
    ensures rows + Inserted(next, s) + Inserted(next + |s|, t) == rows + Inserted(next, s + t)
  {
    var first, second, both := Inserted(next, s), Inserted(next + |s|, t), Inserted(next, s + t);
    hide Inserted;
    var specs, split := s + t, next + |s|;
    assert both == first + second by {
      forall id | next <= id < split ensures both[id] == first[id] && id !in second {
        assert specs[id - next] == s[id - next];
      }
      forall id | split <= id < split + |t| ensures both[id] == second[id] {
        assert specs[id - next] == t[id - split];
      }
    }
    assert rows + first + second == rows + (first + second);
  }

  lemma LeadingStep(items: seq<Option<Row>>, i: nat)
    requires i < |items|
    ensures Leading(items[i..]) == if items[i].None? then [] else [items[i].value] + Leading(items[i + 1..])
  {
    assert items[i..][1..] == items[i + 1..];
  }

  lemma LeadingNone(items: seq<Option<Row>>)
    ensures Leading(items[|items|..]) == []
  {}

  lemma NoSettings(settings: map<Setting, int>)
    ensures settings + map[] == settings
  {}

  lemma NoneDropped(rows: map<nat, Row>, next: nat)
    ensures Kept(rows, {}) == rows && rows + Inserted(next, []) == rows
  {}

  lemma NothingReached(p: Payload)
    requires !p.tierParses
    ensures Dropped(p) == {} && Specs(p) == [] && !Parses(p)
  {}

  lemma EarlyThenAll(live: map<Setting, int>, settings: map<Setting, int>)
    ensures live + Early(settings) + settings == live + settings
  {}

  /** Dropping a class after inserting rows of other classes is dropping it first. */
  lemma KeptInserted(rows: map<nat, Row>, dropped: set<RowClass>, c: RowClass, next: nat, specs: seq<Row>)
    requires forall k :: 0 <= k < |specs| ==> ClassOf(specs[k]) != c
    ensures Kept(Kept(rows, dropped) + Inserted(next, specs), {c}) == Kept(rows, dropped + {c}) + Inserted(next, specs)
  {}

  lemma LeadingClass(p: Payload, c: RowClass)
    ensures forall k :: 0 <= k < |Leading(Items(p, c))| ==> ClassOf(Leading(Items(p, c))[k]) == c
  {
    hide Leading;
    LeadingIs(Items(p, c));
  }

  /** Two lists replaced one after the other. */
  lemma TriggerStage(rows: map<nat, Row>, p: Payload, next: nat)
    ensures var acts, trigs := Leading(Items(p, Actions)), Leading(Items(p, Triggers));
            Kept(Kept(rows, {Actions}) + Inserted(next, acts), {Triggers}) + Inserted(next + |acts|, trigs)
            == Kept(rows, {Actions, Triggers}) + Inserted(next, acts + trigs)
  {
    hide Kept, Inserted, Leading, Items;
    var acts, trigs := Leading(Items(p, Actions)), Leading(Items(p, Triggers));
    LeadingClass(p, Actions);
    KeptInserted(rows, {Actions}, Triggers, next, acts);
    assert {Actions} + {Triggers} == {Actions, Triggers};
    InsertedAppend(Kept(rows, {Actions, Triggers}), next, acts, trigs);
  }

  /** ... and the third after them. */
  lemma TargetStage(rows: map<nat, Row>, p: Payload, next: nat)
    ensures var both, targets := Leading(Items(p, Actions)) + Leading(Items(p, Triggers)), Leading(Items(p, Targets));
            Kept(Kept(rows, {Actions, Triggers}) + Inserted(next, both), {Targets}) + Inserted(next + |both|, targets)
            == Kept(rows, EVERY_CLASS) + Inserted(next, both + targets)
  {
    hide Kept, Inserted, Leading, Items;
    var both, targets := Leading(Items(p, Actions)) + Leading(Items(p, Triggers)), Leading(Items(p, Targets));
    LeadingClass(p, Actions);
    LeadingClass(p, Triggers);
    KeptInserted(rows, {Actions, Triggers}, Targets, next, both);
    assert {Actions, Triggers} + {Targets} == EVERY_CLASS;
    InsertedAppend(Kept(rows, EVERY_CLASS), next, both, targets);
  }

  lemma ApplyKeepsDefinitions(db: Db, p: nat, actor: Option<int>, parent: Option<nat>, after: Db,
                              r: Result<nat, ApplyError>)
    requires p in db.proposals && db.proposals[p].automation in db.definitions
    requires Applies(db, p, actor, parent, after, r)
    ensures after.definitions.Keys == db.definitions.Keys && after.runs == db.runs
  {}
}
