/** Seeding the contract templates: an upsert by name, all in one transaction. */
module TemplateSeed {
  import opened Prelude

  /** The three seeded columns; the contract document is opaque. */
  datatype Content = Content(description: Option<string>, category: string, contract: int)

  datatype Row = Row(name: string, content: Content, published: bool, createdBy: Option<int>)

  /** A seed entry; description and category may be missing. */
  datatype Spec = Spec(name: string, description: Option<string>, category: Option<string>, contract: int)

  function ContentOf(s: Spec): Content {
    Content(s.description, if s.category.Some? then s.category.value else "general", s.contract)
  }

  // The content is the entry's: its description or none, its category or the general one, and its contract.
  predicate Holds(c: Content, s: Spec) {
    && c.description == s.description && c.contract == s.contract
    && (s.category.Some? ==> c.category == s.category.value) && (s.category.None? ==> c.category == "general")
  }

  datatype Action = Created | Updated | Skipped

  datatype Counts = Counts(created: nat, updated: nat, skipped: nat)

  function Tally(c: Counts, a: Action): Counts {
    match a
    case Created => c.(created := c.created + 1)
    case Updated => c.(updated := c.updated + 1)
    case Skipped => c.(skipped := c.skipped + 1)
  }

  /** The table; `next` is an id no row has had. */
  datatype Table = Table(rows: map<nat, Row>, next: nat)

  ghost predicate Valid(t: Table) { forall id | id in t.rows :: id < t.next }

  predicate Named(t: Table, id: nat, name: string) { id in t.rows && t.rows[id].name == name }

  /** The name is not unique in the schema, so a lookup may find several rows. */
  ghost predicate Ambiguous(t: Table, name: string) {
    exists i, j :: i != j && Named(t, i, name) && Named(t, j, name)
  }

  ghost predicate Absent(t: Table, name: string) { forall i :: !Named(t, i, name) }

  function Inserted(t: Table, s: Spec): Table {
    Table(t.rows[t.next := Row(s.name, ContentOf(s), true, None)], t.next + 1)
  }

  function Overwritten(t: Table, id: nat, s: Spec): Table
    requires id in t.rows
  {
    t.(rows := t.rows[id := t.rows[id].(content := ContentOf(s), published := true)])
  }

  /** One upsert that finds at most one row. */
  ghost predicate Upserts(t: Table, s: Spec, after: Table, a: Action) {
    && !Ambiguous(t, s.name)
    && match a
       case Created => Absent(t, s.name) && after == Inserted(t, s)
       case Updated =>
         exists id :: Named(t, id, s.name) && t.rows[id].content != ContentOf(s) && after == Overwritten(t, id, s)
       case Skipped => after == t && exists id :: Named(t, id, s.name) && t.rows[id].content == ContentOf(s)
  }

  /** The upserts of a whole list, in order. */
  ghost predicate Runs(t: Table, specs: seq<Spec>, after: Table, counts: Counts) {
    if specs == [] then after == t && counts == Counts(0, 0, 0)
    else
      var init, s := specs[..|specs| - 1], specs[|specs| - 1];
      exists mid, c, a :: Runs(t, init, mid, c) && Upserts(mid, s, after, a) && counts == Tally(c, a)
  }

  lemma RunsSnoc(t: Table, init: seq<Spec>, s: Spec, mid: Table, c: Counts, after: Table, a: Action)
    requires Runs(t, init, mid, c) && Upserts(mid, s, after, a)
    ensures Runs(t, init + [s], after, Tally(c, a))
  {
    var specs := init + [s];
    assert specs[..|specs| - 1] == init && specs[|specs| - 1] == s;
    assert Runs(t, specs[..|specs| - 1], mid, c) && Upserts(mid, specs[|specs| - 1], after, a);
  }

  lemma RunsUnsnoc(t: Table, specs: seq<Spec>, after: Table, counts: Counts) returns (mid: Table, c: Counts, a: Action)
    requires Runs(t, specs, after, counts) && specs != []
    ensures Runs(t, specs[..|specs| - 1], mid, c) && Upserts(mid, specs[|specs| - 1], after, a) && counts == Tally(c, a)
  {
    var init, s := specs[..|specs| - 1], specs[|specs| - 1];
    mid, c, a :| Runs(t, init, mid, c) && Upserts(mid, s, after, a) && counts == Tally(c, a);
  }

  // ---------------------------------------------------------------------
  // What a list says about a name
  // ---------------------------------------------------------------------

  /** The content of the last entry with this name. */
  function Last(specs: seq<Spec>, name: string): Option<Content> {
    if specs == [] then None
    else if specs[|specs| - 1].name == name then Some(ContentOf(specs[|specs| - 1]))
    else Last(specs[..|specs| - 1], name)
  }

  /** Every entry with this name has the given content. */
  predicate AllAre(specs: seq<Spec>, name: string, c: Content) {
    forall k :: 0 <= k < |specs| && specs[k].name == name ==> ContentOf(specs[k]) == c
  }

  /** Entries with one name agree. Distinct names are a special case. */
  predicate Consistent(specs: seq<Spec>) {
    forall j, k :: 0 <= j < |specs| && 0 <= k < |specs| && specs[j].name == specs[k].name ==>
      ContentOf(specs[j]) == ContentOf(specs[k])
  }

  lemma {:induction false} LastIs(specs: seq<Spec>, name: string)
    ensures Last(specs, name).Some? <==> exists k :: 0 <= k < |specs| && specs[k].name == name
    ensures Last(specs, name).Some? ==> AllAre(specs, name, Last(specs, name).value) || !Consistent(specs)
    ensures Consistent(specs) ==>
              forall k :: 0 <= k < |specs| && specs[k].name == name ==> Last(specs, name) == Some(ContentOf(specs[k]))
  {
    if specs != [] {
      var init := specs[..|specs| - 1];
      LastIs(init, name);
      forall k | 0 <= k < |init| ensures init[k] == specs[k] {}
      if Last(init, name).Some? {
        var k :| 0 <= k < |init| && init[k].name == name;
        assert specs[k].name == name;
      }
    }
  }

  // ---------------------------------------------------------------------
  // What a successful run leaves behind
  // ---------------------------------------------------------------------

  /** A row that was there before: its content is the last entry's, everything else only as published. */
  ghost predicate KeptRow(before: Row, now: Row, specs: seq<Spec>) {
    var last := Last(specs, before.name);
    if last.None? || AllAre(specs, before.name, before.content) then now == before
    else now == before.(content := last.value, published := true)
  }

  ghost predicate NewRow(r: Row, specs: seq<Spec>) {
    Last(specs, r.name).Some? && r == Row(r.name, Last(specs, r.name).value, true, None)
  }

  ghost predicate Seeded(t: Table, specs: seq<Spec>, after: Table) {
    && t.next <= after.next && Valid(after)
    && (forall id | id in t.rows :: id in after.rows && KeptRow(t.rows[id], after.rows[id], specs))
    && (forall id | id in after.rows && id !in t.rows :: t.next <= id && NewRow(after.rows[id], specs))
    && (forall name | Last(specs, name).Some? :: !Ambiguous(after, name) && !Absent(after, name))
    && (forall name | Last(specs, name).None? :: Ambiguous(after, name) ==> Ambiguous(t, name))
  }

  lemma {:induction false} RunSeeds(t: Table, specs: seq<Spec>, after: Table, counts: Counts)
    requires Valid(t) && Runs(t, specs, after, counts)
    ensures Seeded(t, specs, after)
    ensures counts.created + counts.updated + counts.skipped == |specs|
    ensures forall k :: 0 <= k < |specs| ==> !Ambiguous(t, specs[k].name)
  {
    hide Seeded, Valid, Ambiguous, Upserts, Runs;
    if specs == [] {
      assert after == t && counts == Counts(0, 0, 0) by { RunsNothing(t, specs, after, counts); }
      NothingSeeded(t);
    } else {
      var init, s := specs[..|specs| - 1], specs[|specs| - 1];
      var mid, c, a := RunsUnsnoc(t, specs, after, counts);
      RunSeeds(t, init, mid, c);
      UpsertSeeds(t, init, s, mid, after, a);
      assert !Ambiguous(mid, s.name) by { UpsertNeedsOne(mid, s, after, a); }
      assert init + [s] == specs;
      AmbiguousEarlier(t, init, s, mid);
    }
  }

  lemma NothingSeeded(t: Table)
    requires Valid(t)
    ensures Seeded(t, [], t)
  {
    assert forall name :: Last([], name).None?;
  }

  lemma AmbiguousEarlier(t: Table, init: seq<Spec>, s: Spec, mid: Table)
    requires Seeded(t, init, mid) && !Ambiguous(mid, s.name)
    requires forall k :: 0 <= k < |init| ==> !Ambiguous(t, init[k].name)
    ensures forall k :: 0 <= k < |init + [s]| ==> !Ambiguous(t, (init + [s])[k].name)
  {
    AmbiguityStays(t, init, mid, s.name);
  }

  lemma RunsNothing(t: Table, specs: seq<Spec>, after: Table, counts: Counts)
    requires Runs(t, specs, after, counts) && specs == []
    ensures after == t && counts == Counts(0, 0, 0)
  {}

  lemma UpsertNeedsOne(t: Table, s: Spec, after: Table, a: Action)
    requires Upserts(t, s, after, a)
    ensures !Ambiguous(t, s.name)
  {}

  /** Two rows with one name stay two rows. */
  lemma AmbiguityStays(t: Table, specs: seq<Spec>, after: Table, name: string)
    requires Seeded(t, specs, after) && !Ambiguous(after, name)
    ensures !Ambiguous(t, name)
  {
    if Ambiguous(t, name) {
      var i, j :| i != j && Named(t, i, name) && Named(t, j, name);
      assert KeptRow(t.rows[i], after.rows[i], specs) && KeptRow(t.rows[j], after.rows[j], specs);
      assert Named(after, i, name) && Named(after, j, name);
    }
  }

  lemma LastSnoc(init: seq<Spec>, s: Spec, name: string)
    ensures Last(init + [s], name) == if s.name == name then Some(ContentOf(s)) else Last(init, name)
    ensures forall c :: AllAre(init + [s], name, c) <==> AllAre(init, name, c) && (s.name == name ==> ContentOf(s) == c)
  {
    var specs := init + [s];
    assert specs[..|specs| - 1] == init;
    forall c ensures AllAre(specs, name, c) <==> AllAre(init, name, c) && (s.name == name ==> ContentOf(s) == c) {
      assert forall k :: 0 <= k < |init| ==> specs[k] == init[k];
      assert specs[|init|] == s;
    }
  }

  lemma {:induction false} LastOfAll(specs: seq<Spec>, name: string, c: Content)
    requires AllAre(specs, name, c) && Last(specs, name).Some?
    ensures Last(specs, name) == Some(c)
  {
    if specs[|specs| - 1].name != name {
      LastOfAll(specs[..|specs| - 1], name, c);
    }
  }

  /** One more upsert carries the description of the table over to the longer list. */
  lemma UpsertSeeds(t: Table, init: seq<Spec>, s: Spec, mid: Table, after: Table, a: Action)
    requires Valid(t) && Seeded(t, init, mid) && Upserts(mid, s, after, a)
    ensures Seeded(t, init + [s], after)
  {
    var specs := init + [s];
    forall id | id in t.rows ensures id in after.rows && KeptRow(t.rows[id], after.rows[id], specs) {
      KeptRowNext(t, init, s, mid, after, a, id);
    }
    forall id | id in after.rows && id !in t.rows ensures t.next <= id && NewRow(after.rows[id], specs) {
      NewRowNext(t, init, s, mid, after, a, id);
    }
    forall name | Last(specs, name).Some? ensures !Ambiguous(after, name) && !Absent(after, name) {
      NameNext(t, init, s, mid, after, a, name);
    }
    forall name | Last(specs, name).None? ensures Ambiguous(after, name) ==> Ambiguous(t, name) {
      NameNext(t, init, s, mid, after, a, name);
    }
  }

  lemma OneRow(t: Table, name: string, i: nat, j: nat)
    requires !Ambiguous(t, name) && Named(t, i, name) && Named(t, j, name)
    ensures i == j
  {}

  /** How a single upsert changes single rows. */
  lemma UpsertRow(mid: Table, s: Spec, after: Table, a: Action, id: nat)
    requires Valid(mid) && Upserts(mid, s, after, a)
    ensures id in mid.rows ==>
              id in after.rows
              && after.rows[id] == if mid.rows[id].name == s.name && mid.rows[id].content != ContentOf(s)
                                   then mid.rows[id].(content := ContentOf(s), published := true) else mid.rows[id]
    ensures id !in mid.rows && id in after.rows ==>
              id == mid.next && after.rows[id] == Row(s.name, ContentOf(s), true, None) && Absent(mid, s.name)
  {
    if id in mid.rows && mid.rows[id].name == s.name { assert Named(mid, id, s.name); }
    if a == Updated {
      var it :| Named(mid, it, s.name) && mid.rows[it].content != ContentOf(s) && after == Overwritten(mid, it, s);
      if id in mid.rows && mid.rows[id].name == s.name && id != it { assert Ambiguous(mid, s.name); }
    } else if a == Skipped {
      var it :| Named(mid, it, s.name) && mid.rows[it].content == ContentOf(s);
      if id in mid.rows && mid.rows[id].name == s.name && id != it { assert Ambiguous(mid, s.name); }
    }
  }

  lemma KeptRowNext(t: Table, init: seq<Spec>, s: Spec, mid: Table, after: Table, a: Action, id: nat)
    requires Seeded(t, init, mid) && Upserts(mid, s, after, a) && id in t.rows
    ensures id in after.rows && KeptRow(t.rows[id], after.rows[id], init + [s])
  {
    var name := t.rows[id].name;
    LastSnoc(init, s, name);
    UpsertRow(mid, s, after, a, id);
    assert KeptRow(t.rows[id], mid.rows[id], init);
    if Last(init, name).Some? && AllAre(init, name, t.rows[id].content) { LastOfAll(init, name, t.rows[id].content); }
    if Last(init, name).None? { LastIs(init, name); }
  }

  lemma NewRowNext(t: Table, init: seq<Spec>, s: Spec, mid: Table, after: Table, a: Action, id: nat)
    requires Seeded(t, init, mid) && Upserts(mid, s, after, a) && id in after.rows && id !in t.rows
    ensures t.next <= id && NewRow(after.rows[id], init + [s])
  {
    UpsertRow(mid, s, after, a, id);
    LastSnoc(init, s, after.rows[id].name);
    if id in mid.rows { assert NewRow(mid.rows[id], init); }
  }

  lemma NameNext(t: Table, init: seq<Spec>, s: Spec, mid: Table, after: Table, a: Action, name: string)
    requires Seeded(t, init, mid) && Upserts(mid, s, after, a)
    ensures Last(init + [s], name).Some? ==> !Ambiguous(after, name) && !Absent(after, name)
    ensures Last(init + [s], name).None? ==> (Ambiguous(after, name) ==> Ambiguous(t, name))
  {
    LastSnoc(init, s, name);
    forall id
      ensures Named(after, id, name) <==> Named(mid, id, name) || (a == Created && id == mid.next && name == s.name)
    {
      UpsertRow(mid, s, after, a, id);
      if a == Created && id == mid.next { assert after.rows[id].name == s.name; }
    }
    if Ambiguous(after, name) {
      var i, j :| i != j && Named(after, i, name) && Named(after, j, name);
      assert Named(mid, i, name) || Named(mid, j, name);
      assert Ambiguous(mid, name);
    }
    if name == s.name {
      if a == Created { assert Named(after, mid.next, name); }
      else { var id :| Named(mid, id, name); assert Named(after, id, name); }
    } else if Last(init, name).Some? {
      var id :| Named(mid, id, name);
      assert Named(after, id, name);
    }
  }

  // ---------------------------------------------------------------------
  // When it fails, and running it again
  // ---------------------------------------------------------------------

  /** The list goes through exactly when no name in it has two rows to begin with. */
  lemma {:induction false} SucceedsIff(t: Table, specs: seq<Spec>)
    requires Valid(t)
    ensures (exists after, counts :: Runs(t, specs, after, counts))
            <==> forall k :: 0 <= k < |specs| ==> !Ambiguous(t, specs[k].name)
  {
    if after, counts :| Runs(t, specs, after, counts) {
      RunSeeds(t, specs, after, counts);
    }
    if forall k :: 0 <= k < |specs| ==> !Ambiguous(t, specs[k].name) {
      if specs == [] {
        assert Runs(t, specs, t, Counts(0, 0, 0));
      } else {
        var init, s := specs[..|specs| - 1], specs[|specs| - 1];
        assert forall k :: 0 <= k < |init| ==> init[k] == specs[k];
        SucceedsIff(t, init);
        var mid, c :| Runs(t, init, mid, c);
        RunSeeds(t, init, mid, c);
        assert !Ambiguous(mid, s.name) by {
          assert Last(init, s.name).None? ==> (Ambiguous(mid, s.name) ==> Ambiguous(t, s.name));
        }
        var after, a := SomeUpsert(mid, s);
        assert Runs(t, specs, after, Tally(c, a));
      }
    }
  }

  lemma SomeUpsert(t: Table, s: Spec) returns (after: Table, a: Action)
    requires !Ambiguous(t, s.name)
    ensures Upserts(t, s, after, a)
  {
    if id :| Named(t, id, s.name) {
      if t.rows[id].content == ContentOf(s) { after, a := t, Skipped; }
      else { after, a := Overwritten(t, id, s), Updated; }
    } else {
      after, a := Inserted(t, s), Created;
    }
  }

  /** With agreeing entries, each seeded name ends as one row with the content the list gives it. */
  lemma SeededContent(t: Table, specs: seq<Spec>, after: Table, counts: Counts, k: nat)
    requires Valid(t) && Runs(t, specs, after, counts) && Consistent(specs) && k < |specs|
    ensures exists id :: Named(after, id, specs[k].name)
                         && after.rows[id].content == ContentOf(specs[k]) && Holds(after.rows[id].content, specs[k])
                         && forall j :: Named(after, j, specs[k].name) ==> j == id
  {
    RunSeeds(t, specs, after, counts);
    var name := specs[k].name;
    LastIs(specs, name);
    var id :| Named(after, id, name);
    if id in t.rows {
      assert KeptRow(t.rows[id], after.rows[id], specs);
      if AllAre(specs, name, t.rows[id].content) { assert ContentOf(specs[k]) == t.rows[id].content; }
    } else {
      assert NewRow(after.rows[id], specs);
    }
    forall j | Named(after, j, name) ensures j == id { OneRow(after, name, j, id); }
  }

  /** The entry has exactly one row, with the entry's content. */
  ghost predicate Placed(t: Table, s: Spec) {
    !Ambiguous(t, s.name) && exists id :: Named(t, id, s.name) && t.rows[id].content == ContentOf(s)
  }

  ghost predicate InPlace(t: Table, specs: seq<Spec>) {
    forall k :: 0 <= k < |specs| ==> Placed(t, specs[k])
  }

  lemma SkippedIffPlaced(t: Table, s: Spec, after: Table, a: Action)
    requires Upserts(t, s, after, a)
    ensures a == Skipped <==> Placed(t, s)
    ensures a == Skipped ==> after == t
  {
    if Placed(t, s) {
      var id :| Named(t, id, s.name) && t.rows[id].content == ContentOf(s);
      forall it | Named(t, it, s.name) ensures it == id { OneRow(t, s.name, it, id); }
    }
  }

  lemma {:induction false} RunInPlace(t: Table, specs: seq<Spec>, after: Table, counts: Counts)
    requires Runs(t, specs, after, counts) && InPlace(t, specs)
    ensures after == t && counts == Counts(0, 0, |specs|)
  {
    if specs != [] {
      hide Upserts, Placed, Runs;
      var init, s := specs[..|specs| - 1], specs[|specs| - 1];
      var mid, c, a := RunsUnsnoc(t, specs, after, counts);
      assert forall k :: 0 <= k < |init| ==> init[k] == specs[k];
      RunInPlace(t, init, mid, c);
      SkippedIffPlaced(t, s, after, a);
    }
  }

  /** Running the seed again skips every entry and changes nothing. */
  lemma SecondRunSkips(t: Table, specs: seq<Spec>, once: Table, c0: Counts, twice: Table, c1: Counts)
    requires Valid(t) && Consistent(specs) && Runs(t, specs, once, c0) && Runs(once, specs, twice, c1)
    ensures twice == once && c1 == Counts(0, 0, |specs|)
  {
    RunSeeds(t, specs, once, c0);
    forall k | 0 <= k < |specs| ensures Placed(once, specs[k]) {
      SeededContent(t, specs, once, c0, k);
      LastIs(specs, specs[k].name);
    }
    RunInPlace(once, specs, twice, c1);
  }

  /** If the second run skips everything, the entries of each name agree. */
  lemma SkippingNeedsAgreement(t: Table, specs: seq<Spec>, after: Table, counts: Counts)
    requires Valid(t) && Runs(t, specs, after, counts) && counts.skipped == |specs|
    ensures Consistent(specs)
  {
    AllSkipped(t, specs, after, counts);
    forall j, k | 0 <= j < |specs| && 0 <= k < |specs| && specs[j].name == specs[k].name
      ensures ContentOf(specs[j]) == ContentOf(specs[k])
    {
      assert Placed(t, specs[j]) && Placed(t, specs[k]);
      var x :| Named(t, x, specs[j].name) && t.rows[x].content == ContentOf(specs[j]);
      var y :| Named(t, y, specs[k].name) && t.rows[y].content == ContentOf(specs[k]);
      OneRow(t, specs[j].name, x, y);
    }
  }

  lemma {:induction false} AllSkipped(t: Table, specs: seq<Spec>, after: Table, counts: Counts)
    requires Valid(t) && Runs(t, specs, after, counts) && counts.skipped == |specs|
    ensures after == t && InPlace(t, specs)
  {
    if specs != [] {
      hide Upserts, Placed, Seeded, Valid, Ambiguous, Runs;
      var init, s := specs[..|specs| - 1], specs[|specs| - 1];
      var mid, c, a := RunsUnsnoc(t, specs, after, counts);
      assert c.created + c.updated + c.skipped == |init| by { RunSeeds(t, init, mid, c); }
      AllSkipped(t, init, mid, c);
      SkippedIffPlaced(mid, s, after, a);
      forall k | 0 <= k < |specs| ensures Placed(t, specs[k]) {
        if k < |init| { assert specs[k] == init[k]; }
      }
    }
  }

  /** Each created row is counted once: the table has grown by just that many. */
  lemma {:induction false} CreatedRowsAreNew(t: Table, specs: seq<Spec>, after: Table, counts: Counts)
    requires Valid(t) && Runs(t, specs, after, counts)
    ensures Valid(after) && |after.rows| == |t.rows| + counts.created && t.rows.Keys <= after.rows.Keys
    ensures counts.created + counts.updated + counts.skipped == |specs|
  {
    hide Runs, Upserts, Valid;
    if specs != [] {
      var mid, c, a := RunsUnsnoc(t, specs, after, counts);
      CreatedRowsAreNew(t, specs[..|specs| - 1], mid, c);
      UpsertGrows(mid, specs[|specs| - 1], after, a);
    } else {
      RunsNothing(t, specs, after, counts);
    }
  }

  lemma UpsertGrows(t: Table, s: Spec, after: Table, a: Action)
    requires Valid(t) && Upserts(t, s, after, a)
    ensures Valid(after) && t.rows.Keys <= after.rows.Keys
    ensures |after.rows| == |t.rows| + if a.Created? then 1 else 0
  {
    assert after.rows.Keys == if a.Created? then t.rows.Keys + {t.next} else t.rows.Keys;
    assert |after.rows| == |after.rows.Keys| && |t.rows| == |t.rows.Keys|;
  }

  // ---------------------------------------------------------------------
  // The code
  // ---------------------------------------------------------------------

  class Templates {
    var rows: map<nat, Row>
    var next: nat

    constructor (t: Table)
      ensures State() == t
    {
      rows, next := t.rows, t.next;
    }

    function State(): Table
      reads this
    {
      Table(rows, next)
    }

    /** None when the lookup finds more than one row. */
    method SeedOne(s: Spec) returns (a: Option<Action>)
      modifies this
      ensures a.None? <==> Ambiguous(old(State()), s.name)
      ensures a.None? ==> State() == old(State())
      ensures a.Some? ==> Upserts(old(State()), s, State(), a.value)
      ensures a.Some? && Valid(old(State())) ==>
                exists id :: && id in rows && rows[id].name == s.name && Holds(rows[id].content, s)
                             && (a == Some(Created) <==> id !in old(rows))
                             && (a == Some(Skipped) <==> rows == old(rows))
                             && (a != Some(Skipped) ==> rows[id].published)
    {
      if id :| id in rows && rows[id].name == s.name {
        assert Named(State(), id, s.name);
        if other :| other in rows && rows[other].name == s.name && other != id {
          assert Named(State(), other, s.name);
          return None;
        }
        assert forall i :: Named(State(), i, s.name) ==> i == id;
        if rows[id].content == ContentOf(s) { return Some(Skipped); }
        rows := rows[id := rows[id].(content := ContentOf(s), published := true)];
        assert State() == Overwritten(old(State()), id, s);
        return Some(Updated);
      }
      assert Absent(State(), s.name) by {
        forall i ensures !Named(State(), i, s.name) {}
      }
      rows := rows[next := Row(s.name, ContentOf(s), true, None)];
      assert Valid(old(State())) ==> next !in old(rows) && next in rows;
      next := next + 1;
      return Some(Created);
    }

    /** Commits only when every entry went through; otherwise everything is rolled back. */
    method Seed(specs: seq<Spec>) returns (exit: int, counts: Counts)
      requires Valid(State())
      modifies this
      ensures exit == 0 ==> Runs(old(State()), specs, State(), counts)
      ensures exit != 0 ==> exit == 1 && State() == old(State())
      ensures exit == 0 <==> forall k :: 0 <= k < |specs| ==> !Ambiguous(old(State()), specs[k].name)
    {
      var saved := State();
      counts := Counts(0, 0, 0);
      for i := 0 to |specs|
        invariant Runs(old(State()), specs[..i], State(), counts)
      {
        ghost var mid, c := State(), counts;
        var a := SeedOne(specs[i]);
        if a.None? {
          FailureIsForeseen(saved, specs, i, mid, c);
          rows, next := saved.rows, saved.next;
          return 1, counts;
        }
        counts := Tally(counts, a.value);
        RunsSnoc(saved, specs[..i], specs[i], mid, c, State(), a.value);
        assert specs[..i + 1] == specs[..i] + [specs[i]];
      }
      assert specs[..|specs|] == specs;
      RunSeeds(saved, specs, State(), counts);
      exit := 0;
    }
  }

  /** An entry can only fail on a name that had two rows before the run. */
  lemma FailureIsForeseen(t: Table, specs: seq<Spec>, i: nat, mid: Table, c: Counts)
    requires Valid(t) && i < |specs| && Runs(t, specs[..i], mid, c) && Ambiguous(mid, specs[i].name)
    ensures Ambiguous(t, specs[i].name)
  {
    RunSeeds(t, specs[..i], mid, c);
    assert Last(specs[..i], specs[i].name).None?;
  }
}
