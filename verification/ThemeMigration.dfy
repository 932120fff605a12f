/**
The migration plan as it runs: one transaction over the two tables and the constraint catalogue,
statement by statement, with the integrity gates that may abort it and the rollback that always
follows a dry run.
*/
module ThemeMigration {
  import opened Prelude
  import opened ThemeTables

  datatype ConstraintId = OnThemes(name: string) | OnLibrary(name: string) | Elsewhere(table: string, name: string)

  const LIBRARY_FK := OnLibrary("user_library_themes_theme_id_fkey")
  const LIBRARY_UNIQUE := OnLibrary("uq_user_library_theme_team")
  const THEMES_PKEY := OnThemes("themes_pkey")
  const PARENT_FK_OLD := OnThemes("fk_themes_parent_theme_id")
  const PARENT_FK := OnThemes("themes_parent_theme_id_fkey")

  // How a run ends: finished, stopped by one of the script's own assertions, or by a database error.
  datatype Outcome = Completed | CheckFailed | SqlError

  // ---------------------------------------------------------------- rows along the way

  function MapRows(t: Table, g: Row -> Row): (u: Table)
    ensures |u| == |t| && forall i :: 0 <= i < |t| ==> u[i] == g(t[i])
  {
    seq(|t|, i requires 0 <= i < |t| => g(t[i]))
  }

  // ADD COLUMN uuid ... DEFAULT gen_random_uuid(): every row gets its own value.
  function AddUuids(t: Table, uuids: seq<nat>): (u: Table)
    requires |uuids| == |t|
    ensures |u| == |t| && forall i :: 0 <= i < |t| ==> u[i] == t[i][Uuid := Guid(uuids[i])]
  {
    seq(|t|, i requires 0 <= i < |t| => t[i][Uuid := Guid(uuids[i])])
  }

  function CountWhere(t: Table, p: Row -> bool): nat {
    if t == [] then 0 else (if p(t[0]) then 1 else 0) + CountWhere(t[1..], p)
  }

  /** Every row is counted once: those that pass the test and those that fail it are all of them. */
  lemma {:induction false} CountsAddUp(t: Table, p: Row -> bool)
    ensures CountWhere(t, p) + CountWhere(t, r => !p(r)) == |t|
  {
    if t != [] { CountsAddUp(t[1..], p); }
  }

  lemma {:induction false} CountZeroIff(t: Table, p: Row -> bool)
    ensures CountWhere(t, p) == 0 <==> forall i :: 0 <= i < |t| ==> !p(t[i])
  {
    if t != [] {
      CountZeroIff(t[1..], p);
      assert forall i :: 0 <= i < |t[1..]| ==> t[1..][i] == t[i + 1];
    }
  }

  const HAS_PARENT: Row -> bool := r => Col(r, ParentThemeId) != Null
  const HAS_PARENT_UUID: Row -> bool := r => Col(r, ParentThemeUuid) != Null
  const ORPHAN_PARENT: Row -> bool := r => Col(r, ParentThemeId) != Null && Col(r, ParentThemeUuid) == Null
  const ORPHAN_ENTRY: Row -> bool := r => Col(r, ThemeUuid) == Null

  /** The third count check is the second one said again: backfilled links are the links minus the orphans. */
  lemma {:induction false} ThirdCheckFollows(t: Table)
    requires forall i :: 0 <= i < |t| && Col(t[i], ParentThemeId) == Null ==> Col(t[i], ParentThemeUuid) == Null
    ensures CountWhere(t, HAS_PARENT_UUID) + CountWhere(t, ORPHAN_PARENT) == CountWhere(t, HAS_PARENT)
  {
    if t != [] {
      assert forall i :: 0 <= i < |t[1..]| ==> t[1..][i] == t[i + 1];
      ThirdCheckFollows(t[1..]);
    }
  }

  lemma {:induction false} CountFrame(t: Table, u: Table, p: Row -> bool)
    requires |t| == |u| && forall i :: 0 <= i < |t| ==> p(t[i]) == p(u[i])
    ensures CountWhere(t, p) == CountWhere(u, p)
  {
    if t != [] {
      assert forall i :: 0 <= i < |t[1..]| ==> t[1..][i] == t[i + 1] && u[1..][i] == u[i + 1];
      CountFrame(t[1..], u[1..], p);
    }
  }

  // `t` is the legacy table `was` with both work columns filled in.
  predicate Backfilled(was: Table, uuids: seq<nat>, t: Table)
    requires |uuids| == |was|
  {
    && |t| == |was|
    && forall i :: 0 <= i < |t| ==>
         t[i] == was[i][Uuid := Guid(uuids[i])][ParentThemeUuid := Rename(was, uuids, Col(was[i], ParentThemeId))]
  }

  predicate BackfilledLibrary(themes: Table, uuids: seq<nat>, was: Table, t: Table)
    requires |uuids| == |themes|
  {
    && |t| == |was|
    && forall i :: 0 <= i < |t| ==> t[i] == was[i][ThemeUuid := Rename(themes, uuids, Col(was[i], ThemeId))]
  }

  lemma {:induction false} LookupIsRename(was: Table, uuids: seq<nat>, t: Table, v: Value)
    requires |uuids| == |was| == |t|
    requires forall i :: 0 <= i < |t| ==> Col(t[i], Id) == Col(was[i], Id) && Col(t[i], Uuid) == Guid(uuids[i])
    ensures Lookup(t, v, Uuid) == Rename(was, uuids, v)
  {
    if t != [] {
      assert forall i :: 0 <= i < |t[1..]| ==>
        t[1..][i] == t[i + 1] && was[1..][i] == was[i + 1] && uuids[1..][i] == uuids[i + 1];
      LookupIsRename(was[1..], uuids[1..], t[1..], v);
    }
  }

  // ---------------------------------------------------------------- constraint checks

  predicate PrimaryKeyHolds(t: Table) {
    (forall i :: 0 <= i < |t| ==> Col(t[i], Id) != Null) && UniqueIds(t)
  }

  predicate NotNull(t: Table, c: Column) {
    forall i :: 0 <= i < |t| ==> Col(t[i], c) != Null
  }

  // The data type of a column after the migration: what it holds is uuids.
  predicate HoldsUuids(t: Table, c: Column) {
    forall i :: 0 <= i < |t| ==> Col(t[i], c) == Null || Col(t[i], c).Guid?
  }

  // ---------------------------------------------------------------- what the plan needs

  /** The catalogue the plan can take apart and rebuild: the three named constraints are there, at most one
      of the two parent names is taken, and nothing else refers to the themes key. */
  predicate CatalogueFits(constraints: set<ConstraintId>, fks: set<ConstraintId>) {
    && LIBRARY_FK in constraints && LIBRARY_UNIQUE in constraints && THEMES_PKEY in constraints
    && !(PARENT_FK_OLD in constraints && PARENT_FK in constraints)
    && fks <= {LIBRARY_FK, PARENT_FK_OLD, PARENT_FK}
  }

  function Verdict(themes: Table, library: Table, constraints: set<ConstraintId>, fks: set<ConstraintId>,
                   uuids: seq<nat>): Outcome
  {
    if !EntriesResolve(themes, library) || !ParentsResolve(themes) then CheckFailed
    else if !CatalogueFits(constraints, fks) || !Distinct(uuids) then SqlError
    else Completed
  }

  class Database {
    var themes: Table
    var library: Table
    var constraints: set<ConstraintId>
    // The foreign keys among `constraints` that refer to the primary key of `themes`.
    var fks: set<ConstraintId>

    constructor (themes: Table, library: Table, constraints: set<ConstraintId>, fks: set<ConstraintId>)
      ensures this.themes == themes && this.library == library
      ensures this.constraints == constraints && this.fks == fks
    {
      this.themes, this.library, this.constraints, this.fks := themes, library, constraints, fks;
    }

    // Steps 2 and 3: new columns, then both backfills.
    method Backfill(uuids: seq<nat>)
      requires |uuids| == |themes| && Legacy(themes, library)
      modifies this`themes, this`library
      ensures Backfilled(old(themes), uuids, themes)
      ensures BackfilledLibrary(old(themes), uuids, old(library), library)
    {
      ghost var themes0, library0 := themes, library;
      themes := AddUuids(themes, uuids);
      themes := MapRows(themes, r => r[ParentThemeUuid := Null]);
      library := MapRows(library, r => r[ThemeUuid := Null]);
      forall v ensures Lookup(themes, v, Uuid) == Rename(themes0, uuids, v) {
        LookupIsRename(themes0, uuids, themes, v);
      }
      var snapshot := themes;
      library := MapRows(library, r => r[ThemeUuid := Lookup(snapshot, Col(r, ThemeId), Uuid)]);
      themes := MapRows(themes, r => if Col(r, ParentThemeId) != Null
                                     then r[ParentThemeUuid := Lookup(snapshot, Col(r, ParentThemeId), Uuid)] else r);
      RenameMisses(themes0, uuids, Null);
    }

    // Step 4. The row-count checks cannot fail; the two orphan checks can; the last one follows.
    method Gates(ghost themes0: Table, ghost library0: Table, uuids: seq<nat>, parentLinkCount: nat) returns (ok: bool)
      requires Legacy(themes0, library0) && |uuids| == |themes0|
      requires Backfilled(themes0, uuids, themes) && BackfilledLibrary(themes0, uuids, library0, library)
      requires parentLinkCount == CountWhere(themes0, HAS_PARENT)
      ensures ok <==> EntriesResolve(themes0, library0) && ParentsResolve(themes0)
    {
      GateMeaning(themes0, library0, uuids, themes, library);
      CountZeroIff(library, ORPHAN_ENTRY);
      CountZeroIff(themes, ORPHAN_PARENT);
      var orphanEntries := CountWhere(library, ORPHAN_ENTRY);
      if orphanEntries != 0 {
        return false;
      }
      var orphanParents := CountWhere(themes, ORPHAN_PARENT);
      if orphanParents != 0 {
        return false;
      }
      RenameMisses(themes0, uuids, Null);
      ThirdCheckFollows(themes);
      CountFrame(themes0, themes, HAS_PARENT);
      assert CountWhere(themes, HAS_PARENT_UUID) == parentLinkCount;
      return true;
    }

    // Step 5, first half. Postgres refuses to drop a primary key that a foreign key still uses.
    method DropOldConstraints() returns (ok: bool)
      requires CatalogueValid(constraints, fks)
      modifies this`constraints, this`fks
      ensures ok <==> {LIBRARY_FK, LIBRARY_UNIQUE, THEMES_PKEY} <= old(constraints)
                      && old(fks) <= {LIBRARY_FK} + ParentToDrop(old(constraints))
      ensures ok ==> fks == {}
      ensures ok ==>
              constraints ==
                old(constraints) - {LIBRARY_FK, LIBRARY_UNIQUE, THEMES_PKEY} - ParentToDrop(old(constraints))
    {
      if LIBRARY_FK !in constraints {
        return false;
      }
      constraints, fks := constraints - {LIBRARY_FK}, fks - {LIBRARY_FK};
      DropParentFk();
      if LIBRARY_UNIQUE !in constraints {
        return false;
      }
      constraints := constraints - {LIBRARY_UNIQUE};
      if THEMES_PKEY !in constraints || fks != {} {
        return false;
      }
      constraints := constraints - {THEMES_PKEY};
      return true;
    }

    // Drops whichever of the two known names exists, the first one found; neither is an error.
    method DropParentFk()
      modifies this`constraints, this`fks
      ensures constraints == old(constraints) - ParentToDrop(old(constraints))
      ensures fks == old(fks) - ParentToDrop(old(constraints))
    {
      var names := [PARENT_FK_OLD, PARENT_FK];
      var i := 0;
      while i < |names|
        invariant 0 <= i <= |names| && constraints == old(constraints) && fks == old(fks)
        invariant forall j :: 0 <= j < i ==> names[j] !in constraints
      {
        if names[i] in constraints {
          assert i == 0 || (i == 1 && names[0] !in constraints);
          assert ParentToDrop(constraints) == {names[i]};
          constraints, fks := constraints - {names[i]}, fks - {names[i]};
          return;
        }
        i := i + 1;
      }
      assert names[0] !in constraints && names[1] !in constraints;
    }

    // Step 5, second half: the uuid columns take over the names, and every constraint comes back.
    method SwapKeys(ghost themes0: Table, ghost library0: Table, ghost uuids: seq<nat>) returns (ok: bool)
      requires Legacy(themes0, library0) && |uuids| == |themes0|
      requires EntriesResolve(themes0, library0) && ParentsResolve(themes0)
      requires Backfilled(themes0, uuids, themes) && BackfilledLibrary(themes0, uuids, library0, library)
      requires fks == {} && {LIBRARY_FK, LIBRARY_UNIQUE, THEMES_PKEY} !! constraints
      modifies this
      ensures ok <==> Distinct(uuids) && PARENT_FK !in old(constraints)
      ensures ok ==> constraints == old(constraints) + {LIBRARY_FK, LIBRARY_UNIQUE, THEMES_PKEY, PARENT_FK}
      ensures ok ==> fks == {LIBRARY_FK, PARENT_FK}
      ensures ok ==> themes == Swapped(themes0, Renaming(themes0, uuids))
      ensures ok ==> library == SwappedLibrary(library0, Renaming(themes0, uuids))
    {
      hide Swapped, SwappedLibrary, Renaming, Backfilled, BackfilledLibrary, EntriesResolve, ParentsResolve, NotNull,
        NoClash;
      ok := SwapThemes(themes0, library0, uuids);
      if !ok {
        return false;
      }
      ok := SwapLibrary(themes0, library0, uuids);
    }

    // The themes half: primary key first, then the parent link and its foreign key.
    method SwapThemes(ghost themes0: Table, ghost library0: Table, ghost uuids: seq<nat>) returns (ok: bool)
      requires Legacy(themes0, library0) && |uuids| == |themes0|
      requires EntriesResolve(themes0, library0) && ParentsResolve(themes0)
      requires Backfilled(themes0, uuids, themes)
      requires fks == {} && THEMES_PKEY !in constraints
      modifies this`themes, this`constraints, this`fks
      ensures ok <==> Distinct(uuids) && PARENT_FK !in old(constraints)
      ensures ok ==> constraints == old(constraints) + {THEMES_PKEY, PARENT_FK} && fks == {PARENT_FK}
      ensures ok ==> themes == Swapped(themes0, Renaming(themes0, uuids))
    {
      themes := MapRows(themes, r => RenameColumn(r, Id, IdLegacy));
      themes := MapRows(themes, r => RenameColumn(r, Uuid, Id));
      PrimaryKeyIff(themes0, uuids, themes);
      if !PrimaryKeyHolds(themes) {
        return false;
      }
      constraints := constraints + {THEMES_PKEY};
      themes := MapRows(themes, r => RenameColumn(r, ParentThemeId, ParentThemeIdLegacy));
      themes := MapRows(themes, r => RenameColumn(r, ParentThemeUuid, ParentThemeId));
      SwapIsSwapped(themes0, uuids, themes);
      ReferencesHold(themes0, library0, uuids);
      if PARENT_FK in constraints {
        return false;
      }
      assert ParentsResolve(themes);
      constraints, fks := constraints + {PARENT_FK}, fks + {PARENT_FK};
      return true;
    }

    // The library half: NOT NULL, the foreign key to the new themes key, and the three-column UNIQUE.
    method SwapLibrary(ghost themes0: Table, ghost library0: Table, ghost uuids: seq<nat>) returns (ok: bool)
      requires Legacy(themes0, library0) && |uuids| == |themes0| && Distinct(uuids)
      requires EntriesResolve(themes0, library0) && ParentsResolve(themes0)
      requires BackfilledLibrary(themes0, uuids, library0, library)
      requires themes == Swapped(themes0, Renaming(themes0, uuids))
      modifies this`library, this`constraints, this`fks
      ensures ok && constraints == old(constraints) + {LIBRARY_FK, LIBRARY_UNIQUE} && fks == old(fks) + {LIBRARY_FK}
      ensures library == SwappedLibrary(library0, Renaming(themes0, uuids))
    {
      library := MapRows(library, r => RenameColumn(r, ThemeId, ThemeIdLegacy));
      library := MapRows(library, r => RenameColumn(r, ThemeUuid, ThemeId));
      SwapIsSwappedLibrary(themes0, library0, uuids, library);
      ReferencesHold(themes0, library0, uuids);
      assert NotNull(library, ThemeId);
      assert EntriesResolve(themes, library);
      constraints, fks := constraints + {LIBRARY_FK}, fks + {LIBRARY_FK};
      assert NoClash(library);
      constraints := constraints + {LIBRARY_UNIQUE};
      return true;
    }

    // Step 6.
    method DropLegacyColumns(ghost themes0: Table, ghost library0: Table, ghost f: Value -> Value)
      requires Legacy(themes0, library0)
      requires themes == Swapped(themes0, f) && library == SwappedLibrary(library0, f)
      modifies this`themes, this`library
      ensures themes == RekeyThemes(themes0, f) && library == RekeyLibrary(library0, f)
    {
      themes := MapRows(themes, (r: Row) => r - {IdLegacy});
      themes := MapRows(themes, (r: Row) => r - {ParentThemeIdLegacy});
      library := MapRows(library, (r: Row) => r - {ThemeIdLegacy});
      forall i | 0 <= i < |themes| ensures themes[i] == RekeyTheme(themes0[i], f) {
        assert LegacyTheme(themes0[i]);
      }
      forall i | 0 <= i < |library| ensures library[i] == RekeyEntry(library0[i], f) {
        assert LegacyEntry(library0[i]);
      }
    }

    // Step 7: no row and no parent link is lost, and the three columns hold uuids.
    method FinalChecks(themesBefore: nat, libraryBefore: nat, parentLinkCount: nat) returns (ok: bool)
      ensures ok <==> FinalState(themes, library, themesBefore, libraryBefore, parentLinkCount)
    {
      if |themes| != themesBefore || |library| != libraryBefore {
        return false;
      }
      var finalParents := CountWhere(themes, HAS_PARENT);
      if finalParents != parentLinkCount {
        return false;
      }
      return HoldsUuids(themes, Id) && HoldsUuids(themes, ParentThemeId) && HoldsUuids(library, ThemeId);
    }

    /** The whole plan. It completes exactly when every reference resolves, the fresh uuids are distinct and the
        catalogue fits; it stops at its own gates exactly when some reference does not resolve; and when it
        completes, the tables are the re-keyed ones. */
    method RunPlan(uuids: seq<nat>) returns (r: Outcome)
      requires Legacy(themes, library) && CatalogueValid(constraints, fks) && |uuids| == |themes|
      modifies this
      ensures r == Verdict(old(themes), old(library), old(constraints), old(fks), uuids)
      ensures r.Completed? ==> themes == RekeyThemes(old(themes), Renaming(old(themes), uuids))
      ensures r.Completed? ==> library == RekeyLibrary(old(library), Renaming(old(themes), uuids))
      ensures r.Completed? ==> constraints == old(constraints) - {PARENT_FK_OLD} + {PARENT_FK}
      ensures r.Completed? ==> fks == {LIBRARY_FK, PARENT_FK}
    {
      hide Legacy, EntriesResolve, ParentsResolve, Backfilled, BackfilledLibrary;
      var themesBefore, libraryBefore := |themes|, |library|;
      var parentLinkCount := CountWhere(themes, HAS_PARENT);
      Backfill(uuids);
      var ok := Gates(old(themes), old(library), uuids, parentLinkCount);
      if !ok {
        return CheckFailed;
      }
      ok := DropOldConstraints();
      if !ok {
        return SqlError;
      }
      ok := SwapKeys(old(themes), old(library), uuids);
      if !ok {
        return SqlError;
      }
      DropLegacyColumns(old(themes), old(library), Renaming(old(themes), uuids));
      FinalChecksPass(old(themes), old(library), uuids);
      ok := FinalChecks(themesBefore, libraryBefore, parentLinkCount);
      return if ok then Completed else CheckFailed;
    }

    /** The dry run: the plan, one probe insert under a fresh id, and a rollback whatever happened. */
    method RunDryRun(uuids: seq<nat>, probe: nat) returns (exitCode: int)
      requires Legacy(themes, library) && CatalogueValid(constraints, fks) && |uuids| == |themes|
      modifies this
      ensures themes == old(themes) && library == old(library)
      ensures constraints == old(constraints) && fks == old(fks)
      ensures exitCode == 1 <==> Verdict(themes, library, constraints, fks, uuids) == CheckFailed
      ensures exitCode == 0 <==> Verdict(themes, library, constraints, fks, uuids) == Completed && probe !in uuids
      ensures exitCode in {0, 1, 2}
    {
      var themes0, library0, constraints0, fks0 := themes, library, constraints, fks;
      var r := RunPlan(uuids);
      exitCode := if r.CheckFailed? then 1 else if r.SqlError? then 2 else 0;
      if r.Completed? {
        ProbeIsFresh(themes0, uuids, probe);
        if HasId(themes, Guid(probe)) {
          exitCode := 2;
        }
      }
      themes, library, constraints, fks := themes0, library0, constraints0, fks0;
    }
  }

  predicate FinalState(themes: Table, library: Table, themesBefore: nat, libraryBefore: nat, parentLinkCount: nat) {
    && |themes| == themesBefore && |library| == libraryBefore
    && CountWhere(themes, HAS_PARENT) == parentLinkCount
    && HoldsUuids(themes, Id) && HoldsUuids(themes, ParentThemeId) && HoldsUuids(library, ThemeId)
  }

  /** Past the gates the final assertions cannot fail: the re-keyed tables have the rows and the parent links of the
      legacy ones, under uuids. */
  lemma FinalChecksPass(themes0: Table, library0: Table, uuids: seq<nat>)
    requires Legacy(themes0, library0) && |uuids| == |themes0| && ParentsResolve(themes0)
    ensures var f := Renaming(themes0, uuids);
            FinalState(RekeyThemes(themes0, f), RekeyLibrary(library0, f),
                       |themes0|, |library0|, CountWhere(themes0, HAS_PARENT))
  {
    var f := Renaming(themes0, uuids);
    var t, l := RekeyThemes(themes0, f), RekeyLibrary(library0, f);
    forall i | 0 <= i < |t|
      ensures Col(t[i], Id) == Null || Col(t[i], Id).Guid?
      ensures Col(t[i], ParentThemeId) == Null || Col(t[i], ParentThemeId).Guid?
      ensures HAS_PARENT(t[i]) == HAS_PARENT(themes0[i])
    {
      RenamedIsUuid(themes0, uuids, Col(themes0[i], Id));
      RenamedIsUuid(themes0, uuids, Col(themes0[i], ParentThemeId));
    }
    forall i | 0 <= i < |l| ensures Col(l[i], ThemeId) == Null || Col(l[i], ThemeId).Guid? {
      RenamedIsUuid(themes0, uuids, Col(library0[i], ThemeId));
    }
    hide Legacy, ParentsResolve, RekeyThemes, RekeyLibrary;
    CountFrame(themes0, t, HAS_PARENT);
  }

  lemma {:induction false} RenamedIsUuid(themes: Table, uuids: seq<nat>, v: Value)
    requires |uuids| == |themes|
    ensures Rename(themes, uuids, v) == Null || Rename(themes, uuids, v).Guid?
    ensures Rename(themes, uuids, v) != Null <==> v != Null && HasId(themes, v)
  {
    if themes != [] {
      assert HasId(themes, v) <==> Col(themes[0], Id) == v || HasId(themes[1..], v) by {
        assert forall i :: 0 <= i < |themes[1..]| ==> themes[1..][i] == themes[i + 1];
      }
      RenamedIsUuid(themes[1..], uuids[1..], v);
    }
  }

  /** A theme may be deleted before the migration: if the plan completes with it, it completes without it. */
  lemma CompletesAfterDelete(themes: Table, library: Table, constraints: set<ConstraintId>, fks: set<ConstraintId>,
                             uuids: seq<nat>, k: nat)
    requires Legacy(themes, library) && |uuids| == |themes| && k < |themes|
    requires Verdict(themes, library, constraints, fks, uuids) == Completed
    ensures var left, rest := DeleteTheme(themes, Col(themes[k], Id)), DeleteEntries(library, Col(themes[k], Id));
            && Legacy(left, rest) && |Without(uuids, k)| == |left|
            && Verdict(left, rest, constraints, fks, Without(uuids, k)) == Completed
  {
    DeleteCommutesWithMigration(themes, library, uuids, k);
  }

  lemma ProbeIsFresh(themes0: Table, uuids: seq<nat>, probe: nat)
    requires |uuids| == |themes0| && UniqueIds(themes0)
    requires forall i :: 0 <= i < |themes0| ==> LegacyTheme(themes0[i])
    ensures HasId(RekeyThemes(themes0, Renaming(themes0, uuids)), Guid(probe)) <==> probe in uuids
  {
    var t := RekeyThemes(themes0, Renaming(themes0, uuids));
    forall i | 0 <= i < |t| ensures Col(t[i], Id) == Guid(uuids[i]) {
      assert LegacyTheme(themes0[i]);
      RenameAt(themes0, uuids, i);
    }
  }

  // The constraints that refer to the themes key exist, and the two that are no foreign keys are not among them.
  predicate CatalogueValid(constraints: set<ConstraintId>, fks: set<ConstraintId>) {
    fks <= constraints && LIBRARY_UNIQUE !in fks && THEMES_PKEY !in fks
  }

  function ParentToDrop(constraints: set<ConstraintId>): set<ConstraintId> {
    if PARENT_FK_OLD in constraints then {PARENT_FK_OLD} else if PARENT_FK in constraints then {PARENT_FK} else {}
  }

  function RenameColumn(r: Row, a: Column, b: Column): Row {
    (r - {a})[b := Col(r, a)]
  }

  // A migrated row with the legacy columns still at its side.
  function SwappedTheme(r: Row, f: Value -> Value): Row {
    RekeyTheme(r, f)[IdLegacy := Col(r, Id)][ParentThemeIdLegacy := Col(r, ParentThemeId)]
  }

  function SwappedEntry(r: Row, f: Value -> Value): Row {
    RekeyEntry(r, f)[ThemeIdLegacy := Col(r, ThemeId)]
  }

  function Swapped(t: Table, f: Value -> Value): Table {
    MapRows(t, r => SwappedTheme(r, f))
  }

  function SwappedLibrary(t: Table, f: Value -> Value): Table {
    MapRows(t, r => SwappedEntry(r, f))
  }

  lemma PrimaryKeyIff(themes0: Table, uuids: seq<nat>, t: Table)
    requires |uuids| == |themes0| == |t|
    requires forall i :: 0 <= i < |t| ==> Col(t[i], Id) == Guid(uuids[i])
    ensures PrimaryKeyHolds(t) <==> Distinct(uuids)
  {
    if !Distinct(uuids) {
      var i, j :| 0 <= i < j < |uuids| && uuids[i] == uuids[j];
      assert Col(t[i], Id) == Col(t[j], Id);
    }
  }

  lemma RenamedColumn(r: Row, a: Column, b: Column, c: Column)
    ensures Col(RenameColumn(r, a, b), c) == if c == b then Col(r, a) else if c == a then Null else Col(r, c)
    ensures c in RenameColumn(r, a, b) <==> c == b || (c in r && c != a)
  {}

  lemma SameRow(x: Row, y: Row)
    requires forall c :: c in x <==> c in y
    requires forall c :: Col(x, c) == Col(y, c)
    ensures x == y
  {
    forall c | c in x ensures x[c] == y[c] { assert Col(x, c) == Col(y, c); }
  }

  /** The four renames put the new keys where the old ones were and keep the old ones at their side. */
  lemma SwappedRow(r: Row, u: Value, pu: Value)
    requires LegacyTheme(r)
    ensures RenameColumn(RenameColumn(RenameColumn(RenameColumn(r[Uuid := u][ParentThemeUuid := pu],
              Id, IdLegacy), Uuid, Id), ParentThemeId, ParentThemeIdLegacy), ParentThemeUuid, ParentThemeId)
            == r[Id := u][ParentThemeId := pu][IdLegacy := Col(r, Id)][ParentThemeIdLegacy := Col(r, ParentThemeId)]
  {
    hide RenameColumn;
    var x0 := r[Uuid := u][ParentThemeUuid := pu];
    var x1 := RenameColumn(x0, Id, IdLegacy);
    var x2 := RenameColumn(x1, Uuid, Id);
    var x3 := RenameColumn(x2, ParentThemeId, ParentThemeIdLegacy);
    var x4 := RenameColumn(x3, ParentThemeUuid, ParentThemeId);
    var y := r[Id := u][ParentThemeId := pu][IdLegacy := Col(r, Id)][ParentThemeIdLegacy := Col(r, ParentThemeId)];
    forall c ensures Col(x4, c) == Col(y, c) && (c in x4 <==> c in y) {
      Renamed4(x0, x1, x2, x3, x4, c);
      Renamed4(x0, x1, x2, x3, x4, Id);
      Renamed4(x0, x1, x2, x3, x4, ParentThemeId);
      Renamed4(x0, x1, x2, x3, x4, Uuid);
      Renamed4(x0, x1, x2, x3, x4, ParentThemeUuid);
    }
    SameRow(x4, y);
  }

  lemma SwappedEntryRow(r: Row, u: Value)
    requires LegacyEntry(r)
    ensures RenameColumn(RenameColumn(r[ThemeUuid := u], ThemeId, ThemeIdLegacy), ThemeUuid, ThemeId)
            == r[ThemeId := u][ThemeIdLegacy := Col(r, ThemeId)]
  {}

  lemma Renamed4(x0: Row, x1: Row, x2: Row, x3: Row, x4: Row, c: Column)
    requires x1 == RenameColumn(x0, Id, IdLegacy) && x2 == RenameColumn(x1, Uuid, Id)
    requires x3 == RenameColumn(x2, ParentThemeId, ParentThemeIdLegacy)
    requires x4 == RenameColumn(x3, ParentThemeUuid, ParentThemeId)
    ensures Col(x1, c) == if c == IdLegacy then Col(x0, Id) else if c == Id then Null else Col(x0, c)
    ensures c in x1 <==> c == IdLegacy || (c in x0 && c != Id)
    ensures Col(x2, c) == if c == Id then Col(x1, Uuid) else if c == Uuid then Null else Col(x1, c)
    ensures c in x2 <==> c == Id || (c in x1 && c != Uuid)
    ensures Col(x3, c) == if c == ParentThemeIdLegacy then Col(x2, ParentThemeId)
                          else if c == ParentThemeId then Null else Col(x2, c)
    ensures c in x3 <==> c == ParentThemeIdLegacy || (c in x2 && c != ParentThemeId)
    ensures Col(x4, c) == if c == ParentThemeId then Col(x3, ParentThemeUuid)
                          else if c == ParentThemeUuid then Null else Col(x3, c)
    ensures c in x4 <==> c == ParentThemeId || (c in x3 && c != ParentThemeUuid)
  {
    hide RenameColumn;
    RenamedColumn(x0, Id, IdLegacy, c);
    RenamedColumn(x1, Uuid, Id, c);
    RenamedColumn(x2, ParentThemeId, ParentThemeIdLegacy, c);
    RenamedColumn(x3, ParentThemeUuid, ParentThemeId, c);
  }

  lemma SwapIsSwapped(themes0: Table, uuids: seq<nat>, t: Table)
    requires |uuids| == |themes0| == |t| && UniqueIds(themes0)
    requires forall i :: 0 <= i < |t| ==> LegacyTheme(themes0[i])
    requires forall i :: 0 <= i < |t| ==>
      t[i] == RenameColumn(RenameColumn(RenameColumn(RenameColumn(
                themes0[i][Uuid := Guid(uuids[i])]
                          [ParentThemeUuid := Rename(themes0, uuids, Col(themes0[i], ParentThemeId))],
                Id, IdLegacy), Uuid, Id), ParentThemeId, ParentThemeIdLegacy), ParentThemeUuid, ParentThemeId)
    ensures t == Swapped(themes0, Renaming(themes0, uuids))
  {
    forall i | 0 <= i < |t| ensures t[i] == SwappedTheme(themes0[i], Renaming(themes0, uuids)) {
      hide RenameColumn;
      assert LegacyTheme(themes0[i]);
      RenameAt(themes0, uuids, i);
      SwappedRow(themes0[i], Guid(uuids[i]), Rename(themes0, uuids, Col(themes0[i], ParentThemeId)));
    }
  }

  lemma SwapIsSwappedLibrary(themes0: Table, library0: Table, uuids: seq<nat>, t: Table)
    requires |uuids| == |themes0| && |t| == |library0|
    requires forall i :: 0 <= i < |t| ==> LegacyEntry(library0[i])
    requires forall i :: 0 <= i < |t| ==>
      t[i] == RenameColumn(RenameColumn(
                library0[i][ThemeUuid := Rename(themes0, uuids, Col(library0[i], ThemeId))],
                ThemeId, ThemeIdLegacy), ThemeUuid, ThemeId)
    ensures t == SwappedLibrary(library0, Renaming(themes0, uuids))
  {
    forall i | 0 <= i < |t| ensures t[i] == SwappedEntry(library0[i], Renaming(themes0, uuids)) {
      hide RenameColumn;
      assert LegacyEntry(library0[i]);
      SwappedEntryRow(library0[i], Rename(themes0, uuids, Col(library0[i], ThemeId)));
    }
  }

  lemma SwappedThemeColumns(r: Row, f: Value -> Value)
    ensures Col(SwappedTheme(r, f), Id) == f(Col(r, Id))
    ensures Col(SwappedTheme(r, f), ParentThemeId) == f(Col(r, ParentThemeId))
  {}

  lemma SwappedEntryColumns(r: Row, f: Value -> Value)
    ensures Col(SwappedEntry(r, f), ThemeId) == f(Col(r, ThemeId))
    ensures Col(SwappedEntry(r, f), UserId) == Col(r, UserId) && Col(SwappedEntry(r, f), TeamId) == Col(r, TeamId)
  {}

  lemma LegacyIds(themes0: Table, library0: Table)
    requires Legacy(themes0, library0)
    ensures UniqueIds(themes0) && NoClash(library0)
    ensures forall i :: 0 <= i < |themes0| ==> Col(themes0[i], Id) != Null
    ensures forall i :: 0 <= i < |library0| ==> Col(library0[i], ThemeId) != Null
  {
    assert forall i :: 0 <= i < |themes0| ==> LegacyTheme(themes0[i]);
    assert forall i :: 0 <= i < |library0| ==> LegacyEntry(library0[i]);
  }

  /** Where the new rows stand: every theme has its own uuid, every reference that resolved is renamed. */
  lemma SwappedLookups(themes0: Table, library0: Table, uuids: seq<nat>)
    requires Legacy(themes0, library0) && |uuids| == |themes0|
    ensures var f := Renaming(themes0, uuids); var t := Swapped(themes0, f);
      (forall i :: 0 <= i < |t| ==> Col(t[i], Id) == Guid(uuids[i]))
      && (forall v :: v != Null && HasId(themes0, v) ==> HasId(t, f(v)) && f(v) != Null)
      && f(Null) == Null
  {
    hide SwappedTheme, Legacy;
    LegacyIds(themes0, library0);
    var f := Renaming(themes0, uuids);
    var t := Swapped(themes0, f);
    forall i | 0 <= i < |t| ensures Col(t[i], Id) == Guid(uuids[i]) {
      SwappedThemeColumns(themes0[i], f);
      RenameAt(themes0, uuids, i);
    }
    RenameMisses(themes0, uuids, Null);
    forall v | v != Null && HasId(themes0, v) ensures HasId(t, f(v)) && f(v) != Null {
      var j :| 0 <= j < |themes0| && Col(themes0[j], Id) == v;
      RenameAt(themes0, uuids, j);
      assert Col(t[j], Id) == f(v);
    }
  }

  /** Past the gates, with distinct uuids, every later constraint holds: primary key, both foreign keys, NOT NULL
      and the three-column UNIQUE. */
  lemma ReferencesHold(themes0: Table, library0: Table, uuids: seq<nat>)
    requires Legacy(themes0, library0) && |uuids| == |themes0| && Distinct(uuids)
    requires EntriesResolve(themes0, library0) && ParentsResolve(themes0)
    ensures var f := Renaming(themes0, uuids); var t, l := Swapped(themes0, f), SwappedLibrary(library0, f);
      PrimaryKeyHolds(t) && ParentsResolve(t) && NotNull(l, ThemeId) && EntriesResolve(t, l) && NoClash(l)
  {
    hide SwappedTheme, SwappedEntry, Legacy, Renaming;
    var f := Renaming(themes0, uuids);
    var t, l := Swapped(themes0, f), SwappedLibrary(library0, f);
    LegacyIds(themes0, library0);
    SwappedLookups(themes0, library0, uuids);
    PrimaryKeyIff(themes0, uuids, t);
    forall i | 0 <= i < |t| && Col(t[i], ParentThemeId) != Null ensures HasId(t, Col(t[i], ParentThemeId)) {
      SwappedThemeColumns(themes0[i], f);
    }
    forall i | 0 <= i < |l| ensures Col(l[i], ThemeId) != Null && HasId(t, Col(l[i], ThemeId)) {
      SwappedEntryColumns(library0[i], f);
    }
    KeysStayApart(themes0, library0, uuids);
  }

  /** Two library rows that differed in user, theme or team still do. */
  lemma KeysStayApart(themes0: Table, library0: Table, uuids: seq<nat>)
    requires Legacy(themes0, library0) && |uuids| == |themes0| && Distinct(uuids) && EntriesResolve(themes0, library0)
    ensures NoClash(SwappedLibrary(library0, Renaming(themes0, uuids)))
  {
    hide SwappedEntry, Legacy;
    var f := Renaming(themes0, uuids);
    var l := SwappedLibrary(library0, f);
    LegacyIds(themes0, library0);
    RenamingInjectiveIff(themes0, uuids);
    forall i, j | 0 <= i < j < |l| ensures !Clash(l[i], l[j]) {
      SwappedEntryColumns(library0[i], f);
      SwappedEntryColumns(library0[j], f);
      assert !Clash(library0[i], library0[j]);
      assert f(Col(library0[i], ThemeId)) == f(Col(library0[j], ThemeId)) ==>
             Col(library0[i], ThemeId) == Col(library0[j], ThemeId);
    }
  }

  // The gates read NULLs in the work columns; those are exactly the references that do not resolve.
  lemma GateMeaning(themes0: Table, library0: Table, uuids: seq<nat>, themes: Table, library: Table)
    requires Legacy(themes0, library0) && |uuids| == |themes0|
    requires Backfilled(themes0, uuids, themes) && BackfilledLibrary(themes0, uuids, library0, library)
    ensures EntriesResolve(themes0, library0) <==> forall i :: 0 <= i < |library| ==> !ORPHAN_ENTRY(library[i])
    ensures ParentsResolve(themes0) <==> forall i :: 0 <= i < |themes| ==> !ORPHAN_PARENT(themes[i])
  {
    forall v | v != Null ensures Rename(themes0, uuids, v) == Null <==> !HasId(themes0, v) {
      if HasId(themes0, v) {
        var i :| 0 <= i < |themes0| && Col(themes0[i], Id) == v;
        RenameAt(themes0, uuids, i);
      } else {
        RenameMisses(themes0, uuids, v);
      }
    }
    forall i | 0 <= i < |library| ensures ORPHAN_ENTRY(library[i]) <==> !HasId(themes0, Col(library0[i], ThemeId)) {
      assert LegacyEntry(library0[i]);
    }
    forall i | 0 <= i < |themes|
      ensures ORPHAN_PARENT(themes[i]) <==>
              Col(themes0[i], ParentThemeId) != Null && !HasId(themes0, Col(themes0[i], ParentThemeId))
    {
      assert LegacyTheme(themes0[i]);
    }
  }
}
