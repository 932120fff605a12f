/**
The re-keying of the two theme tables, on values: what the finished migration must look like,
and what it means for parent chains and for deletions.

A table is a sequence of rows and a row maps columns to values. SQL NULL is a value that equals
no key.
*/
module ThemeTables {
  import opened Prelude

  datatype Column =
    | Id | ParentThemeId | ThemeId | UserId | TeamId
    | Uuid | ParentThemeUuid | ThemeUuid
    | IdLegacy | ParentThemeIdLegacy | ThemeIdLegacy
    | Other(name: string)

  datatype Value = Null | Text(text: string) | Guid(guid: nat)

  type Row = map<Column, Value>
  type Table = seq<Row>

  const WORK_COLUMNS: set<Column> := {Uuid, ParentThemeUuid, ThemeUuid, IdLegacy, ParentThemeIdLegacy, ThemeIdLegacy}

  function Col(r: Row, c: Column): Value {
    if c in r then r[c] else Null
  }

  // ---------------------------------------------------------------- the legacy shape

  predicate UniqueIds(t: Table) {
    forall i, j :: 0 <= i < j < |t| ==> Col(t[i], Id) != Col(t[j], Id)
  }

  predicate LegacyTheme(r: Row) {
    && Id in r && ParentThemeId in r
    && r[Id].Text? && !r[ParentThemeId].Guid?
    && r.Keys !! WORK_COLUMNS
  }

  predicate LegacyEntry(r: Row) {
    && ThemeId in r && UserId in r && TeamId in r
    && r[ThemeId].Text? && r[UserId] != Null
    && r.Keys !! WORK_COLUMNS
  }

  // Rows that UNIQUE (user_id, theme_id, team_id) forbids together; NULLs never clash.
  predicate Clash(a: Row, b: Row) {
    && Col(a, UserId) == Col(b, UserId) != Null
    && Col(a, ThemeId) == Col(b, ThemeId) != Null
    && Col(a, TeamId) == Col(b, TeamId) != Null
  }

  predicate NoClash(t: Table) {
    forall i, j :: 0 <= i < j < |t| ==> !Clash(t[i], t[j])
  }

  predicate Legacy(themes: Table, library: Table) {
    && (forall i :: 0 <= i < |themes| ==> LegacyTheme(themes[i]))
    && (forall i :: 0 <= i < |library| ==> LegacyEntry(library[i]))
    && UniqueIds(themes) && NoClash(library)
  }

  predicate HasId(t: Table, v: Value) {
    exists i :: 0 <= i < |t| && Col(t[i], Id) == v
  }

  predicate ParentsResolve(t: Table) {
    forall i :: 0 <= i < |t| && Col(t[i], ParentThemeId) != Null ==> HasId(t, Col(t[i], ParentThemeId))
  }

  predicate EntriesResolve(themes: Table, library: Table) {
    forall i :: 0 <= i < |library| ==> HasId(themes, Col(library[i], ThemeId))
  }

  // The scalar subquery: the value of column `c` in the row whose id is `key`, NULL if there is none.
  function Lookup(t: Table, key: Value, c: Column): Value {
    if t == [] then Null
    else if key != Null && Col(t[0], Id) == key then Col(t[0], c)
    else Lookup(t[1..], key, c)
  }

  lemma {:induction false} LookupAt(t: Table, i: nat, c: Column)
    requires UniqueIds(t) && i < |t| && Col(t[i], Id) != Null
    ensures Lookup(t, Col(t[i], Id), c) == Col(t[i], c)
  {
    if i > 0 {
      assert Col(t[0], Id) != Col(t[i], Id);
      assert t[1..][i - 1] == t[i];
      LookupAt(t[1..], i - 1, c);
    }
  }

  // ---------------------------------------------------------------- the re-keyed tables

  // Where each legacy id goes: the uuid its own row was given.
  function Rename(themes: Table, uuids: seq<nat>, v: Value): (w: Value)
    requires |uuids| == |themes|
  {
    if themes == [] then Null
    else if v != Null && Col(themes[0], Id) == v then Guid(uuids[0])
    else Rename(themes[1..], uuids[1..], v)
  }

  function RekeyTheme(r: Row, f: Value -> Value): Row {
    r[Id := f(Col(r, Id))][ParentThemeId := f(Col(r, ParentThemeId))]
  }

  function RekeyEntry(r: Row, f: Value -> Value): Row {
    r[ThemeId := f(Col(r, ThemeId))]
  }

  function RekeyThemes(t: Table, f: Value -> Value): (u: Table)
    ensures |u| == |t| && forall i :: 0 <= i < |t| ==> u[i] == RekeyTheme(t[i], f)
  {
    seq(|t|, i requires 0 <= i < |t| => RekeyTheme(t[i], f))
  }

  function RekeyLibrary(t: Table, f: Value -> Value): (u: Table)
    ensures |u| == |t| && forall i :: 0 <= i < |t| ==> u[i] == RekeyEntry(t[i], f)
  {
    seq(|t|, i requires 0 <= i < |t| => RekeyEntry(t[i], f))
  }

  function Renaming(themes: Table, uuids: seq<nat>): (f: Value -> Value)
    requires |uuids| == |themes|
  {
    v => Rename(themes, uuids, v)
  }

  predicate Distinct(uuids: seq<nat>) {
    forall i, j :: 0 <= i < j < |uuids| ==> uuids[i] != uuids[j]
  }

  lemma {:induction false} RenameAt(themes: Table, uuids: seq<nat>, i: nat)
    requires |uuids| == |themes| && UniqueIds(themes) && i < |themes| && Col(themes[i], Id) != Null
    ensures Rename(themes, uuids, Col(themes[i], Id)) == Guid(uuids[i])
  {
    if i > 0 {
      assert Col(themes[0], Id) != Col(themes[i], Id);
      assert themes[1..][i - 1] == themes[i];
      RenameAt(themes[1..], uuids[1..], i - 1);
    }
  }

  lemma {:induction false} RenameMisses(themes: Table, uuids: seq<nat>, v: Value)
    requires |uuids| == |themes| && (v == Null || !HasId(themes, v))
    ensures Rename(themes, uuids, v) == Null
  {
    if themes != [] {
      assert v != Null ==> Col(themes[0], Id) != v;
      assert v != Null ==> !HasId(themes[1..], v) by {
        assert forall i :: 0 <= i < |themes[1..]| ==> themes[1..][i] == themes[i + 1];
      }
      RenameMisses(themes[1..], uuids[1..], v);
    }
  }

  /** The renaming is one-to-one on the ids in use exactly when the fresh uuids are distinct. */
  lemma RenamingInjectiveIff(themes: Table, uuids: seq<nat>)
    requires |uuids| == |themes| && UniqueIds(themes)
    requires forall i :: 0 <= i < |themes| ==> Col(themes[i], Id) != Null
    ensures Distinct(uuids) <==>
            forall v, w | HasId(themes, v) && HasId(themes, w) ::
              Rename(themes, uuids, v) == Rename(themes, uuids, w) ==> v == w
  {
    if Distinct(uuids) {
      forall v, w | HasId(themes, v) && HasId(themes, w) && Rename(themes, uuids, v) == Rename(themes, uuids, w)
        ensures v == w
      {
        var i :| 0 <= i < |themes| && Col(themes[i], Id) == v;
        var j :| 0 <= j < |themes| && Col(themes[j], Id) == w;
        RenameAt(themes, uuids, i);
        RenameAt(themes, uuids, j);
        assert uuids[i] == uuids[j];
      }
    } else {
      var i, j :| 0 <= i < j < |uuids| && uuids[i] == uuids[j];
      RenameAt(themes, uuids, i);
      RenameAt(themes, uuids, j);
      assert HasId(themes, Col(themes[i], Id)) && HasId(themes, Col(themes[j], Id));
    }
  }

  // ---------------------------------------------------------------- meaning: parent chains

  // The n-th ancestor of a theme, NULL past the root.
  function Ancestor(t: Table, v: Value, n: nat): Value
    decreases n
  {
    if n == 0 || v == Null then v else Ancestor(t, Lookup(t, v, ParentThemeId), n - 1)
  }

  // `f` carries ids to ids, one-to-one, and keeps NULL.
  ghost predicate Carries(t: Table, f: Value -> Value) {
    && f(Null) == Null
    && (forall v :: HasId(t, v) ==> f(v) != Null)
    && (forall v, w :: HasId(t, v) && HasId(t, w) && f(v) == f(w) ==> v == w)
  }

  lemma RenamingCarries(themes: Table, uuids: seq<nat>)
    requires |uuids| == |themes| && UniqueIds(themes) && Distinct(uuids)
    requires forall i :: 0 <= i < |themes| ==> Col(themes[i], Id) != Null
    ensures Carries(themes, Renaming(themes, uuids))
  {
    RenamingInjectiveIff(themes, uuids);
    RenameMisses(themes, uuids, Null);
    forall v | HasId(themes, v) ensures Rename(themes, uuids, v) != Null {
      var i :| 0 <= i < |themes| && Col(themes[i], Id) == v;
      RenameAt(themes, uuids, i);
    }
  }

  // Looking up a renamed id in the renamed table gives the renamed answer.
  lemma RenamedLookup(t: Table, f: Value -> Value, v: Value)
    requires UniqueIds(t) && Carries(t, f) && HasId(t, v) && v != Null
    ensures UniqueIds(RekeyThemes(t, f))
    ensures Lookup(RekeyThemes(t, f), f(v), ParentThemeId) == f(Lookup(t, v, ParentThemeId))
  {
    var u := RekeyThemes(t, f);
    forall i, j | 0 <= i < j < |u| ensures Col(u[i], Id) != Col(u[j], Id) {
      assert HasId(t, Col(t[i], Id)) && HasId(t, Col(t[j], Id));
    }
    var i :| 0 <= i < |t| && Col(t[i], Id) == v;
    LookupAt(t, i, ParentThemeId);
    LookupAt(u, i, ParentThemeId);
  }

  lemma {:induction false} LookupResolves(t: Table, v: Value)
    requires UniqueIds(t) && ParentsResolve(t) && HasId(t, v) && v != Null
    ensures var p := Lookup(t, v, ParentThemeId); p == Null || HasId(t, p)
  {
    var i :| 0 <= i < |t| && Col(t[i], Id) == v;
    LookupAt(t, i, ParentThemeId);
  }

  /** Ancestor chains of every length are preserved: the n-th ancestor of the re-keyed theme is the
      re-keyed n-th ancestor. */
  lemma {:induction false} AncestorsArePreserved(t: Table, f: Value -> Value, v: Value, n: nat)
    requires UniqueIds(t) && Carries(t, f) && ParentsResolve(t) && (v == Null || HasId(t, v))
    ensures Ancestor(RekeyThemes(t, f), f(v), n) == f(Ancestor(t, v, n))
    ensures Ancestor(t, v, n) == Null || HasId(t, Ancestor(t, v, n))
    decreases n
  {
    if n > 0 && v != Null {
      RenamedLookup(t, f, v);
      LookupResolves(t, v);
      AncestorsArePreserved(t, f, Lookup(t, v, ParentThemeId), n - 1);
    }
  }

  /** ... and reflected: two themes are n links apart, or a theme lies on a cycle, or is a root at depth n,
      after the migration exactly when it was before. */
  lemma AncestorsAreReflected(t: Table, f: Value -> Value, v: Value, w: Value, n: nat)
    requires UniqueIds(t) && Carries(t, f) && ParentsResolve(t) && HasId(t, v) && (w == Null || HasId(t, w))
    ensures Ancestor(RekeyThemes(t, f), f(v), n) == f(w) <==> Ancestor(t, v, n) == w
  {
    AncestorsArePreserved(t, f, v, n);
  }

  /** A completed migration keeps the whole ancestry of every theme. */
  lemma MigrationKeepsAncestry(themes: Table, library: Table, uuids: seq<nat>, v: Value, w: Value, n: nat)
    requires Legacy(themes, library) && ParentsResolve(themes)
    requires |uuids| == |themes| && Distinct(uuids)
    requires HasId(themes, v) && (w == Null || HasId(themes, w))
    ensures var f := Renaming(themes, uuids);
            Ancestor(RekeyThemes(themes, f), f(v), n) == f(w) <==> Ancestor(themes, v, n) == w
  {
    RenamingCarries(themes, uuids);
    AncestorsAreReflected(themes, Renaming(themes, uuids), v, w, n);
  }

  // ---------------------------------------------------------------- meaning: deletions

  // ON DELETE SET NULL for children, the row itself removed.
  function DeleteTheme(t: Table, v: Value): Table {
    if t == [] then []
    else
      var rest := DeleteTheme(t[1..], v);
      if Col(t[0], Id) == v then rest
      else [if Col(t[0], ParentThemeId) == v then t[0][ParentThemeId := Null] else t[0]] + rest
  }

  // ON DELETE CASCADE for library entries.
  function DeleteEntries(t: Table, v: Value): Table {
    if t == [] then []
    else
      var rest := DeleteEntries(t[1..], v);
      if Col(t[0], ThemeId) == v then rest else [t[0]] + rest
  }

  // The value is an id of `ids`, or NULL.
  predicate Known(ids: Table, v: Value) {
    v == Null || HasId(ids, v)
  }

  lemma {:induction false} RekeyCommutesWithDelete(ids: Table, t: Table, f: Value -> Value, v: Value)
    requires Carries(ids, f) && HasId(ids, v) && v != Null
    requires forall i :: 0 <= i < |t| ==> HasId(ids, Col(t[i], Id)) && Known(ids, Col(t[i], ParentThemeId))
    ensures RekeyThemes(DeleteTheme(t, v), f) == DeleteTheme(RekeyThemes(t, f), f(v))
  {
    if t != [] {
      assert forall i :: 0 <= i < |t[1..]| ==> t[1..][i] == t[i + 1];
      RekeyCommutesWithDelete(ids, t[1..], f, v);
      var u := RekeyThemes(t, f);
      assert u[1..] == RekeyThemes(t[1..], f);
      assert u[0] == RekeyTheme(t[0], f);
      assert Col(u[0], Id) == f(v) <==> Col(t[0], Id) == v;
      assert Col(u[0], ParentThemeId) == f(v) <==> Col(t[0], ParentThemeId) == v;
      if Col(t[0], Id) != v {
        var kept := if Col(t[0], ParentThemeId) == v then t[0][ParentThemeId := Null] else t[0];
        assert RekeyTheme(kept, f) ==
               if Col(u[0], ParentThemeId) == f(v) then u[0][ParentThemeId := Null] else u[0];
        assert RekeyThemes([kept] + DeleteTheme(t[1..], v), f) ==
          [RekeyTheme(kept, f)] + RekeyThemes(DeleteTheme(t[1..], v), f);
      }
    }
  }

  lemma {:induction false} RekeyCommutesWithCascade(ids: Table, t: Table, f: Value -> Value, v: Value)
    requires Carries(ids, f) && HasId(ids, v) && v != Null
    requires forall i :: 0 <= i < |t| ==> HasId(ids, Col(t[i], ThemeId))
    ensures RekeyLibrary(DeleteEntries(t, v), f) == DeleteEntries(RekeyLibrary(t, f), f(v))
  {
    if t != [] {
      assert forall i :: 0 <= i < |t[1..]| ==> t[1..][i] == t[i + 1];
      RekeyCommutesWithCascade(ids, t[1..], f, v);
      var u := RekeyLibrary(t, f);
      assert u[1..] == RekeyLibrary(t[1..], f);
      assert Col(u[0], ThemeId) == f(v) <==> Col(t[0], ThemeId) == v;
      if Col(t[0], ThemeId) != v {
        assert RekeyLibrary([t[0]] + DeleteEntries(t[1..], v), f) == [u[0]] + RekeyLibrary(DeleteEntries(t[1..], v), f);
      }
    }
  }

  function Without(uuids: seq<nat>, k: nat): seq<nat>
    requires k < |uuids|
  {
    uuids[..k] + uuids[k + 1..]
  }

  lemma {:induction false} DeleteAbsentKeepsIds(t: Table, v: Value)
    requires !HasId(t, v)
    ensures |DeleteTheme(t, v)| == |t|
    ensures forall i :: 0 <= i < |t| ==> Col(DeleteTheme(t, v)[i], Id) == Col(t[i], Id)
  {
    if t != [] {
      assert Col(t[0], Id) != v;
      assert !HasId(t[1..], v) by {
        assert forall i :: 0 <= i < |t[1..]| ==> t[1..][i] == t[i + 1];
      }
      DeleteAbsentKeepsIds(t[1..], v);
    }
  }

  lemma {:induction false} DeleteDropsOneId(t: Table, k: nat)
    requires UniqueIds(t) && k < |t|
    ensures var d := DeleteTheme(t, Col(t[k], Id));
      && |d| == |t| - 1
      && (forall i :: 0 <= i < k ==> Col(d[i], Id) == Col(t[i], Id))
      && (forall i :: k <= i < |d| ==> Col(d[i], Id) == Col(t[i + 1], Id))
  {
    var v := Col(t[k], Id);
    assert forall i :: 0 <= i < |t[1..]| ==> t[1..][i] == t[i + 1];
    if k == 0 {
      DeleteAbsentKeepsIds(t[1..], v);
    } else {
      assert Col(t[0], Id) != v;
      DeleteDropsOneId(t[1..], k - 1);
    }
  }

  // Dropping one row and its uuid leaves the renaming of every other id alone.
  lemma RenamingAfterDelete(t: Table, uuids: seq<nat>, k: nat, w: Value)
    requires |uuids| == |t| && UniqueIds(t) && k < |t| && w != Col(t[k], Id)
    requires forall i :: 0 <= i < |t| ==> Col(t[i], Id) != Null
    ensures |DeleteTheme(t, Col(t[k], Id))| == |Without(uuids, k)|
    ensures Rename(DeleteTheme(t, Col(t[k], Id)), Without(uuids, k), w) == Rename(t, uuids, w)
  {
    var d := DeleteTheme(t, Col(t[k], Id));
    DeleteDropsOneId(t, k);
    assert UniqueIds(d);
    if w != Null && HasId(t, w) {
      var i :| 0 <= i < |t| && Col(t[i], Id) == w;
      var j := if i < k then i else i - 1;
      assert Col(d[j], Id) == w;
      RenameAt(t, uuids, i);
      RenameAt(d, Without(uuids, k), j);
    } else {
      RenameMisses(t, uuids, w);
      RenameMisses(d, Without(uuids, k), w);
    }
  }

  lemma {:induction false} DeleteLeavesNoTrace(t: Table, v: Value)
    requires v != Null
    ensures forall i :: 0 <= i < |DeleteTheme(t, v)| ==>
              Col(DeleteTheme(t, v)[i], Id) != v && Col(DeleteTheme(t, v)[i], ParentThemeId) != v
  {
    if t != [] {
      DeleteLeavesNoTrace(t[1..], v);
    }
  }

  lemma {:induction false} CascadeLeavesNoTrace(t: Table, v: Value)
    ensures forall i :: 0 <= i < |DeleteEntries(t, v)| ==> Col(DeleteEntries(t, v)[i], ThemeId) != v
  {
    if t != [] {
      CascadeLeavesNoTrace(t[1..], v);
    }
  }

  lemma {:induction false} KeptRow(t: Table, v: Value, i: nat) returns (j: nat)
    requires i < |DeleteTheme(t, v)|
    ensures j < |t| && Col(t[j], Id) != v
    ensures DeleteTheme(t, v)[i] == if Col(t[j], ParentThemeId) == v then t[j][ParentThemeId := Null] else t[j]
  {
    if Col(t[0], Id) != v && i == 0 {
      j := 0;
    } else {
      j := KeptRow(t[1..], v, if Col(t[0], Id) == v then i else i - 1);
      j := j + 1;
    }
  }

  lemma {:induction false} KeptIds(t: Table, v: Value, w: Value)
    requires HasId(t, w) && w != v
    ensures HasId(DeleteTheme(t, v), w)
  {
    var i :| 0 <= i < |t| && Col(t[i], Id) == w;
    var d := DeleteTheme(t, v);
    if i == 0 {
      assert Col(d[0], Id) == w;
    } else {
      assert t[1..][i - 1] == t[i];
      KeptIds(t[1..], v, w);
      var j :| 0 <= j < |DeleteTheme(t[1..], v)| && Col(DeleteTheme(t[1..], v)[j], Id) == w;
      assert Col(d[if Col(t[0], Id) == v then j else j + 1], Id) == w;
    }
  }

  lemma {:induction false} KeptEntries(t: Table, v: Value)
    ensures forall r :: r in DeleteEntries(t, v) ==> r in t
    ensures NoClash(t) ==> NoClash(DeleteEntries(t, v))
  {
    if t != [] {
      assert forall i :: 0 <= i < |t[1..]| ==> t[1..][i] == t[i + 1];
      KeptEntries(t[1..], v);
      if NoClash(t) && Col(t[0], ThemeId) != v {
        var rest := DeleteEntries(t[1..], v);
        forall j | 0 <= j < |rest| ensures !Clash(t[0], rest[j]) {
          assert rest[j] in t[1..];
        }
      }
    }
  }

  /** What is left after a deletion is a pair of legacy tables whose references resolve. */
  lemma DeleteKeepsGates(themes: Table, library: Table, k: nat)
    requires Legacy(themes, library) && ParentsResolve(themes) && EntriesResolve(themes, library) && k < |themes|
    ensures var v := Col(themes[k], Id);
            var left, rest := DeleteTheme(themes, v), DeleteEntries(library, v);
            Legacy(left, rest) && ParentsResolve(left) && EntriesResolve(left, rest)
  {
    var v := Col(themes[k], Id);
    var left, rest := DeleteTheme(themes, v), DeleteEntries(library, v);
    DeleteDropsOneId(themes, k);
    KeptEntries(library, v);
    CascadeLeavesNoTrace(library, v);
    forall i | 0 <= i < |left|
      ensures LegacyTheme(left[i])
      ensures Col(left[i], ParentThemeId) != Null ==> HasId(left, Col(left[i], ParentThemeId))
    {
      var j := KeptRow(themes, v, i);
      assert LegacyTheme(themes[j]);
      if Col(left[i], ParentThemeId) != Null {
        KeptIds(themes, v, Col(left[i], ParentThemeId));
      }
    }
    forall i | 0 <= i < |rest| ensures LegacyEntry(rest[i]) && HasId(left, Col(rest[i], ThemeId)) {
      assert rest[i] in library;
      KeptIds(themes, v, Col(rest[i], ThemeId));
    }
  }

  lemma DeleteCommutesWithRekey(themes: Table, library: Table, uuids: seq<nat>, k: nat)
    requires Legacy(themes, library) && ParentsResolve(themes) && EntriesResolve(themes, library)
    requires |uuids| == |themes| && Distinct(uuids) && k < |themes|
    ensures var v := Col(themes[k], Id);
            var left, leftUuids := DeleteTheme(themes, v), Without(uuids, k);
      && |left| == |leftUuids|
      && RekeyThemes(left, Renaming(left, leftUuids))
         == DeleteTheme(RekeyThemes(themes, Renaming(themes, uuids)), Guid(uuids[k]))
      && RekeyLibrary(DeleteEntries(library, v), Renaming(left, leftUuids))
         == DeleteEntries(RekeyLibrary(library, Renaming(themes, uuids)), Guid(uuids[k]))
  {
    var v := Col(themes[k], Id);
    var f := Renaming(themes, uuids);
    var left, leftUuids := DeleteTheme(themes, v), Without(uuids, k);
    var leftLibrary := DeleteEntries(library, v);
    RekeyCommutes(themes, library, uuids, k);
    DeleteDropsOneId(themes, k);
    var g := Renaming(left, leftUuids);
    assert forall w :: w != v ==> g(w) == f(w) by {
      forall w | w != v ensures g(w) == f(w) {
        RenamingAfterDelete(themes, uuids, k, w);
      }
    }
    hide Legacy, ParentsResolve, EntriesResolve, Distinct, Renaming, Without;
    DeleteLeavesNoTrace(themes, v);
    CascadeLeavesNoTrace(library, v);
    assert RekeyThemes(left, g) == RekeyThemes(left, f);
    assert RekeyLibrary(leftLibrary, g) == RekeyLibrary(leftLibrary, f);
  }

  // Both commutations at the migration's own renaming.
  lemma RekeyCommutes(themes: Table, library: Table, uuids: seq<nat>, k: nat)
    requires Legacy(themes, library) && ParentsResolve(themes) && EntriesResolve(themes, library)
    requires |uuids| == |themes| && Distinct(uuids) && k < |themes|
    ensures var v, f := Col(themes[k], Id), Renaming(themes, uuids);
      && v != Null
      && RekeyThemes(DeleteTheme(themes, v), f) == DeleteTheme(RekeyThemes(themes, f), Guid(uuids[k]))
      && RekeyLibrary(DeleteEntries(library, v), f) == DeleteEntries(RekeyLibrary(library, f), Guid(uuids[k]))
  {
    var v := Col(themes[k], Id);
    var f := Renaming(themes, uuids);
    RenamingCarries(themes, uuids);
    RenameAt(themes, uuids, k);
    assert HasId(themes, v);
    assert forall i :: 0 <= i < |themes| ==> HasId(themes, Col(themes[i], Id));
    hide Carries, Renaming, RekeyThemes, RekeyLibrary, Distinct;
    RekeyCommutesWithDelete(themes, themes, f, v);
    RekeyCommutesWithCascade(themes, library, f, v);
  }

  /** Deleting a theme leaves tables that the migration takes, and gives with it the same two tables as migrating and
      deleting the theme's image. */
  lemma DeleteCommutesWithMigration(themes: Table, library: Table, uuids: seq<nat>, k: nat)
    requires Legacy(themes, library) && ParentsResolve(themes) && EntriesResolve(themes, library)
    requires |uuids| == |themes| && Distinct(uuids) && k < |themes|
    ensures var v := Col(themes[k], Id);
            var left, rest, leftUuids := DeleteTheme(themes, v), DeleteEntries(library, v), Without(uuids, k);
      && Legacy(left, rest) && ParentsResolve(left) && EntriesResolve(left, rest)
      && |left| == |leftUuids| && Distinct(leftUuids)
      && RekeyThemes(left, Renaming(left, leftUuids))
         == DeleteTheme(RekeyThemes(themes, Renaming(themes, uuids)), Guid(uuids[k]))
      && RekeyLibrary(rest, Renaming(left, leftUuids))
         == DeleteEntries(RekeyLibrary(library, Renaming(themes, uuids)), Guid(uuids[k]))
  {
    assert Distinct(Without(uuids, k));
    hide *;
    DeleteKeepsGates(themes, library, k);
    DeleteCommutesWithRekey(themes, library, uuids, k);
  }
}
