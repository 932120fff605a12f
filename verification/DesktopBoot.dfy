/**
The desktop sidecar's boot against its SQLite file: schema upgrades that commit statement by statement,
boots that may die after any of them, and the recovery that resets a half-built first schema.
*/
module DesktopBoot {
  import opened Prelude

  // Tables with their columns.
  type Tables = map<string, set<string>>

  datatype Ddl = CreateTable(table: string) | AddColumn(table: string, column: string)

  // "table ... already exists", or anything else SQLite may say.
  datatype DdlError = AlreadyExists | OtherError

  type Migration = seq<Ddl>

  const VERSION_TABLE := "alembic_version"

  function Check(t: Tables, op: Ddl): Option<DdlError> {
    match op
    case CreateTable(n) => if n in t then Some(AlreadyExists) else None
    case AddColumn(n, c) => if n in t && c !in t[n] then None else Some(OtherError)
  }

  function Do(t: Tables, op: Ddl): Tables {
    match op
    case CreateTable(n) => t[n := {}]
    case AddColumn(n, c) => if n in t then t[n := t[n] + {c}] else t
  }

  // Statements until the first error; each one done is kept.
  function Exec(t: Tables, ops: seq<Ddl>): (Tables, Option<DdlError>)
    decreases |ops|
  {
    if ops == [] then (t, None)
    else if Check(t, ops[0]).Some? then (t, Check(t, ops[0]))
    else Exec(Do(t, ops[0]), ops[1..])
  }

  // Migrations from number `v` on: tables, number of committed migrations, error.
  function Upgraded(t: Tables, plan: seq<Migration>, v: nat): (Tables, nat, Option<DdlError>)
    decreases |plan| - v
  {
    if v >= |plan| then (t, v, None)
    else
      var (u, e) := Exec(t, plan[v]);
      if e.Some? then (u, v, e) else Upgraded(u, plan, v + 1)
  }

  function Creates(ops: seq<Ddl>): set<string> {
    set op | op in ops && op.CreateTable? :: op.table
  }

  const EMPTY_SCHEMA: Tables := map[VERSION_TABLE := {}]

  // The schema a fresh install ends with.
  function Head(plan: seq<Migration>): Tables {
    Upgraded(EMPTY_SCHEMA, plan, 0).0
  }

  /** The bundled migrations install on an empty file, and none creates a table SQLite keeps to itself. */
  predicate Sound(plan: seq<Migration>) {
    && |plan| > 0
    && Upgraded(EMPTY_SCHEMA, plan, 0).2 == None
    && forall v :: 0 <= v < |plan| ==> forall op :: op in plan[v] ==> !Reserved(op.table) && op.table != VERSION_TABLE
  }

  function Lower(c: char): char {
    if 'A' <= c <= 'Z' then ((c as int) + 32) as char else c
  }

  // name LIKE 'sqlite_%': any case, and `_` stands for any one character.
  predicate Reserved(name: string) {
    && |name| >= 7
    && forall i :: 0 <= i < 6 ==> Lower(name[i]) == "sqlite"[i]
  }

  // SQL LIKE: `%` stands for any text, `_` for any one character, and letters match in either case.
  predicate Like(pattern: string, name: string)
    decreases |pattern| + |name|
  {
    if pattern == "" then name == ""
    else if pattern[0] == '%' then Like(pattern[1..], name) || (name != "" && Like(pattern, name[1..]))
    else name != "" && (pattern[0] == '_' || SameLetter(pattern[0], name[0])) && Like(pattern[1..], name[1..])
  }

  predicate SameLetter(a: char, b: char) {
    a == b || ('a' <= a <= 'z' && b as int == a as int - 32) || ('a' <= b <= 'z' && a as int == b as int - 32)
  }

  lemma {:induction false} PercentMatchesAll(name: string)
    ensures Like("%", name)
  {
    if name != "" { PercentMatchesAll(name[1..]); } else { assert "%"[1..] == ""; }
  }

  /** The reserved names are those the query excludes. */
  lemma ReservedIffLike(name: string)
    ensures Reserved(name) <==> Like("sqlite_%", name)
  {
    if name != "" { LikeAny("%", name); }
    LikeLetters("sqlite", "_%", name);
    if |name| >= 7 {
      LikeAny("%", name[6..]);
      PercentMatchesAll(name[6..][1..]);
    } else if |name| == 6 {
      assert name[6..] == "";
    }
    forall i | 0 <= i < 6 && |name| >= 6 ensures SameLetter("sqlite"[i], name[i]) <==> Lower(name[i]) == "sqlite"[i] {}
    assert "sqlite" + "_%" == "sqlite_%";
  }

  lemma LikeAny(rest: string, name: string)
    requires name != ""
    ensures Like("_" + rest, name) <==> Like(rest, name[1..])
  {
    assert ("_" + rest)[1..] == rest;
  }

  // A pattern that begins with plain letters matches what begins with them, in either case, and goes on to match.
  lemma {:induction false} LikeLetters(letters: string, rest: string, name: string)
    requires forall i :: 0 <= i < |letters| ==> 'a' <= letters[i] <= 'z'
    ensures Like(letters + rest, name) <==>
              && |name| >= |letters| && (forall i :: 0 <= i < |letters| ==> SameLetter(letters[i], name[i]))
              && Like(rest, name[|letters|..])
  {
    if letters == "" {
      assert letters + rest == rest && name[0..] == name;
    } else {
      assert (letters + rest)[1..] == letters[1..] + rest;
      if name != "" {
        LikeLetters(letters[1..], rest, name[1..]);
        assert |name| >= |letters| ==> name[1..][|letters| - 1..] == name[|letters|..];
        assert forall i :: 0 < i < |letters| && i < |name| ==>
          letters[1..][i - 1] == letters[i] && name[1..][i - 1] == name[i];
      }
    }
  }

  // ---------------------------------------------------------------- leftovers

  lemma {:induction false} ExecGrows(t: Tables, ops: seq<Ddl>)
    ensures t.Keys <= Exec(t, ops).0.Keys <= t.Keys + Creates(ops)
    ensures Exec(t, ops).1 == None ==> Exec(t, ops).0.Keys == t.Keys + Creates(ops)
    decreases |ops|
  {
    if ops != [] {
      assert Creates(ops) == Creates([ops[0]]) + Creates(ops[1..]) by { assert ops == [ops[0]] + ops[1..]; }
      if Check(t, ops[0]).None? {
        ExecGrows(Do(t, ops[0]), ops[1..]);
      }
    }
  }

  lemma {:induction false} ExecSplit(t: Tables, ops: seq<Ddl>, n: nat)
    requires n <= |ops|
    ensures var (u, e) := Exec(t, ops[..n]); Exec(t, ops) == if e.Some? then (u, e) else Exec(u, ops[n..])
    decreases |ops|
  {
    if n > 0 {
      assert ops[..n][0] == ops[0] && ops[..n][1..] == ops[1..][..n - 1] && ops[1..][n - 1..] == ops[n..];
      if Check(t, ops[0]).None? {
        ExecSplit(Do(t, ops[0]), ops[1..], n - 1);
      }
    } else {
      assert ops[..0] == [] && ops[0..] == ops;
    }
  }

  // Statements that work beside leftover tables work as if these were not there, or trip over one of them.
  lemma {:induction false} ExecBeside(t: Tables, l: Tables, ops: seq<Ddl>)
    requires t.Keys !! l.Keys && Exec(t, ops).1 == None
    ensures Creates(ops) !! l.Keys ==> Exec(t + l, ops) == (Exec(t, ops).0 + l, None)
    ensures !(Creates(ops) !! l.Keys) ==> Exec(t + l, ops).1 == Some(AlreadyExists)
    decreases |ops|
  {
    if ops != [] {
      assert Creates(ops) == Creates([ops[0]]) + Creates(ops[1..]) by { assert ops == [ops[0]] + ops[1..]; }
      assert ops[0] in [ops[0]];
      if ops[0].CreateTable? && ops[0].table in l {
        assert ops[0].table in Creates(ops);
      } else {
        var u := Do(t, ops[0]);
        assert Do(t + l, ops[0]) == u + l;
        assert ops[0].CreateTable? ==> ops[0].table !in l;
        ExecBeside(u, l, ops[1..]);
        assert Creates([ops[0]]) !! l.Keys;
      }
    }
  }

  // Statements about other tables leave a table alone.
  lemma {:induction false} ExecElsewhere(t: Tables, ops: seq<Ddl>, n: string)
    requires forall op :: op in ops ==> op.table != n
    ensures n in Exec(t, ops).0 <==> n in t
    ensures n in t ==> Exec(t, ops).0[n] == t[n]
    decreases |ops|
  {
    if ops != [] && Check(t, ops[0]).None? {
      assert ops[0] in ops;
      ExecElsewhere(Do(t, ops[0]), ops[1..], n);
    }
  }

  // The tables created by the migrations from `v` on.
  function CreatedFrom(plan: seq<Migration>, v: nat): set<string>
    decreases |plan| - v
  {
    if v >= |plan| then {} else Creates(plan[v]) + CreatedFrom(plan, v + 1)
  }

  lemma {:induction false} UpgradedBeside(t: Tables, l: Tables, plan: seq<Migration>, v: nat)
    requires t.Keys !! l.Keys && v <= |plan| && Upgraded(t, plan, v).2 == None
    ensures CreatedFrom(plan, v) !! l.Keys ==> Upgraded(t + l, plan, v) == (Upgraded(t, plan, v).0 + l, |plan|, None)
    ensures !(CreatedFrom(plan, v) !! l.Keys) ==>
              Upgraded(t + l, plan, v).2 == Some(AlreadyExists) && v <= Upgraded(t + l, plan, v).1 < |plan|
    ensures v < |plan| ==> (Upgraded(t + l, plan, v).1 == v <==> !(Creates(plan[v]) !! l.Keys))
    decreases |plan| - v
  {
    if v < |plan| {
      ExecBeside(t, l, plan[v]);
      ExecGrows(t, plan[v]);
      var u := Exec(t, plan[v]).0;
      if Creates(plan[v]) !! l.Keys {
        UpgradedBeside(u, l, plan, v + 1);
      }
    } else {
      assert CreatedFrom(plan, v) == {};
    }
  }

  // ---------------------------------------------------------------- a boot

  datatype BootResult = Ready | Died | Refused | Raised

  datatype Progress = Finished | Failed(error: DdlError) | Killed

  class Sidecar {
    var tables: Tables
    // The row of the version table, if there is one: how many migrations are committed.
    var version: Option<nat>
    const plan: seq<Migration>

    ghost predicate Valid()
      reads this
    {
      && Sound(plan)
      && (version.Some? ==> VERSION_TABLE in tables && 0 < version.value <= |plan|)
      && (VERSION_TABLE in tables ==> tables[VERSION_TABLE] == {})
    }

    // What a first run can leave behind before its first commit.
    ghost predicate HalfBuilt()
      reads this
      requires Valid()
    {
      version == None && HalfBuiltTables(tables, plan)
    }

    constructor (plan: seq<Migration>)
      requires Sound(plan)
      ensures Valid() && HalfBuilt() && this.plan == plan
    {
      this.plan := plan;
      tables, version := map[], None;
    }

    // One migration. `life` is the number of statements left before the process dies, if it does.
    method Apply(v: nat, life: Option<nat>) returns (r: Progress, left: Option<nat>, n: nat)
      requires v < |plan|
      modifies this`tables
      ensures n <= |plan[v]| && Exec(old(tables), plan[v][..n]) == (tables, None)
      ensures r.Finished? ==> Exec(old(tables), plan[v]) == (tables, None)
      ensures r.Failed? ==> Exec(old(tables), plan[v]) == (tables, Some(r.error))
      ensures life.None? ==> left.None? && !r.Killed?
    {
      left, n := life, 0;
      var ops := plan[v];
      assert ops[..0] == [];
      while n < |ops|
        invariant n <= |ops|
        invariant Exec(old(tables), ops[..n]) == (tables, None)
        invariant life.None? ==> left.None?
      {
        ExecSplit(old(tables), ops, n);
        ExecSplit(old(tables), ops[..n + 1], n);
        assert ops[..n + 1][..n] == ops[..n] && ops[..n + 1][n..] == [ops[n]];
        assert ops[n..][0] == ops[n];
        if left == Some(0) {
          return Killed, left, n;
        }
        var e := Check(tables, ops[n]);
        if e.Some? {
          return Failed(e.value), left, n;
        }
        tables := Do(tables, ops[n]);
        assert Exec(tables, []) == (tables, None);
        left := if left.Some? then Some(left.value - 1) else None;
        n := n + 1;
      }
      assert ops[..n] == ops;
      return Finished, left, n;
    }

    method CreateVersionTable(life: Option<nat>) returns (killed: bool, left: Option<nat>)
      requires Valid()
      modifies this`tables
      ensures Valid() && old(tables).Keys <= tables.Keys <= old(tables).Keys + {VERSION_TABLE}
      ensures NoneReserved(old(tables)) ==> NoneReserved(tables)
      ensures life.None? ==> left.None? && !killed
      ensures !killed ==> tables == WithVersionTable(old(tables))
      ensures VERSION_TABLE in old(tables) ==> !killed
    {
      left := life;
      if VERSION_TABLE !in tables {
        if left == Some(0) {
          return true, left;
        }
        VersionTableIsOurs();
        tables := tables[VERSION_TABLE := {}];
        left := OneLess(left);
      }
      return false, left;
    }

    /** `alembic upgrade head`. Each migration's version number is written when its last statement is through. */
    method Upgrade(life: Option<nat>) returns (r: Progress, left: Option<nat>, ghost cut: nat)
      requires Valid()
      modifies this
      ensures r.Killed? && old(version).Some? ==>
                version.Some? && CutOff(old(tables), old(version).value, plan, tables, version.value, cut)
      ensures Valid() && tables.Keys >= old(tables).Keys
      ensures old(version).Some? ==> version.Some?
      ensures old(HalfBuilt()) && version == None ==> HalfBuilt()
      ensures NoneReserved(old(tables)) ==> NoneReserved(tables)
      ensures life.None? ==> left.None? && !r.Killed?
      ensures !r.Killed? ==>
                Upgraded(WithVersionTable(old(tables)), plan, Committed(old(version)))
                == (tables, Committed(version), if r.Failed? then Some(r.error) else None)
    {
      hide Exec, NoneReserved, Reserved;
      var killed;
      cut := 0;
      killed, left := CreateVersionTable(life);
      if killed {
        return Killed, left, cut;
      }
      var v := Committed(version);
      ghost var start := tables;
      while v < |plan|
        invariant Valid() && v == Committed(version) <= |plan|
        invariant VERSION_TABLE in tables && tables.Keys >= old(tables).Keys
        invariant old(version).Some? ==> version.Some?
        invariant old(HalfBuilt()) && version == None ==> HalfBuilt()
        invariant NoneReserved(old(tables)) ==> NoneReserved(tables)
        invariant life.None? ==> left.None?
        invariant Upgraded(start, plan, Committed(old(version))) == Upgraded(tables, plan, v)
        decreases |plan| - v
      {
        ghost var before := tables;
        var n;
        r, left, n := Apply(v, left);
        cut := n;
        PartialMigration(before, plan[v], n);
        assert Upgraded(start, plan, Committed(old(version))) == Upgraded(before, plan, v);
        if !r.Finished? {
          return;
        }
        if left == Some(0) {
          return Killed, left, cut;
        }
        version := Some(v + 1);
        left := OneLess(left);
        v := v + 1;
      }
      return Finished, left, cut;
    }

    // The reset: every table that is not SQLite's own goes, one DROP at a time.
    method DropTables(life: Option<nat>) returns (killed: bool, left: Option<nat>)
      requires Valid() && version == None
      modifies this`tables
      ensures Valid() && tables.Keys <= old(tables).Keys
      ensures life.None? ==> left.None? && !killed
      ensures !killed ==> forall n :: n in tables ==> Reserved(n)
    {
      left := life;
      var names := set n | n in tables && !Reserved(n);
      while names != {}
        invariant Valid() && tables.Keys <= old(tables).Keys
        invariant forall n :: n in tables ==> Reserved(n) || n in names
        invariant life.None? ==> left.None?
        decreases names
      {
        if left == Some(0) {
          return true, left;
        }
        var n :| n in names;
        names := names - {n};
        tables := tables - {n};
        left := OneLess(left);
      }
      return false, left;
    }

    /** A whole boot. With no version committed, an uninterrupted boot gets to head exactly when the leftovers
        collide with the first migration, which resets them, or with none at all. With a version committed no boot
        drops anything. */
    method Boot(life: Option<nat>) returns (r: BootResult, ghost cut: nat)
      requires Valid()
      modifies this
      ensures Valid()
      ensures r == Died && old(version).Some? ==>
                version.Some? && CutOff(old(tables), old(version).value, plan, tables, version.value, cut)
      ensures old(version).Some? ==> version.Some? && tables.Keys >= old(tables).Keys
      ensures old(HalfBuilt()) && version == None ==> HalfBuilt()
      ensures life.None? ==> r != Died
      ensures life.None? && old(version) == None && NoneReserved(old(tables)) ==>
                (r == Ready <==> Recoverable(old(tables), plan)) && (r == Ready || r == Refused)
      ensures r != Died && old(version).Some? ==>
                var u := Upgraded(old(tables), plan, old(version).value);
                && r == (if u.2 == None then Ready else if u.2 == Some(AlreadyExists) then Refused else Raised)
                && tables == u.0
      ensures life.None? && old(HalfBuilt()) ==> r == Ready && tables == Head(plan) && version == Some(|plan|)
    {
      var p, left;
      p, left, cut := Upgrade(life);
      FirstUpgrade(old(tables), plan);
      HeadIsReached(plan);
      VersionTableIsOurs();
      assert HalfBuiltTables(old(tables), plan) ==> NoneReserved(old(tables));
      match p {
        case Finished => return Ready, cut;
        case Killed => return Died, cut;
        case Failed(OtherError) => return Raised, cut;
        case Failed(AlreadyExists) =>
      }
      if version.Some? {
        return Refused, cut;
      }
      var killed;
      killed, left := DropTables(left);
      if killed {
        return Died, cut;
      }
      ghost var cleared := tables;
      p, left, cut := Upgrade(left);
      assert NoneReserved(old(tables)) ==> cleared.Keys == {};
      assert cleared.Keys == {} ==> WithVersionTable(cleared) == EMPTY_SCHEMA;
      match p {
        case Finished => return Ready, cut;
        case Killed => return Died, cut;
        case Failed(_) => return Raised, cut;
      }
    }

    /** Any number of boots cut short anywhere, and then one that is not: as long as nothing was committed, it
        reaches head, with exactly the tables of a fresh install. */
    method BootAfterCrashes(lives: seq<nat>) returns (r: BootResult, committedEarly: bool)
      requires Valid() && HalfBuilt()
      modifies this
      ensures Valid()
      ensures !committedEarly ==> r == Ready && tables == Head(plan) && version == Some(|plan|)
    {
      var i := 0;
      while i < |lives|
        invariant 0 <= i <= |lives| && Valid() && HalfBuilt()
      {
        ghost var cut;
        r, cut := Boot(Some(lives[i]));
        if version.Some? {
          return r, true;
        }
        i := i + 1;
      }
      ghost var cut;
      r, cut := Boot(None);
      return r, false;
    }

    /** A boot of a file with a committed version that dies, and then a whole one. The second gets to head exactly when
        the first died between two migrations, with no statement of the next one done. */
    method BootAfterLateCrash(life: nat) returns (first: BootResult, second: BootResult, ghost cut: nat)
      requires Valid() && version.Some? && Upgraded(tables, plan, version.value).2 == None
      modifies this
      ensures Valid()
      ensures first == Died || first == Ready
      ensures first == Died ==>
                (second == Ready <==> cut == 0)
                && exists t, v :: CutOff(old(tables), old(version).value, plan, t, v, cut)
      ensures second == Ready ==> tables == Upgraded(old(tables), plan, old(version).value).0
    {
      first, cut := Boot(Some(life));
      if first == Died {
        ghost var mid :| Upgraded(old(tables), plan, old(version).value) == Upgraded(mid, plan, version.value)
                         && Exec(mid, plan[version.value][..cut]) == (tables, None);
        RestartIff(mid, plan, version.value, cut);
        assert cut == 0 ==> tables == mid;
        ghost var v, t := version.value, tables;
        ghost var again;
        second, again := Boot(None);
      } else {
        second := first;
      }
    }
  }

  // What part of a migration does to the table names.
  lemma PartialMigration(t: Tables, ops: Migration, n: nat)
    requires n <= |ops| && forall op :: op in ops ==> !Reserved(op.table) && op.table != VERSION_TABLE
    ensures var u := Exec(t, ops[..n]).0;
      && t.Keys <= u.Keys <= t.Keys + Creates(ops)
      && (VERSION_TABLE in t ==> u[VERSION_TABLE] == t[VERSION_TABLE])
      && (NoneReserved(t) ==> NoneReserved(u))
  {
    ExecGrows(t, ops[..n]);
    ExecElsewhere(t, ops[..n], VERSION_TABLE);
    assert Creates(ops[..n]) <= Creates(ops);
  }

  function OneLess(left: Option<nat>): Option<nat>
    requires left != Some(0)
  {
    if left.Some? then Some(left.value - 1) else None
  }

  function Committed(version: Option<nat>): nat {
    if version.Some? then version.value else 0
  }

  function WithVersionTable(t: Tables): Tables {
    if VERSION_TABLE in t then t else t[VERSION_TABLE := {}]
  }

  predicate NoneReserved(t: Tables) {
    forall n :: n in t ==> !Reserved(n)
  }

  // Leftover tables clash with the first migration, or with no migration.
  predicate Recoverable(t: Tables, plan: seq<Migration>)
    requires |plan| > 0
  {
    var names := t.Keys - {VERSION_TABLE};
    !(Creates(plan[0]) !! names) || CreatedFrom(plan, 0) !! names
  }

  predicate HalfBuiltTables(t: Tables, plan: seq<Migration>)
    requires |plan| > 0
  {
    t.Keys <= Creates(plan[0]) + {VERSION_TABLE}
  }

  lemma HeadIsReached(plan: seq<Migration>)
    requires Sound(plan)
    ensures Upgraded(EMPTY_SCHEMA, plan, 0) == (Head(plan), |plan|, None)
  {
    UpgradedBeside(EMPTY_SCHEMA, map[], plan, 0);
    assert EMPTY_SCHEMA + map[] == EMPTY_SCHEMA;
  }

  lemma VersionTableIsOurs()
    ensures !Reserved(VERSION_TABLE)
  {
    assert Lower(VERSION_TABLE[0]) != "sqlite"[0];
  }

  // How the first upgrade of a file with leftover tables goes.
  lemma FirstUpgrade(t: Tables, plan: seq<Migration>)
    requires Sound(plan) && (VERSION_TABLE in t ==> t[VERSION_TABLE] == {})
    ensures var names := t.Keys - {VERSION_TABLE}; var u := Upgraded(WithVersionTable(t), plan, 0);
      && (u.2 == None <==> CreatedFrom(plan, 0) !! names)
      && (u.2 == None || u.2 == Some(AlreadyExists))
      && (u.2 == None ==> u.1 == |plan|)
      && (u.1 == 0 <==> !(Creates(plan[0]) !! names))
      && (HalfBuiltTables(t, plan) ==> (u.2 == None && u.0 == Head(plan)) || u.1 == 0)
  {
    var l := Leftovers(t);
    UpgradedBeside(EMPTY_SCHEMA, l, plan, 0);
    if HalfBuiltTables(t, plan) && Creates(plan[0]) !! l.Keys {
      assert l.Keys == {};
      HeadIsReached(plan);
    }
  }

  // The file is an empty schema and the leftovers beside it.
  lemma Leftovers(t: Tables) returns (l: Tables)
    requires VERSION_TABLE in t ==> t[VERSION_TABLE] == {}
    ensures l.Keys == t.Keys - {VERSION_TABLE} && l.Keys !! EMPTY_SCHEMA.Keys
    ensures WithVersionTable(t) == EMPTY_SCHEMA + l
    ensures l.Keys == {} ==> WithVersionTable(t) == EMPTY_SCHEMA
  {
    l := t - {VERSION_TABLE};
    assert WithVersionTable(t) == EMPTY_SCHEMA + l;
  }

  // `t` is what an upgrade from version `v0` leaves that dies after `n` statements of migration `v`.
  ghost predicate CutOff(t0: Tables, v0: nat, plan: seq<Migration>, t: Tables, v: nat, n: nat) {
    && v < |plan| && n <= |plan[v]|
    && exists mid :: Upgraded(t0, plan, v0) == Upgraded(mid, plan, v) && Exec(mid, plan[v][..n]) == (t, None)
  }

  // Columns are never dropped.
  lemma {:induction false} ColumnsGrow(t: Tables, ops: seq<Ddl>, n: string)
    requires n in t
    ensures n in Exec(t, ops).0 && t[n] <= Exec(t, ops).0[n]
    decreases |ops|
  {
    if ops != [] && Check(t, ops[0]).None? {
      ColumnsGrow(Do(t, ops[0]), ops[1..], n);
    }
  }

  // A statement that has been done fails when it is tried again, whatever else was done since.
  lemma DoneOnce(t: Tables, op: Ddl, rest: seq<Ddl>)
    requires Check(t, op).None?
    ensures Check(Exec(Do(t, op), rest).0, op) ==
            Some(if op.CreateTable? then AlreadyExists else OtherError)
  {
    ColumnsGrow(Do(t, op), rest, op.table);
  }

  /** Where recovery ends: after `n` statements of a migration that would have gone through, running it again goes
      through exactly when none had been done. */
  lemma RestartIff(t: Tables, plan: seq<Migration>, v: nat, n: nat)
    requires v < |plan| && n <= |plan[v]| && Upgraded(t, plan, v).2 == None
    ensures Exec(t, plan[v][..n]).1 == None
    ensures var left := Exec(t, plan[v][..n]).0;
      && (Upgraded(left, plan, v).2 == None <==> n == 0)
      && (n > 0 ==>
           Upgraded(left, plan, v) == (left, v, Some(if plan[v][0].CreateTable? then AlreadyExists else OtherError)))
  {
    ExecSplit(t, plan[v], n);
    if n > 0 {
      var ops := plan[v][..n];
      assert ops[0] == plan[v][0];
      DoneOnce(t, ops[0], ops[1..]);
    } else {
      assert plan[v][..0] == [];
    }
  }
}
