/** The desktop sidecar's environment: the `.env` loader, the built-in defaults and the signing key. */
module DotEnv {
  import opened Prelude
  import opened Strings

  // ---------------------------------------------------------------------
  // One line
  // ---------------------------------------------------------------------

  predicate IsDouble(c: char) { c == '"' }

  predicate IsSingle(c: char) { c == '\'' }

  /** The position of the first equals sign, or the length when there is none. */
  function Equals(s: string): (i: nat)
    ensures i <= |s| && (i < |s| ==> s[i] == '=') && forall k :: 0 <= k < i ==> s[k] != '='
  {
    if s == "" || s[0] == '=' then 0 else 1 + Equals(s[1..])
  }

  /** Outer spaces go first, then double quotes, then single ones. */
  function Unquoted(s: string): string { Strip(Strip(Strip(s, IsSpace), IsDouble), IsSingle) }

  /** Blank lines, comments, lines without an equals sign and lines without a key are skipped. */
  function ParseLine(raw: string): (r: Option<(string, string)>)
    ensures r.Some? ==> r.value.0 != ""
  {
    var line := Strip(raw, IsSpace);
    if line == "" || line[0] == '#' || Equals(line) == |line| then None
    else
      var i := Equals(line);
      var key := Strip(line[..i], IsSpace);
      if key == "" then None else Some((key, Unquoted(line[i + 1..])))
  }

  /** A key that a line can spell: not empty, no equals sign, no outer space, not a comment. */
  predicate IsKey(key: string) {
    key != "" && key[0] != '#' && '=' !in key && Bare(key, IsSpace)
  }

  lemma EqualsAt(key: string, rest: string)
    requires '=' !in key
    ensures Equals(key + "=" + rest) == |key|
  {
    var s := key + "=" + rest;
    assert s[|key|] == '=';
    forall k | 0 <= k < |key| ensures s[k] != '=' { assert s[k] == key[k]; }
  }

  lemma ParsesAs(key: string, written: string)
    requires IsKey(key) && Bare(key + "=" + written, IsSpace)
    ensures ParseLine(key + "=" + written) == Some((key, Unquoted(written)))
  {
    hide IsSpace, Strip, Unquoted, Equals;
    var line := key + "=" + written;
    StripKeepsIff(line, IsSpace);
    StripKeepsIff(key, IsSpace);
    EqualsAt(key, written);
    assert line[..|key|] == key && line[|key| + 1..] == written;
    assert line[0] == key[0];
  }

  lemma NotSpaces()
    ensures !IsSpace('"') && !IsSpace('=')
  {}

  // No quote of either kind stands at an end.
  predicate Unended(v: string) {
    v != "" ==> v[0] !in {'"', '\''} && v[|v| - 1] !in {'"', '\''}
  }

  /** A value can be written between double quotes exactly when no quote of either kind ends it. */
  lemma QuotedParsesIff(key: string, v: string)
    requires IsKey(key)
    ensures ParseLine(key + "=" + ("\"" + v + "\"")) == Some((key, v)) <==> Unended(v)
  {
    hide IsSpace, Strip, ParseLine;
    var written := "\"" + v + "\"";
    NotSpaces();
    var line := key + "=" + written;
    assert line[0] == key[0] && line[|line| - 1] == '"';
    ParsesAs(key, written);
    StripKeepsIff(written, IsSpace);
    StripWrapped('"', v, IsDouble);
    StripKeepsIff(v, IsDouble);
    StripKeepsIff(v, IsSingle);
    ShorterMeansStripped(v);
  }

  /** Two strips give the string back only when neither removed anything. */
  lemma ShorterMeansStripped(v: string)
    ensures Strip(Strip(v, IsDouble), IsSingle) == v ==> Strip(v, IsDouble) == v
  {
    var d := Strip(v, IsDouble);
    assert |Strip(d, IsSingle)| <= |d| <= |v|;
    if |d| == |v| {
      var l := DropLeft(v, IsDouble);
      assert l == v;
    }
  }

  /** Written without quotes, outer spaces are lost as well; an empty value parses too. */
  lemma PlainParsesIff(key: string, v: string)
    requires IsKey(key) && Bare(v, IsSpace)
    ensures ParseLine(key + "=" + v) == Some((key, v)) <==> Unended(v)
  {
    hide IsSpace, Strip, ParseLine;
    NotSpaces();
    var line := key + "=" + v;
    assert line[0] == key[0] && line[|line| - 1] == if v == "" then '=' else v[|v| - 1];
    ParsesAs(key, v);
    StripKeepsIff(v, IsSpace);
    StripKeepsIff(v, IsDouble);
    StripKeepsIff(v, IsSingle);
    ShorterMeansStripped(v);
  }

  // ---------------------------------------------------------------------
  // The whole file
  // ---------------------------------------------------------------------

  type Env = map<string, string>

  /** Sets a variable only when it is not set yet. */
  function Default(env: Env, key: string, value: string): Env {
    if key in env then env else env[key := value]
  }

  function LoadLine(env: Env, line: string): Env {
    match ParseLine(line)
    case None => env
    case Some((key, value)) => Default(env, key, value)
  }

  function Loaded(env: Env, lines: seq<string>): Env {
    if lines == [] then env else LoadLine(Loaded(env, lines[..|lines| - 1]), lines[|lines| - 1])
  }

  /** The value of the first line that sets `key`. */
  function FirstValue(lines: seq<string>, key: string): Option<string> {
    if lines == [] then None
    else match ParseLine(lines[0])
      case Some((k, v)) => if k == key then Some(v) else FirstValue(lines[1..], key)
      case None => FirstValue(lines[1..], key)
  }

  function Lookup(env: Env, key: string): Option<string> {
    if key in env then Some(env[key]) else None
  }

  function OrElse(a: Option<string>, b: Option<string>): Option<string> {
    if a.Some? then a else b
  }

  lemma {:induction false} FirstValueSnoc(lines: seq<string>, last: string, key: string)
    ensures FirstValue(lines + [last], key) == OrElse(FirstValue(lines, key), FirstValue([last], key))
  {
    if lines == [] {
      assert lines + [last] == [last];
    } else {
      assert (lines + [last])[1..] == lines[1..] + [last];
      FirstValueSnoc(lines[1..], last, key);
    }
  }

  /** A set variable is left alone; any other gets the value of its first valid line, if it has one. */
  lemma {:induction false} LoadedIs(env: Env, lines: seq<string>, key: string)
    ensures Lookup(Loaded(env, lines), key) == OrElse(Lookup(env, key), FirstValue(lines, key))
  {
    hide ParseLine;
    if lines != [] {
      var init := lines[..|lines| - 1];
      var last := lines[|lines| - 1];
      LoadedIs(env, init, key);
      FirstValueSnoc(init, last, key);
      assert init + [last] == lines;
      assert FirstValue([last], key) ==
        match ParseLine(last) case None => None case Some((k, v)) => if k == key then Some(v) else None;
    }
  }

  lemma SameLookups(a: Env, b: Env)
    requires forall key :: Lookup(a, key) == Lookup(b, key)
    ensures a == b
  {
    forall key ensures key in a <==> key in b { assert Lookup(a, key) == Lookup(b, key); }
    forall key | key in a ensures a[key] == b[key] { assert Lookup(a, key) == Lookup(b, key); }
  }

  /** Loading a file again changes nothing. */
  lemma LoadingTwiceIsOnce(env: Env, lines: seq<string>)
    ensures Loaded(Loaded(env, lines), lines) == Loaded(env, lines)
  {
    var once := Loaded(env, lines);
    forall key ensures Lookup(Loaded(once, lines), key) == Lookup(once, key) {
      LoadedIs(env, lines, key);
      LoadedIs(once, lines, key);
    }
    SameLookups(Loaded(once, lines), once);
  }

  // ---------------------------------------------------------------------
  // The signing key
  // ---------------------------------------------------------------------

  const MIN_KEY: nat := 32

  /** The variable the key is kept in. */
  const SECRET_KEY: string := "SECRET_KEY"

  predicate LongEnough(s: string) { |Strip(s, IsSpace)| >= MIN_KEY }

  /** The key and the content of the key file afterwards; `stored` is None when it cannot be read. */
  function EnsuredKey(env: Env, stored: Option<string>, minted: string, writable: bool): (string, Option<string>) {
    if SECRET_KEY in env && LongEnough(env[SECRET_KEY]) then (Strip(env[SECRET_KEY], IsSpace), stored)
    else if stored.Some? && LongEnough(stored.value) then (Strip(stored.value, IsSpace), stored)
    else (minted, if writable then Some(minted) else stored)
  }

  // ---------------------------------------------------------------------
  // The process environment
  // ---------------------------------------------------------------------

  /** The built-in defaults, apart from the signing key. */
  function BuiltIn(home: string): seq<(string, string)> {
    [("DEPLOYMENT_MODE", "desktop"), ("DEPLOYMENT_ENV", "desktop"), ("OPENSAIL_HOME", home),
     ("DATABASE_URL", "sqlite+aiosqlite:///" + home + "/opensail.db"), ("REDIS_URL", "")]
  }

  function Defaulted(env: Env, pairs: seq<(string, string)>): Env {
    if pairs == [] then env
    else Default(Defaulted(env, pairs[..|pairs| - 1]), pairs[|pairs| - 1].0, pairs[|pairs| - 1].1)
  }

  function FirstPair(pairs: seq<(string, string)>, key: string): Option<string> {
    if pairs == [] then None
    else if FirstPair(pairs[..|pairs| - 1], key).Some? then FirstPair(pairs[..|pairs| - 1], key)
    else if pairs[|pairs| - 1].0 == key then Some(pairs[|pairs| - 1].1)
    else None
  }

  lemma {:induction false} DefaultedIs(env: Env, pairs: seq<(string, string)>, key: string)
    ensures Lookup(Defaulted(env, pairs), key) == OrElse(Lookup(env, key), FirstPair(pairs, key))
  {
    if pairs != [] { DefaultedIs(env, pairs[..|pairs| - 1], key); }
  }

  /** The environment after configuring, and the key file. `lines` is empty when there is no file. */
  function Configured(env: Env, lines: seq<string>, home: string, stored: Option<string>, minted: string,
                      writable: bool)
    : (Env, Option<string>)
  {
    var e := Defaulted(Loaded(env, lines), BuiltIn(home));
    var (key, file) := EnsuredKey(e, stored, minted, writable);
    (Default(e, SECRET_KEY, key), file)
  }

  /** The process environment wins over the file, and the file over the built-in default. */
  lemma Precedence(env: Env, lines: seq<string>, home: string, stored: Option<string>, minted: string, writable: bool,
                   key: string)
    requires key != SECRET_KEY
    ensures var after := Configured(env, lines, home, stored, minted, writable).0;
            Lookup(after, key) ==
              OrElse(Lookup(env, key), OrElse(FirstValue(lines, key), FirstPair(BuiltIn(home), key)))
  {
    hide BuiltIn, Loaded, FirstValue, Defaulted, FirstPair, EnsuredKey;
    LoadedIs(env, lines, key);
    DefaultedIs(Loaded(env, lines), BuiltIn(home), key);
  }

  lemma {:induction false} FirstPairAt(pairs: seq<(string, string)>, k: nat)
    requires k < |pairs| && forall j :: 0 <= j < k ==> pairs[j].0 != pairs[k].0
    ensures FirstPair(pairs, pairs[k].0) == Some(pairs[k].1)
    decreases |pairs|
  {
    var init := pairs[..|pairs| - 1];
    if k < |init| {
      assert init[k] == pairs[k] && forall j :: 0 <= j < k ==> init[j] == pairs[j];
      FirstPairAt(init, k);
    } else {
      assert forall j :: 0 <= j < k ==> init[j] == pairs[j];
      Absent(init, pairs[k].0);
    }
  }

  // What the configuration leaves in a variable that neither the process nor the file sets.
  predicate DefaultsTo(env: Env, lines: seq<string>, after: Env, key: string, value: string) {
    Lookup(env, key) == None && FirstValue(lines, key) == None ==> Lookup(after, key) == Some(value)
  }

  /** The defaults: desktop mode and environment, the given home, a database file below it, and no Redis. */
  lemma DefaultsAre(env: Env, lines: seq<string>, home: string, stored: Option<string>, minted: string, writable: bool)
    ensures var after := Configured(env, lines, home, stored, minted, writable).0;
      && DefaultsTo(env, lines, after, "DEPLOYMENT_MODE", "desktop")
      && DefaultsTo(env, lines, after, "DEPLOYMENT_ENV", "desktop")
      && DefaultsTo(env, lines, after, "OPENSAIL_HOME", home)
      && DefaultsTo(env, lines, after, "DATABASE_URL", "sqlite+aiosqlite:///" + home + "/opensail.db")
      && DefaultsTo(env, lines, after, "REDIS_URL", "")
  {
    hide Configured, FirstValue, Loaded;
    var pairs := BuiltIn(home);
    Differ();
    forall k | 0 <= k < 5
      ensures pairs[k].0 != SECRET_KEY
      ensures FirstPair(pairs, pairs[k].0) == Some(pairs[k].1)
    {
      assert forall j :: 0 <= j < k ==> |pairs[j].0| != |pairs[k].0|;
      FirstPairAt(pairs, k);
    }
    hide FirstPair;
    forall k | 0 <= k < 5
      ensures DefaultsTo(env, lines, Configured(env, lines, home, stored, minted, writable).0, pairs[k].0, pairs[k].1)
    {
      Precedence(env, lines, home, stored, minted, writable, pairs[k].0);
    }
    var after := Configured(env, lines, home, stored, minted, writable).0;
    assert DefaultsTo(env, lines, after, pairs[0].0, pairs[0].1) &&
      DefaultsTo(env, lines, after, pairs[1].0, pairs[1].1);
    assert DefaultsTo(env, lines, after, pairs[2].0, pairs[2].1) &&
      DefaultsTo(env, lines, after, pairs[3].0, pairs[3].1);
    assert DefaultsTo(env, lines, after, pairs[4].0, pairs[4].1);
  }

  lemma NoBuiltInKey(home: string)
    ensures FirstPair(BuiltIn(home), SECRET_KEY) == None
  {
    var pairs := BuiltIn(home);
    Differ();
    Absent(pairs, SECRET_KEY);
  }

  lemma {:induction false} Absent(pairs: seq<(string, string)>, key: string)
    requires forall k :: 0 <= k < |pairs| ==> pairs[k].0 != key
    ensures FirstPair(pairs, key) == None
  {
    if pairs != [] { Absent(pairs[..|pairs| - 1], key); }
  }

  lemma Differ()
    ensures SECRET_KEY !in {"DEPLOYMENT_MODE", "DEPLOYMENT_ENV", "OPENSAIL_HOME", "DATABASE_URL", "REDIS_URL"}
  {
    assert SECRET_KEY[0] != "DEPLOYMENT_MODE"[0] && SECRET_KEY[0] != "DATABASE_URL"[0];
    assert SECRET_KEY[0] != "OPENSAIL_HOME"[0] && SECRET_KEY[0] != "REDIS_URL"[0];
  }

  /** What the user set the signing key to, in the process or in the file. */
  function UserKey(env: Env, lines: seq<string>): Option<string> {
    OrElse(Lookup(env, SECRET_KEY), FirstValue(lines, SECRET_KEY))
  }

  lemma ConfiguredKey(env: Env, lines: seq<string>, home: string, stored: Option<string>, minted: string,
                      writable: bool)
    ensures var (after, file) := Configured(env, lines, home, stored, minted, writable);
            var user := UserKey(env, lines);
            SECRET_KEY in after
            && (user.Some? ==> after[SECRET_KEY] == user.value)
            && (user.None? ==>
                 after[SECRET_KEY] ==
                 if stored.Some? && LongEnough(stored.value) then Strip(stored.value, IsSpace) else minted)
            && file ==
               if (user.Some? && LongEnough(user.value)) || (stored.Some? && LongEnough(stored.value)) || !writable
               then stored else Some(minted)
  {
    hide BuiltIn, Loaded, FirstValue, Defaulted, FirstPair;
    LoadedIs(env, lines, SECRET_KEY);
    NoBuiltInKey(home);
    DefaultedIs(Loaded(env, lines), BuiltIn(home), SECRET_KEY);
  }

  /**
    * The configured key is long enough exactly when the user left it unset or set a long one: a
    * short or empty setting is replaced in the return value but not in the environment.
    */
  lemma KeyIsLongIff(env: Env, lines: seq<string>, home: string, stored: Option<string>, minted: string, writable: bool)
    requires |minted| >= 32 && Bare(minted, IsSpace)
    ensures var after := Configured(env, lines, home, stored, minted, writable).0;
            SECRET_KEY in after
            && (32 <= |Strip(after[SECRET_KEY], IsSpace)| <==>
                  UserKey(env, lines).None? || 32 <= |Strip(UserKey(env, lines).value, IsSpace)|)
  {
    hide Loaded, FirstValue, Configured, IsSpace, Strip;
    ConfiguredKey(env, lines, home, stored, minted, writable);
    StripKeepsIff(minted, IsSpace);
    if stored.Some? {
      StripKeepsIff(stored.value, IsSpace);
      StripKeepsIff(Strip(stored.value, IsSpace), IsSpace);
    }
  }

  /**
    * Across two boots with an unset key, tokens stay valid when the first boot could write the key
    * file or had read a good one: the second boot ends with the same key whatever it mints.
    */
  lemma KeySurvivesRestart(
    env: Env, lines: seq<string>, home: string, stored: Option<string>, minted: string, writable: bool,
    again: string, writableAgain: bool)
    requires |minted| >= MIN_KEY && Bare(minted, IsSpace) && UserKey(env, lines).None?
    requires writable || (stored.Some? && LongEnough(stored.value))
    ensures var first := Configured(env, lines, home, stored, minted, writable);
            var second := Configured(env, lines, home, first.1, again, writableAgain);
            SECRET_KEY in first.0 && SECRET_KEY in second.0 && first.0[SECRET_KEY] == second.0[SECRET_KEY]
  {
    hide Loaded, FirstValue, Configured, IsSpace, Strip;
    ConfiguredKey(env, lines, home, stored, minted, writable);
    ConfiguredKey(env, lines, home, Configured(env, lines, home, stored, minted, writable).1, again, writableAgain);
    StripKeepsIff(minted, IsSpace);
  }

  // ---------------------------------------------------------------------
  // The code, changing the environment in place
  // ---------------------------------------------------------------------

  class Process {
    var vars: Env
    var keyFile: Option<string>

    constructor (env: Env, stored: Option<string>)
      ensures vars == env && keyFile == stored
    {
      vars, keyFile := env, stored;
    }

    method LoadDotEnv(lines: Option<seq<string>>)
      modifies this`vars
      ensures vars == Loaded(old(vars), if lines.Some? then lines.value else [])
    {
      hide IsSpace, Strip, Unquoted, Equals;
      if lines.None? { return; }
      var all := lines.value;
      for i := 0 to |all|
        invariant vars == Loaded(old(vars), all[..i])
      {
        assert all[..i + 1][..i] == all[..i];
        var line := Strip(all[i], IsSpace);
        if line == "" || line[0] == '#' { continue; }
        var at := Equals(line);
        if at == |line| { continue; }
        var key := Strip(line[..at], IsSpace);
        var value := Unquoted(line[at + 1..]);
        if key != "" && key !in vars { vars := vars[key := value]; }
      }
      assert all[..|all|] == all;
    }

    method SetDefault(key: string, value: string)
      modifies this`vars
      ensures vars == Default(old(vars), key, value)
    {
      if key !in vars { vars := vars[key := value]; }
    }

    method EnsureSecretKey(minted: string, writable: bool) returns (key: string)
      modifies this`keyFile
      ensures (key, keyFile) == EnsuredKey(vars, old(keyFile), minted, writable)
    {
      hide IsSpace, Strip;
      if SECRET_KEY in vars {
        var existing := Strip(vars[SECRET_KEY], IsSpace);
        if |existing| >= MIN_KEY { return existing; }
      }
      if keyFile.Some? {
        var stored := Strip(keyFile.value, IsSpace);
        if |stored| >= MIN_KEY { return stored; }
      }
      if writable { keyFile := Some(minted); }
      return minted;
    }

    method ConfigureEnvironment(lines: Option<seq<string>>, home: string, minted: string, writable: bool)
      modifies this
      ensures (vars, keyFile) ==
              Configured(old(vars), if lines.Some? then lines.value else [], home, old(keyFile), minted, writable)
    {
      hide Loaded, Default, EnsuredKey, BuiltIn;
      ghost var was := vars;
      LoadDotEnv(lines);
      ghost var loaded := vars;
      var pairs := BuiltIn(home);
      for i := 0 to |pairs|
        invariant vars == Defaulted(loaded, pairs[..i]) && keyFile == old(keyFile)
      {
        assert pairs[..i + 1][..i] == pairs[..i];
        SetDefault(pairs[i].0, pairs[i].1);
      }
      assert pairs[..|pairs|] == pairs;
      var secret := EnsureSecretKey(minted, writable);
      SetDefault(SECRET_KEY, secret);
    }
  }
}
