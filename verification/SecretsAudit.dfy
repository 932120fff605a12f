/** The audit of container variables before their secrets move to an encrypted column. */
module SecretsAudit {
  import opened Prelude
  import opened Utf8
  import Base64

  // ---------------------------------------------------------------------
  // The detector
  // ---------------------------------------------------------------------

  /** A space or above, or one of newline, carriage return and tab. */
  predicate Printable(c: Scalar) { c >= 32 || c == 10 || c == 13 || c == 9 }

  predicate AllPrintable(text: Text) {
    forall k :: 0 <= k < |text| ==> Printable(text[k])
  }

  predicate AllInAlphabet(v: Text) {
    forall k :: 0 <= k < |v| ==> Base64.InAlphabet(v[k])
  }

  /** The anchored pattern. Its end anchor also matches before one final newline. */
  predicate PatternMatches(v: Text) {
    || (v != [] && AllInAlphabet(v))
    || (|v| > 1 && v[|v| - 1] == 10 && AllInAlphabet(v[..|v| - 1]))
  }

  /** The text that a value spells in base 64, if it spells one. */
  function Spelled(v: Text): Option<Text> {
    match Base64.Decode(v)
    case None => None
    case Some(bs) => Utf8.Decode(bs)
  }

  predicate LooksBase64(v: Text) {
    && v != [] && |v| >= 8 && |v| % 4 == 0
    && PatternMatches(v)
    && Spelled(v).Some? && AllPrintable(Spelled(v).value)
  }

  /** The base 64 form of a text. */
  function Spell(text: Text): Text { Base64.Encode(Utf8.Encode(text)) }

  lemma SpelledSpell(text: Text)
    ensures Spelled(Spell(text)) == Some(text)
  {
    Base64.DecodeEncode(Utf8.Encode(text));
    Utf8.DecodeEncode(text);
  }

  /** Only the length and what the value decodes to matter: the other two tests follow. */
  lemma PatternIsRedundant(v: Text)
    ensures LooksBase64(v) <==> |v| >= 8 && Spelled(v).Some? && AllPrintable(Spelled(v).value)
  {
    if Spelled(v).Some? { Base64.DecodableShape(v); }
  }

  /** The detector accepts exactly the decodable values of eight or more characters that spell printable text. */
  lemma AcceptsIff(v: Text)
    ensures LooksBase64(v) <==>
              |v| >= 8 && exists text :: AllPrintable(text) && Base64.Decode(v) == Some(Utf8.Encode(text))
  {
    PatternIsRedundant(v);
    if |v| >= 8 && Spelled(v).Some? && AllPrintable(Spelled(v).value) {
      Utf8.EncodeDecode(Base64.Decode(v).value);
      assert AllPrintable(Spelled(v).value) && Base64.Decode(v) == Some(Utf8.Encode(Spelled(v).value));
    }
    if text :| AllPrintable(text) && Base64.Decode(v) == Some(Utf8.Encode(text)) {
      Utf8.DecodeEncode(text);
    }
  }

  /**
    * On the base 64 form of a text the detector says yes exactly when the text is printable and
    * takes at least four bytes, since shorter texts encode to fewer than eight characters.
    */
  lemma ExactOnEncodings(text: Text)
    ensures LooksBase64(Spell(text)) <==>
              (forall k :: 0 <= k < |text| ==> 32 <= text[k] || text[k] in {9, 10, 13}) && |Utf8.Encode(text)| >= 4
  {
    hide Spelled, LooksBase64, AllPrintable, Utf8.Encode, Base64.Encode;
    PrintableIs(text);
    SpelledSpell(text);
    PatternIsRedundant(Spell(text));
  }

  lemma PrintableIs(text: Text)
    ensures AllPrintable(text) <==> forall k :: 0 <= k < |text| ==> 32 <= text[k] || text[k] in {9, 10, 13}
  {}

  // ---------------------------------------------------------------------
  // The audit
  // ---------------------------------------------------------------------

  type Key = string

  /** Values come from a JSON column, so some are not strings. */
  datatype Value = Str(text: Text) | NotAString

  /** `env` lists the variables in their stored order; `encrypted` holds plaintexts, cipher aside. */
  datatype Container = Container(id: nat, env: seq<(Key, Value)>, encrypted: map<Key, Text>, preset: set<Key>)

  datatype Class = PresetSecret | RegexSecret | Ambiguous | Plain

  /** The key pattern stands for an arbitrary test on keys. */
  function Classify(c: Container, e: (Key, Value), secretKey: Key -> bool): Class {
    if e.0 in c.preset then PresetSecret
    else if secretKey(e.0) then RegexSecret
    else if e.1.Str? && LooksBase64(e.1.text) then Ambiguous
    else Plain
  }

  predicate IsSecret(c: Container, key: Key, secretKey: Key -> bool) {
    key in c.preset || secretKey(key)
  }

  /** Entries of one class. */
  function Count(c: Container, env: seq<(Key, Value)>, k: Class, secretKey: Key -> bool): nat {
    if env == [] then 0
    else Count(c, env[..|env| - 1], k, secretKey) + if Classify(c, env[|env| - 1], secretKey) == k then 1 else 0
  }

  function Total(cs: seq<Container>): nat {
    if cs == [] then 0 else Total(cs[..|cs| - 1]) + |cs[|cs| - 1].env|
  }

  function CountAll(cs: seq<Container>, k: Class, secretKey: Key -> bool): nat {
    if cs == [] then 0
    else CountAll(cs[..|cs| - 1], k, secretKey) + Count(cs[|cs| - 1], cs[|cs| - 1].env, k, secretKey)
  }

  /** The unrecognised keys of one container whose values look encoded, in order. */
  function Flagged(c: Container, env: seq<(Key, Value)>, secretKey: Key -> bool): seq<(nat, Key)> {
    if env == [] then []
    else Flagged(c, env[..|env| - 1], secretKey)
         + if Classify(c, env[|env| - 1], secretKey).Ambiguous? then [(c.id, env[|env| - 1].0)] else []
  }

  function FlaggedAll(cs: seq<Container>, secretKey: Key -> bool): seq<(nat, Key)> {
    if cs == [] then [] else FlaggedAll(cs[..|cs| - 1], secretKey) + Flagged(cs[|cs| - 1], cs[|cs| - 1].env, secretKey)
  }

  /** The secret keys of one container that are missing from its encrypted column, in order. */
  function Missing(c: Container, env: seq<(Key, Value)>, secretKey: Key -> bool): seq<Key> {
    if env == [] then []
    else
      var key := env[|env| - 1].0;
      Missing(c, env[..|env| - 1], secretKey)
      + if IsSecret(c, key, secretKey) && key !in c.encrypted then [key] else []
  }

  function Plan(cs: seq<Container>, secretKey: Key -> bool): seq<(nat, seq<Key>)> {
    if cs == [] then []
    else
      var c := cs[|cs| - 1];
      var keys := Missing(c, c.env, secretKey);
      Plan(cs[..|cs| - 1], secretKey) + if keys == [] then [] else [(c.id, keys)]
  }

  datatype Report = Report(
    total: nat, preset: nat, regex: nat, ambiguous: seq<(nat, Key)>, plan: seq<(nat, seq<Key>)>, exit: int)

  function ReportOf(cs: seq<Container>, secretKey: Key -> bool): Report {
    var flagged := FlaggedAll(cs, secretKey);
    Report(Total(cs), CountAll(cs, PresetSecret, secretKey), CountAll(cs, RegexSecret, secretKey),
           flagged, Plan(cs, secretKey), if flagged == [] then 0 else 1)
  }

  /** The inner loop of the audit, over the entries of one container. */
  method AuditRow(c: Container, secretKey: Key -> bool)
    returns (preset: nat, regex: nat, flagged: seq<(nat, Key)>, rowFix: seq<Key>)
    ensures preset == Count(c, c.env, PresetSecret, secretKey) && regex == Count(c, c.env, RegexSecret, secretKey)
    ensures flagged == Flagged(c, c.env, secretKey) && rowFix == Missing(c, c.env, secretKey)
  {
    hide LooksBase64;
    preset, regex, flagged, rowFix := 0, 0, [], [];
    for j := 0 to |c.env|
      invariant preset == Count(c, c.env[..j], PresetSecret, secretKey)
      invariant regex == Count(c, c.env[..j], RegexSecret, secretKey)
      invariant flagged == Flagged(c, c.env[..j], secretKey)
      invariant rowFix == Missing(c, c.env[..j], secretKey)
    {
      var (key, value) := c.env[j];
      assert c.env[..j + 1][..j] == c.env[..j];
      if key in c.preset {
        preset := preset + 1;
        if key !in c.encrypted { rowFix := rowFix + [key]; }
        continue;
      }
      if secretKey(key) {
        regex := regex + 1;
        if key !in c.encrypted { rowFix := rowFix + [key]; }
        continue;
      }
      if value.Str? && LooksBase64(value.text) { flagged := flagged + [(c.id, key)]; }
    }
    assert c.env[..|c.env|] == c.env;
  }

  /** The audit loop: counters and lists are filled in one pass over all containers. */
  method Audit(cs: seq<Container>, secretKey: Key -> bool) returns (r: Report)
    ensures r == ReportOf(cs, secretKey)
  {
    hide Count, Flagged, Missing;
    var total, preset, regex := 0, 0, 0;
    var ambiguous: seq<(nat, Key)> := [];
    var plan: seq<(nat, seq<Key>)> := [];
    for i := 0 to |cs|
      invariant total == Total(cs[..i])
      invariant preset == CountAll(cs[..i], PresetSecret, secretKey)
      invariant regex == CountAll(cs[..i], RegexSecret, secretKey)
      invariant ambiguous == FlaggedAll(cs[..i], secretKey)
      invariant plan == Plan(cs[..i], secretKey)
    {
      var c := cs[i];
      assert cs[..i + 1][..i] == cs[..i];
      if c.env == [] {
        EmptyRow(c, secretKey);
        continue;
      }
      var p, x, flagged, rowFix := AuditRow(c, secretKey);
      total, preset, regex, ambiguous := total + |c.env|, preset + p, regex + x, ambiguous + flagged;
      if rowFix != [] { plan := plan + [(c.id, rowFix)]; }
    }
    assert cs[..|cs|] == cs;
    r := Report(total, preset, regex, ambiguous, plan, if ambiguous == [] then 0 else 1);
  }

  lemma EmptyRow(c: Container, secretKey: Key -> bool)
    requires c.env == []
    ensures forall k :: Count(c, c.env, k, secretKey) == 0
    ensures Flagged(c, c.env, secretKey) == [] && Missing(c, c.env, secretKey) == []
  {}

  lemma {:induction false} RowCountsAddUp(c: Container, env: seq<(Key, Value)>, secretKey: Key -> bool)
    ensures Count(c, env, PresetSecret, secretKey) + Count(c, env, RegexSecret, secretKey)
            + Count(c, env, Ambiguous, secretKey) + Count(c, env, Plain, secretKey) == |env|
    ensures |Flagged(c, env, secretKey)| == Count(c, env, Ambiguous, secretKey)
  {
    if env != [] { RowCountsAddUp(c, env[..|env| - 1], secretKey); }
  }

  /** Every entry falls into exactly one class, so the report's numbers add up to the total. */
  lemma {:induction false} CountersAddUp(cs: seq<Container>, secretKey: Key -> bool)
    ensures var r := ReportOf(cs, secretKey);
            r.total == r.preset + r.regex + |r.ambiguous| + CountAll(cs, Plain, secretKey)
  {
    if cs != [] {
      var c := cs[|cs| - 1];
      CountersAddUp(cs[..|cs| - 1], secretKey);
      RowCountsAddUp(c, c.env, secretKey);
    }
  }

  predicate HasKey(env: seq<(Key, Value)>, key: Key) {
    exists j :: 0 <= j < |env| && env[j].0 == key
  }

  /** A container's part of the plan names exactly its secret keys that are not encrypted yet. */
  lemma {:induction false} MissingIff(c: Container, env: seq<(Key, Value)>, key: Key, secretKey: Key -> bool)
    ensures key in Missing(c, env, secretKey) <==>
              HasKey(env, key) && IsSecret(c, key, secretKey) && key !in c.encrypted
  {
    if env != [] {
      var init := env[..|env| - 1];
      MissingIff(c, init, key, secretKey);
      if HasKey(env, key) {
        var j :| 0 <= j < |env| && env[j].0 == key;
        if j < |init| { assert init[j].0 == key; }
      }
      if HasKey(init, key) {
        var j :| 0 <= j < |init| && init[j].0 == key;
        assert env[j].0 == key;
      }
      if env[|env| - 1].0 == key { assert HasKey(env, key); }
    }
  }

  /** The plan holds one row for each container with a missing key, and no other. */
  lemma {:induction false} PlanIff(cs: seq<Container>, row: (nat, seq<Key>), secretKey: Key -> bool)
    ensures row in Plan(cs, secretKey) <==>
              exists i :: 0 <= i < |cs| && row == (cs[i].id, Missing(cs[i], cs[i].env, secretKey)) && row.1 != []
  {
    if cs != [] {
      var init := cs[..|cs| - 1];
      PlanIff(init, row, secretKey);
      assert forall i :: 0 <= i < |init| ==> init[i] == cs[i];
    }
  }

  // ---------------------------------------------------------------------
  // The migration the plan describes
  // ---------------------------------------------------------------------

  /** Best effort: the text a value spells, else the value itself; values that are not strings are lost. */
  function Plaintext(v: Value): Text {
    if v.NotAString? || v.text == [] then []
    else match Spelled(v.text)
      case Some(text) => text
      case None => v.text
  }

  /** The variables that stay. */
  function Unmatched(c: Container, env: seq<(Key, Value)>, secretKey: Key -> bool): (kept: seq<(Key, Value)>)
    ensures forall e :: e in kept ==> e in env && !IsSecret(c, e.0, secretKey)
    ensures forall e :: e in env && !IsSecret(c, e.0, secretKey) ==> e in kept
  {
    if env == [] then []
    else Unmatched(c, env[..|env| - 1], secretKey)
         + if IsSecret(c, env[|env| - 1].0, secretKey) then [] else [env[|env| - 1]]
  }

  function AsMap(env: seq<(Key, Value)>): (m: map<Key, Value>)
    ensures forall k :: k in m <==> HasKey(env, k)
  {
    if env == [] then map[]
    else
      var m := AsMap(env[..|env| - 1])[env[|env| - 1].0 := env[|env| - 1].1];
      assert forall k :: HasKey(env, k) <==> HasKey(env[..|env| - 1], k) || k == env[|env| - 1].0 by {
        forall k | HasKey(env, k) && k != env[|env| - 1].0 ensures HasKey(env[..|env| - 1], k) {
          var j :| 0 <= j < |env| && env[j].0 == k;
          assert env[..|env| - 1][j].0 == k;
        }
        forall k | HasKey(env[..|env| - 1], k) ensures HasKey(env, k) {
          var j :| 0 <= j < |env| - 1 && env[..|env| - 1][j].0 == k;
          assert env[j].0 == k;
        }
        assert env[|env| - 1].0 == env[|env| - 1].0;
      }
      m
  }

  /** The secrets that leave the variables, with their plaintexts. */
  function Moved(c: Container, secretKey: Key -> bool): map<Key, Text> {
    var env := AsMap(c.env);
    map k | k in env && IsSecret(c, k, secretKey) :: Plaintext(env[k])
  }

  function Upgraded(c: Container, secretKey: Key -> bool): Container {
    c.(env := Unmatched(c, c.env, secretKey), encrypted := c.encrypted + Moved(c, secretKey))
  }

  function UpgradedAll(cs: seq<Container>, secretKey: Key -> bool): (r: seq<Container>)
    ensures |r| == |cs| && forall i :: 0 <= i < |cs| ==> r[i] == Upgraded(cs[i], secretKey)
  {
    if cs == [] then [] else UpgradedAll(cs[..|cs| - 1], secretKey) + [Upgraded(cs[|cs| - 1], secretKey)]
  }

  lemma MergeUpdate(m: map<Key, Text>, n: map<Key, Text>, key: Key, text: Text)
    ensures (m + n)[key := text] == m + n[key := text]
  {}

  lemma NothingMoved(c: Container, secretKey: Key -> bool)
    ensures Moved(c.(env := c.env[..0]), secretKey) == map[]
  {}

  lemma MovedSnoc(c: Container, env: seq<(Key, Value)>, secretKey: Key -> bool)
    requires env != []
    ensures var e := env[|env| - 1];
            var init := Moved(c.(env := env[..|env| - 1]), secretKey);
            Moved(c.(env := env), secretKey) ==
            if IsSecret(c, e.0, secretKey) then init[e.0 := Plaintext(e.1)] else init
  {
    hide Plaintext;
    var e := env[|env| - 1];
    assert AsMap(env) == AsMap(env[..|env| - 1])[e.0 := e.1];
  }

  /** Pops the matched keys of one row one at a time, each into the encrypted column. */
  method UpgradeRow(c: Container, secretKey: Key -> bool) returns (r: Container)
    ensures r == Upgraded(c, secretKey)
  {
    hide Plaintext, Moved, IsSecret;
    var env: seq<(Key, Value)> := [];
    var encrypted := c.encrypted;
    ghost var moved: map<Key, Text> := map[];
    NothingMoved(c, secretKey);
    for i := 0 to |c.env|
      invariant env == Unmatched(c, c.env[..i], secretKey)
      invariant moved == Moved(c.(env := c.env[..i]), secretKey)
      invariant encrypted == c.encrypted + moved
    {
      var (key, value) := c.env[i];
      assert c.env[..i + 1][..i] == c.env[..i];
      MovedSnoc(c, c.env[..i + 1], secretKey);
      if IsSecret(c, key, secretKey) {
        MergeUpdate(c.encrypted, moved, key, Plaintext(value));
        moved := moved[key := Plaintext(value)];
        encrypted := encrypted[key := Plaintext(value)];
      } else {
        env := env + [(key, value)];
      }
    }
    assert c.env[..|c.env|] == c.env && c.(env := c.env) == c;
    r := c.(env := env, encrypted := encrypted);
  }

  lemma {:induction false} UnmatchedRow(c: Container, d: Container, env: seq<(Key, Value)>, secretKey: Key -> bool)
    requires c.preset == d.preset && c.id == d.id
    ensures var kept := Unmatched(c, env, secretKey);
            Flagged(d, kept, secretKey) == Flagged(c, env, secretKey)
            && Count(d, kept, Plain, secretKey) == Count(c, env, Plain, secretKey)
            && Count(d, kept, PresetSecret, secretKey) == 0 && Count(d, kept, RegexSecret, secretKey) == 0
            && Missing(d, kept, secretKey) == []
  {
    hide LooksBase64;
    if env != [] {
      var init := env[..|env| - 1];
      UnmatchedRow(c, d, init, secretKey);
      var before := Unmatched(c, init, secretKey);
      var kept := Unmatched(c, env, secretKey);
      if IsSecret(c, env[|env| - 1].0, secretKey) {
        assert kept == before;
      } else {
        assert kept[..|kept| - 1] == before && kept[|kept| - 1] == env[|env| - 1];
      }
    }
  }

  /**
    * The audit converges: after the migration it reports no secret and an empty plan, while the
    * ambiguous list, the plain entries and therefore the exit code are what they were.
    */
  lemma {:induction false} MigrationEmptiesThePlan(cs: seq<Container>, secretKey: Key -> bool)
    ensures var before, after := ReportOf(cs, secretKey), ReportOf(UpgradedAll(cs, secretKey), secretKey);
            after.plan == [] && after.preset == 0 && after.regex == 0
            && after.ambiguous == before.ambiguous && after.exit == before.exit
            && CountAll(UpgradedAll(cs, secretKey), Plain, secretKey) == CountAll(cs, Plain, secretKey)
  {
    if cs != [] {
      var init := cs[..|cs| - 1];
      var c := cs[|cs| - 1];
      MigrationEmptiesThePlan(init, secretKey);
      UnmatchedRow(c, Upgraded(c, secretKey), c.env, secretKey);
      var after := UpgradedAll(cs, secretKey);
      assert after[..|after| - 1] == UpgradedAll(init, secretKey);
    }
  }

  /** Adding just the planned keys to the encrypted column also empties the plan and keeps the rest. */
  function Patched(c: Container, texts: Key -> Text, secretKey: Key -> bool): Container {
    c.(encrypted := c.encrypted + map k | k in Missing(c, c.env, secretKey) :: texts(k))
  }

  lemma {:induction false} PatchedRow(c: Container, texts: Key -> Text, env: seq<(Key, Value)>, secretKey: Key -> bool)
    requires forall k :: k in Missing(c, env, secretKey) ==> k in Missing(c, c.env, secretKey)
    ensures var d := Patched(c, texts, secretKey);
            Missing(d, env, secretKey) == [] && Flagged(d, env, secretKey) == Flagged(c, env, secretKey)
            && forall k :: Count(d, env, k, secretKey) == Count(c, env, k, secretKey)
  {
    if env != [] { PatchedRow(c, texts, env[..|env| - 1], secretKey); }
  }

  lemma PatchEmptiesThePlan(c: Container, texts: Key -> Text, secretKey: Key -> bool)
    ensures var d := Patched(c, texts, secretKey);
            Missing(d, d.env, secretKey) == [] && Flagged(d, d.env, secretKey) == Flagged(c, c.env, secretKey)
            && forall k :: Count(d, d.env, k, secretKey) == Count(c, c.env, k, secretKey)
  {
    PatchedRow(c, texts, c.env, secretKey);
  }

  /**
    * The plan is announced as what the migration would move. It is, exactly for the rows where no
    * secret still among the variables has an encrypted entry already: those move too, and
    * overwrite the entry.
    */
  lemma PlanIsWhatMovesIff(c: Container, secretKey: Key -> bool)
    ensures (forall k :: k in Missing(c, c.env, secretKey) <==> k in Moved(c, secretKey))
            <==> (forall k :: HasKey(c.env, k) && IsSecret(c, k, secretKey) ==> k !in c.encrypted)
  {
    forall k
      ensures k in Missing(c, c.env, secretKey) <==> HasKey(c.env, k) && IsSecret(c, k, secretKey) && k !in c.encrypted
    {
      MissingIff(c, c.env, k, secretKey);
    }
  }

  /** The check the next migration makes: secret-shaped variables without an encrypted entry. */
  predicate Offends(c: Container, secretKey: Key -> bool) {
    exists j :: 0 <= j < |c.env| && secretKey(c.env[j].0) && c.env[j].0 !in c.encrypted
  }

  /** That check lets a row pass exactly when none of its planned keys is recognised by its shape. */
  lemma GatePassesIff(c: Container, secretKey: Key -> bool)
    ensures !Offends(c, secretKey) <==> forall k :: k in Missing(c, c.env, secretKey) ==> !secretKey(k)
    ensures !Offends(Upgraded(c, secretKey), secretKey)
  {
    forall k
      ensures k in Missing(c, c.env, secretKey) <==> HasKey(c.env, k) && IsSecret(c, k, secretKey) && k !in c.encrypted
    {
      MissingIff(c, c.env, k, secretKey);
    }
    if Offends(c, secretKey) {
      var j :| 0 <= j < |c.env| && secretKey(c.env[j].0) && c.env[j].0 !in c.encrypted;
      assert HasKey(c.env, c.env[j].0);
    }
    var d := Upgraded(c, secretKey);
    forall j | 0 <= j < |d.env| ensures !secretKey(d.env[j].0) {
      assert d.env[j] in Unmatched(c, c.env, secretKey);
    }
  }

  // ---------------------------------------------------------------------
  // Migrating and going back
  // ---------------------------------------------------------------------

  /** The downgrade writes every encrypted secret back as base 64 over the variables. */
  function Downgraded(env: map<Key, Value>, encrypted: map<Key, Text>): map<Key, Value> {
    env + map k | k in encrypted :: Str(Spell(encrypted[k]))
  }

  lemma PlaintextOfSpell(text: Text)
    ensures Plaintext(Str(Spell(text))) == text
  {
    SpelledSpell(text);
  }

  lemma SecretMoves(c: Container, key: Key, secretKey: Key -> bool)
    requires key in AsMap(c.env) && IsSecret(c, key, secretKey)
    ensures var up := Upgraded(c, secretKey);
            key in up.encrypted && up.encrypted[key] == Plaintext(AsMap(c.env)[key])
  {}

  /** What a secret is stored as: the text it spells in base 64, or itself where it spells none; a value that is not a
      string is stored as nothing. */
  lemma MovedSecretIs(c: Container, key: Key, secretKey: Key -> bool)
    requires key in AsMap(c.env) && (key in c.preset || secretKey(key))
    ensures var v, up := AsMap(c.env)[key], Upgraded(c, secretKey);
      && key in up.encrypted && !HasKey(up.env, key)
      && (v.NotAString? ==> up.encrypted[key] == [])
      && (forall text :: v.Str? && Base64.Decode(v.text) == Some(Utf8.Encode(text)) ==> up.encrypted[key] == text)
      && (v.Str? && (forall text :: Base64.Decode(v.text) != Some(Utf8.Encode(text))) ==> up.encrypted[key] == v.text)
  {
    hide Utf8.Encode, Utf8.Decode, Base64.Decode;
    var v := AsMap(c.env)[key];
    SecretMoves(c, key, secretKey);
    if v.Str? && v.text == [] { EmptyDecodes(); }
    forall text | v.Str? && Base64.Decode(v.text) == Some(Utf8.Encode(text)) ensures Plaintext(v) == text {
      Utf8.DecodeEncode(text);
    }
    if v.Str? && Spelled(v.text).Some? { Utf8.EncodeDecode(Base64.Decode(v.text).value); }
  }

  lemma EmptyDecodes()
    ensures Base64.Decode([]) == Some([]) && Utf8.Decode([]) == Some([]) && Utf8.Encode([]) == []
  {}

  /** The ambiguous list names exactly the entries with an unrecognised key and a string that the detector takes. */
  lemma {:induction false} FlaggedIff(c: Container, env: seq<(Key, Value)>, key: Key, secretKey: Key -> bool)
    ensures (c.id, key) in Flagged(c, env, secretKey) <==>
              exists j :: 0 <= j < |env| && env[j].0 == key && key !in c.preset && !secretKey(key)
                          && env[j].1.Str? && LooksBase64(env[j].1.text)
  {
    hide LooksBase64;
    if env != [] {
      var init := env[..|env| - 1];
      FlaggedIff(c, init, key, secretKey);
      assert forall j :: 0 <= j < |init| ==> init[j] == env[j];
    }
  }

  lemma {:induction false} AmbiguousIff(cs: seq<Container>, id: nat, key: Key, secretKey: Key -> bool)
    ensures (id, key) in ReportOf(cs, secretKey).ambiguous <==>
              exists i, j :: 0 <= i < |cs| && cs[i].id == id && 0 <= j < |cs[i].env| && cs[i].env[j].0 == key
                             && key !in cs[i].preset && !secretKey(key)
                             && cs[i].env[j].1.Str? && LooksBase64(cs[i].env[j].1.text)
    ensures ReportOf(cs, secretKey).exit == if ReportOf(cs, secretKey).ambiguous == [] then 0 else 1
  {
    hide LooksBase64, Flagged;
    if cs != [] {
      var init, c := cs[..|cs| - 1], cs[|cs| - 1];
      AmbiguousIff(init, id, key, secretKey);
      assert forall i :: 0 <= i < |init| ==> init[i] == cs[i];
      FlaggedIff(c, c.env, key, secretKey);
      OnlyOwnRows(c, c.env, secretKey);
    }
  }

  lemma {:induction false} OnlyOwnRows(c: Container, env: seq<(Key, Value)>, secretKey: Key -> bool)
    ensures forall row :: row in Flagged(c, env, secretKey) ==> row.0 == c.id
  {
    if env != [] { OnlyOwnRows(c, env[..|env| - 1], secretKey); }
  }

  /** Up and down again keeps what every secret says, though perhaps not how it is spelled. */
  lemma RoundTripKeepsPlaintext(c: Container, key: Key, secretKey: Key -> bool)
    requires key in AsMap(c.env) && IsSecret(c, key, secretKey)
    ensures var up := Upgraded(c, secretKey);
            var down := Downgraded(AsMap(up.env), up.encrypted);
            key in down && Plaintext(down[key]) == Plaintext(AsMap(c.env)[key])
  {
    hide Spell, Plaintext, AsMap, Moved, Unmatched, IsSecret;
    SecretMoves(c, key, secretKey);
    PlaintextOfSpell(Upgraded(c, secretKey).encrypted[key]);
  }

  /** The value itself comes back exactly when it was the base 64 form of some text. */
  lemma RoundTripRestoresIff(c: Container, key: Key, secretKey: Key -> bool)
    requires key in AsMap(c.env) && IsSecret(c, key, secretKey)
    ensures var up := Upgraded(c, secretKey);
            var down := Downgraded(AsMap(up.env), up.encrypted);
            key in down && (down[key] == AsMap(c.env)[key] <==> exists text :: AsMap(c.env)[key] == Str(Spell(text)))
  {
    hide Spell, Plaintext, AsMap, Moved, Unmatched, IsSecret;
    var v := AsMap(c.env)[key];
    var up := Upgraded(c, secretKey);
    SecretMoves(c, key, secretKey);
    assert Downgraded(AsMap(up.env), up.encrypted)[key] == Str(Spell(Plaintext(v)));
    if text :| v == Str(Spell(text)) { PlaintextOfSpell(text); }
  }
}
