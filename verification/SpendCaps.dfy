/**
Create-time validation of an automation definition: the compute tier and the two spend caps live both in
columns and in the contract, and are forced to agree.

Column caps are exact decimals. Contract caps are JSON; floats come back as decimals through their
shortest representation. Both conversions are parameters, bound by what IEEE 754 and the float printer promise.
*/
module SpendCaps {
  import opened Prelude
  import opened Binary64

  datatype Json = JNull | JInt(i: int) | JFloat(f: real) | JText(number: Option<real>) | JOther

  datatype CapError =
    | TierOutOfRange | TierDisagrees | NotNumeric | CapsDisagree | NotPositive | RunExceedsDay | TierNeedsWorkspace

  datatype Definition = Definition(scope: string, tier: int, contract: map<Key, Json>, perRun: Option<real>,
                                   perDay: Option<real>)

  // The contract keys the validators know, and all the others.
  datatype Key = MaxComputeTier | MaxSpendPerRun | MaxSpendPerDay | OtherKey(name: string)

  /** The two conversions the validators use: float() of a decimal, and the decimal a float prints as. */
  datatype Floats = Floats(float: real -> real, repr: real -> real)

  // float() rounds to nearest; repr prints the shortest decimal that reads back.
  ghost predicate Ieee(fp: Floats) {
    && (forall y :: y > 0.0 ==> fp.float(y) == Round(y))
    && (forall f :: f > 0.0 && IsFloat(f) ==> IsRepr(f, fp.repr(f)))
  }

  function Get(contract: map<Key, Json>, key: Key): Json {
    if key in contract then contract[key] else JNull
  }

  // Decimal(str(v)), where it succeeds.
  function AsDecimal(v: Json, fp: Floats): Option<real> {
    match v
    case JInt(i) => Some(i as real)
    case JFloat(f) => Some(fp.repr(f))
    case JText(d) => d
    case _ => None
  }

  predicate TierMatches(v: Json, tier: int) {
    match v
    case JInt(i) => i == tier
    case JFloat(f) => f == tier as real
    case _ => false
  }

  /** One cap from its two copies: whichever is given, or both if they agree. */
  function Reconcile(column: Option<real>, v: Json, fp: Floats): Result<Option<real>, CapError> {
    if v == JNull then Ok(column)
    else match AsDecimal(v, fp)
      case None => Err(NotNumeric)
      case Some(d) => if column == None || column == Some(d) then Ok(Some(d)) else Err(CapsDisagree)
  }

  function CapsCheck(perRun: Option<real>, perDay: Option<real>): Option<CapError> {
    if (perRun.Some? && perRun.value <= 0.0) || (perDay.Some? && perDay.value <= 0.0) then Some(NotPositive)
    else if perRun.Some? && perDay.Some? && perRun.value > perDay.value then Some(RunExceedsDay)
    else None
  }

  function Mirror(contract: map<Key, Json>, key: Key, cap: Option<real>, fp: Floats): map<Key, Json>
  {
    if cap.Some? then contract[key := JFloat(fp.float(cap.value))] else contract - {key}
  }

  // What the validators make of a payload.
  function Normalised(d: Definition, maxTier: int, fp: Floats): Result<Definition, CapError> {
    if d.tier < 0 || d.tier > maxTier then Err(TierOutOfRange)
    else if Get(d.contract, MaxComputeTier) != JNull && !TierMatches(Get(d.contract, MaxComputeTier), d.tier) then
      Err(TierDisagrees)
    else
      var contract := d.contract[MaxComputeTier := JInt(d.tier)];
      var run := Reconcile(d.perRun, Get(contract, MaxSpendPerRun), fp);
      var day := Reconcile(d.perDay, Get(contract, MaxSpendPerDay), fp);
      if run.Err? then Err(run.error)
      else if day.Err? then Err(day.error)
      else if CapsCheck(run.value, day.value).Some? then Err(CapsCheck(run.value, day.value).value)
      else if d.scope == "none" && d.tier > 0 then Err(TierNeedsWorkspace)
      else Ok(Definition(d.scope, d.tier,
                         Mirror(Mirror(contract, MaxSpendPerRun, run.value, fp), MaxSpendPerDay, day.value, fp),
                         run.value, day.value))
  }

  // ---------------------------------------------------------------- what acceptance means

  // Both copies of a cap say the same, the contract's as a float.
  predicate CopiesAgree(column: Option<real>, v: Json, fp: Floats) {
    match column
    case None => v == JNull
    case Some(c) => c > 0.0 && v == JFloat(fp.float(c))
  }

  /** An accepted definition has agreeing copies of tier and caps, positive caps in order, and an otherwise
      untouched contract. */
  lemma AcceptedIsConsistent(d: Definition, maxTier: int, fp: Floats)
    requires Normalised(d, maxTier, fp).Ok?
    ensures var n := Normalised(d, maxTier, fp).value;
      && n.scope == d.scope && n.tier == d.tier && 0 <= n.tier <= maxTier
      && (n.scope == "none" ==> n.tier == 0)
      && Get(n.contract, MaxComputeTier) == JInt(n.tier)
      && CopiesAgree(n.perRun, Get(n.contract, MaxSpendPerRun), fp)
      && CopiesAgree(n.perDay, Get(n.contract, MaxSpendPerDay), fp)
      && (n.perRun.Some? && n.perDay.Some? ==> n.perRun.value <= n.perDay.value)
      && (d.perRun.Some? ==> n.perRun == d.perRun) && (d.perDay.Some? ==> n.perDay == d.perDay)
      && (forall k :: k !in {MaxComputeTier, MaxSpendPerRun, MaxSpendPerDay} ==>
           Get(n.contract, k) == Get(d.contract, k))
  {
  }

  // ---------------------------------------------------------------- the rules, one by one

  datatype Rule =
    | TierInRange | TierCopies | CapIsNumber(key: Key) | CapCopies(key: Key) | CapsPositive | CapsOrdered
    | ScopeAllowsTier

  // In the order the validators test them.
  const RULES: seq<Rule> :=
    [TierInRange, TierCopies, CapIsNumber(MaxSpendPerRun), CapCopies(MaxSpendPerRun), CapIsNumber(MaxSpendPerDay),
     CapCopies(MaxSpendPerDay), CapsPositive, CapsOrdered, ScopeAllowsTier]

  function ErrorOf(rule: Rule): CapError {
    match rule
    case TierInRange => TierOutOfRange
    case TierCopies => TierDisagrees
    case CapIsNumber(_) => NotNumeric
    case CapCopies(_) => CapsDisagree
    case CapsPositive => NotPositive
    case CapsOrdered => RunExceedsDay
    case ScopeAllowsTier => TierNeedsWorkspace
  }

  // The contract says nothing for `key`: no entry, or null.
  predicate Silent(d: Definition, key: Key) {
    key !in d.contract || d.contract[key] == JNull
  }

  // The number a contract entry spells: itself, what a float prints as, or a numeric text.
  function Spelled(v: Json, fp: Floats): Option<real> {
    if v.JInt? then Some(v.i as real)
    else if v.JFloat? then Some(fp.repr(v.f))
    else if v.JText? then v.number
    else None
  }

  function Column(d: Definition, key: Key): Option<real> {
    if key == MaxSpendPerRun then d.perRun else d.perDay
  }

  // The cap a definition asks for: the contract's, or the column's where the contract is silent.
  function CapOf(d: Definition, key: Key, fp: Floats): Option<real> {
    if Silent(d, key) then Column(d, key) else Spelled(d.contract[key], fp)
  }

  predicate Keeps(d: Definition, rule: Rule, maxTier: int, fp: Floats) {
    var run, day := CapOf(d, MaxSpendPerRun, fp), CapOf(d, MaxSpendPerDay, fp);
    match rule
    case TierInRange => 0 <= d.tier <= maxTier
    case TierCopies =>
      Silent(d, MaxComputeTier) || d.contract[MaxComputeTier] in {JInt(d.tier), JFloat(d.tier as real)}
    case CapIsNumber(key) => Silent(d, key) || Spelled(d.contract[key], fp).Some?
    case CapCopies(key) => Silent(d, key) || Column(d, key) in {None, Spelled(d.contract[key], fp)}
    case CapsPositive => (run.Some? ==> 0.0 < run.value) && (day.Some? ==> 0.0 < day.value)
    case CapsOrdered => run.Some? && day.Some? ==> run.value <= day.value
    case ScopeAllowsTier => d.scope != "none" || d.tier <= 0
  }

  predicate FirstBroken(d: Definition, i: nat, maxTier: int, fp: Floats) {
    && i < |RULES| && !Keeps(d, RULES[i], maxTier, fp)
    && forall j :: 0 <= j < i ==> Keeps(d, RULES[j], maxTier, fp)
  }

  predicate KeepsAll(d: Definition, maxTier: int, fp: Floats) {
    forall j :: 0 <= j < |RULES| ==> Keeps(d, RULES[j], maxTier, fp)
  }

  /** A payload is accepted exactly when it keeps every rule, with the caps it asks for; otherwise it is refused for the
      first rule it breaks. */
  lemma AcceptedIffRules(d: Definition, maxTier: int, fp: Floats)
    ensures var n := Normalised(d, maxTier, fp);
      && (n.Ok? <==> KeepsAll(d, maxTier, fp))
      && (n.Ok? ==> n.value.perRun == CapOf(d, MaxSpendPerRun, fp) && n.value.perDay == CapOf(d, MaxSpendPerDay, fp))
      && (n.Err? ==> exists i: nat :: FirstBroken(d, i, maxTier, fp) && n.error == ErrorOf(RULES[i]))
  {
    RulesInOrder(d, maxTier, fp);
    hide Keeps;
    var n := Normalised(d, maxTier, fp);
    if i: nat :| FirstBroken(d, i, maxTier, fp) {
      assert !KeepsAll(d, maxTier, fp);
    } else {
      AllOrFirst(d, |RULES|, maxTier, fp);
    }
  }

  lemma {:induction false} AllOrFirst(d: Definition, n: nat, maxTier: int, fp: Floats)
    requires n <= |RULES|
    ensures (forall j :: 0 <= j < n ==> Keeps(d, RULES[j], maxTier, fp))
            || exists i: nat :: FirstBroken(d, i, maxTier, fp)
  {
    hide Keeps;
    if n > 0 {
      AllOrFirst(d, n - 1, maxTier, fp);
      if forall j :: 0 <= j < n - 1 ==> Keeps(d, RULES[j], maxTier, fp) {
        assert Keeps(d, RULES[n - 1], maxTier, fp) || FirstBroken(d, n - 1, maxTier, fp);
      }
    }
  }

  lemma RulesInOrder(d: Definition, maxTier: int, fp: Floats)
    ensures KeepsAll(d, maxTier, fp) ==>
              Normalised(d, maxTier, fp).Ok?
              && Normalised(d, maxTier, fp).value.perRun == CapOf(d, MaxSpendPerRun, fp)
              && Normalised(d, maxTier, fp).value.perDay == CapOf(d, MaxSpendPerDay, fp)
    ensures forall i: nat :: FirstBroken(d, i, maxTier, fp) ==> Normalised(d, maxTier, fp) == Err(ErrorOf(RULES[i]))
  {
    hide Keeps, Normalised;
    if KeepsAll(d, maxTier, fp) {
      var rules := RULES;
      assert Keeps(d, rules[0], maxTier, fp) && Keeps(d, rules[1], maxTier, fp) && Keeps(d, rules[2], maxTier, fp);
      assert Keeps(d, rules[3], maxTier, fp) && Keeps(d, rules[4], maxTier, fp) && Keeps(d, rules[5], maxTier, fp);
      assert Keeps(d, rules[6], maxTier, fp) && Keeps(d, rules[7], maxTier, fp) && Keeps(d, rules[8], maxTier, fp);
      NoRuleBreaks(d, maxTier, fp);
    }
    forall i: nat | FirstBroken(d, i, maxTier, fp)
      ensures Normalised(d, maxTier, fp) == Err(ErrorOf(RULES[i]))
    {
      RuleBreaks(d, i, maxTier, fp);
    }
  }

  lemma NoRuleBreaks(d: Definition, maxTier: int, fp: Floats)
    requires Keeps(d, TierInRange, maxTier, fp) && Keeps(d, TierCopies, maxTier, fp)
    requires Keeps(d, CapIsNumber(MaxSpendPerRun), maxTier, fp) && Keeps(d, CapCopies(MaxSpendPerRun), maxTier, fp)
    requires Keeps(d, CapIsNumber(MaxSpendPerDay), maxTier, fp) && Keeps(d, CapCopies(MaxSpendPerDay), maxTier, fp)
    requires Keeps(d, CapsPositive, maxTier, fp) && Keeps(d, CapsOrdered, maxTier, fp)
    requires Keeps(d, ScopeAllowsTier, maxTier, fp)
    ensures Normalised(d, maxTier, fp).Ok?
    ensures Normalised(d, maxTier, fp).value.perRun == CapOf(d, MaxSpendPerRun, fp)
    ensures Normalised(d, maxTier, fp).value.perDay == CapOf(d, MaxSpendPerDay, fp)
  {
  }

  lemma RuleBreaks(d: Definition, i: nat, maxTier: int, fp: Floats)
    requires FirstBroken(d, i, maxTier, fp)
    ensures Normalised(d, maxTier, fp) == Err(ErrorOf(RULES[i]))
  {
    var keeps := seq(i, j requires 0 <= j < i => Keeps(d, RULES[j], maxTier, fp));
    assert forall j :: 0 <= j < i ==> keeps[j];
    if i > 0 { assert keeps[0]; }
    if i > 1 { assert keeps[1]; }
    if i > 2 { assert keeps[2]; }
    if i > 3 { assert keeps[3]; }
    if i > 4 { assert keeps[4]; }
    if i > 5 { assert keeps[5]; }
    if i > 6 { assert keeps[6]; }
    if i > 7 { assert keeps[7]; }
  }

  // The rules on caps, which do not look at the tier.
  predicate KeepsCapRules(d: Definition, fp: Floats) {
    && Keeps(d, CapIsNumber(MaxSpendPerRun), 0, fp) && Keeps(d, CapCopies(MaxSpendPerRun), 0, fp)
    && Keeps(d, CapIsNumber(MaxSpendPerDay), 0, fp) && Keeps(d, CapCopies(MaxSpendPerDay), 0, fp)
    && Keeps(d, CapsPositive, 0, fp) && Keeps(d, CapsOrdered, 0, fp)
  }

  // The cap the two copies stand for, if they stand for one.
  function Merged(d: Definition, key: Key, fp: Floats): Result<Option<real>, CapError> {
    Reconcile(if key == MaxSpendPerRun then d.perRun else d.perDay, Get(d.contract, key), fp)
  }

  // Normalising reads the caps only through what their copies stand for.
  lemma MergedDecides(a: Definition, b: Definition, maxTier: int, fp: Floats)
    requires a.scope == b.scope && a.tier == b.tier
    requires a.contract - CAP_KEYS == b.contract - CAP_KEYS
    requires Merged(a, MaxSpendPerRun, fp) == Merged(b, MaxSpendPerRun, fp)
    requires Merged(a, MaxSpendPerDay, fp) == Merged(b, MaxSpendPerDay, fp)
    ensures Normalised(a, maxTier, fp) == Normalised(b, maxTier, fp)
  {
    forall k | k !in CAP_KEYS
      ensures Get(a.contract, k) == Get(b.contract, k) && (k in a.contract <==> k in b.contract)
    {
      assert Get(a.contract - CAP_KEYS, k) == Get(a.contract, k);
      assert k in a.contract - CAP_KEYS <==> k in a.contract;
      assert k in b.contract - CAP_KEYS <==> k in b.contract;
    }
    if Normalised(a, maxTier, fp).Ok? {
      var run, day := Merged(a, MaxSpendPerRun, fp).value, Merged(a, MaxSpendPerDay, fp).value;
      var ca, cb := a.contract[MaxComputeTier := JInt(a.tier)], b.contract[MaxComputeTier := JInt(b.tier)];
      assert Mirror(Mirror(ca, MaxSpendPerRun, run, fp), MaxSpendPerDay, day, fp)
          == Mirror(Mirror(cb, MaxSpendPerRun, run, fp), MaxSpendPerDay, day, fp);
    }
  }

  const CAP_KEYS: set<Key> := {MaxSpendPerRun, MaxSpendPerDay}

  // The definition with the two copies of one cap as given; JNull leaves the contract without it.
  function WithCap(d: Definition, key: Key, column: Option<real>, copy: Json): Definition
    requires key in CAP_KEYS
  {
    var e := d.(contract := if copy == JNull then d.contract - {key} else d.contract[key := copy]);
    if key == MaxSpendPerRun then e.(perRun := column) else e.(perDay := column)
  }

  lemma SameOtherwise(d: Definition, key: Key, c0: Option<real>, v0: Json, c1: Option<real>, v1: Json, maxTier: int,
                      fp: Floats)
    requires key in CAP_KEYS && Reconcile(c0, v0, fp) == Reconcile(c1, v1, fp)
    ensures Normalised(WithCap(d, key, c0, v0), maxTier, fp) == Normalised(WithCap(d, key, c1, v1), maxTier, fp)
  {
    var a, b := WithCap(d, key, c0, v0), WithCap(d, key, c1, v1);
    assert a.contract - CAP_KEYS == b.contract - CAP_KEYS;
    MergedDecides(a, b, maxTier, fp);
  }

  /** Where a cap is written does not matter: in the column only, in the contract only, as text or as a whole number,
      or in both, the definition comes out the same, or is refused for the same reason. */
  lemma SourceDoesNotMatter(d: Definition, key: Key, c: real, maxTier: int, fp: Floats)
    requires key in CAP_KEYS
    ensures var column := Normalised(WithCap(d, key, Some(c), JNull), maxTier, fp);
      && Normalised(WithCap(d, key, None, JText(Some(c))), maxTier, fp) == column
      && Normalised(WithCap(d, key, Some(c), JText(Some(c))), maxTier, fp) == column
      && (forall i: int :: i as real == c ==>
            && Normalised(WithCap(d, key, None, JInt(i)), maxTier, fp) == column
            && Normalised(WithCap(d, key, Some(c), JInt(i)), maxTier, fp) == column)
  {
    SameOtherwise(d, key, Some(c), JNull, None, JText(Some(c)), maxTier, fp);
    SameOtherwise(d, key, Some(c), JNull, Some(c), JText(Some(c)), maxTier, fp);
    forall i: int | i as real == c
      ensures Normalised(WithCap(d, key, None, JInt(i)), maxTier, fp) ==
              Normalised(WithCap(d, key, Some(c), JNull), maxTier, fp)
      ensures Normalised(WithCap(d, key, Some(c), JInt(i)), maxTier, fp) ==
              Normalised(WithCap(d, key, Some(c), JNull), maxTier, fp)
    {
      SameOtherwise(d, key, Some(c), JNull, None, JInt(i), maxTier, fp);
      SameOtherwise(d, key, Some(c), JNull, Some(c), JInt(i), maxTier, fp);
    }
  }

  // An accepted definition has the cap its copies stand for.
  lemma CapIsMerged(d: Definition, key: Key, column: Option<real>, copy: Json, maxTier: int, fp: Floats)
    requires key in CAP_KEYS && Normalised(WithCap(d, key, column, copy), maxTier, fp).Ok?
    ensures var n := Normalised(WithCap(d, key, column, copy), maxTier, fp).value;
      Reconcile(column, copy, fp) == Ok(if key == MaxSpendPerRun then n.perRun else n.perDay)
  {
  }

  /** Written in the contract as the float nearest to it, alone or beside the column, an acceptable cap comes out the
      same exactly when it survives the trip through float. */
  lemma FloatSourceAgreesIff(d: Definition, key: Key, c: real, maxTier: int, fp: Floats)
    requires key in CAP_KEYS && c > 0.0 && Normalised(WithCap(d, key, Some(c), JNull), maxTier, fp).Ok?
    ensures var column := Normalised(WithCap(d, key, Some(c), JNull), maxTier, fp);
      var copy := JFloat(fp.float(c));
      && (Normalised(WithCap(d, key, None, copy), maxTier, fp) == column <==> Survives(Some(c), fp))
      && (Normalised(WithCap(d, key, Some(c), copy), maxTier, fp) == column <==> Survives(Some(c), fp))
  {
    var copy := JFloat(fp.float(c));
    if Survives(Some(c), fp) {
      SameOtherwise(d, key, Some(c), JNull, None, copy, maxTier, fp);
      SameOtherwise(d, key, Some(c), JNull, Some(c), copy, maxTier, fp);
    } else {
      hide Normalised;
      CapIsMerged(d, key, Some(c), JNull, maxTier, fp);
      if Normalised(WithCap(d, key, None, copy), maxTier, fp).Ok? { CapIsMerged(d, key, None, copy, maxTier, fp); }
      if Normalised(WithCap(d, key, Some(c), copy), maxTier, fp).Ok? {
        CapIsMerged(d, key, Some(c), copy, maxTier, fp);
      }
    }
  }

  // ---------------------------------------------------------------- round trips

  // The cap read back from its float is the cap.
  predicate Survives(cap: Option<real>, fp: Floats) {
    cap.Some? && cap.value > 0.0 ==> fp.repr(fp.float(cap.value)) == cap.value
  }

  /** Normalising an accepted definition again changes nothing exactly when both caps survive the trip through
      float; otherwise the second pass rejects it because the copies now disagree. */
  lemma IdempotentIff(d: Definition, maxTier: int, fp: Floats)
    requires Normalised(d, maxTier, fp).Ok?
    ensures var n := Normalised(d, maxTier, fp).value; var again := Normalised(n, maxTier, fp);
      && (again == Ok(n) <==> Survives(n.perRun, fp) && Survives(n.perDay, fp))
      && (again == Ok(n) || again == Err(CapsDisagree))
  {
    AcceptedIsConsistent(d, maxTier, fp);
    var n := Normalised(d, maxTier, fp).value;
    assert n.contract[MaxComputeTier := JInt(n.tier)] == n.contract;
    assert MaxSpendPerRun in n.contract <==> n.perRun.Some?;
    assert MaxSpendPerDay in n.contract <==> n.perDay.Some?;
    assert Mirror(Mirror(n.contract, MaxSpendPerRun, n.perRun, fp), MaxSpendPerDay, n.perDay, fp) == n.contract;
  }

  /** Every cap of at most 15 digits survives; in particular every value of a Numeric(12, 4) column. */
  lemma SafeCapsSurvive(cap: real, fp: Floats)
    requires Ieee(fp) && cap > 0.0 && HasDigits(cap, SAFE_DIGITS)
    ensures Survives(Some(cap), fp)
  {
    RoundIsFloat(cap);
    SafeDecimalsSurvive(cap, fp.repr(Round(cap)));
  }

  lemma {:induction false} MoreDigits(d: real, k: nat, l: nat)
    requires HasDigits(d, k) && k <= l
    ensures HasDigits(d, l)
    decreases l - k
  {
    if k < l {
      var m, j := DigitsOf(d, k);
      assert TenTo(k) <= TenTo(k + 1);
      assert m < TenTo(k + 1) && d == Decimal(m, j);
      MoreDigits(d, k + 1, l);
    }
  }

  // Two caps of 16 digits with one float.
  const LONG_CAPS: set<real> := {9007199254740992.0, 9007199254740993.0}

  lemma LongCapsHaveSixteenDigits(c: real)
    requires c in LONG_CAPS
    ensures HasDigits(c, 16)
  {
    assert TenTo(4) == 10000 && TenTo(8) == 100000000 && TenTo(12) == 1000000000000 && TenTo(16) == 10000000000000000;
    assert Pow10(0) == 1.0;
    var m: nat := if c == 9007199254740992.0 then 9007199254740992 else 9007199254740993;
    assert m < TenTo(16) && c == Decimal(m, 0);
  }

  /** Of the two 16-digit caps 9007199254740992 and 9007199254740993 at least one does not survive. */
  lemma SomeLongCapIsLost(fp: Floats) returns (c: real)
    requires Ieee(fp)
    ensures c in LONG_CAPS && !Survives(Some(c), fp)
  {
    SixteenDigitsCollide();
    c := if Survives(Some(9007199254740992.0), fp) then 9007199254740993.0 else 9007199254740992.0;
  }

  /** Fifteen is the exact bound: every cap of at most `k` digits survives exactly when `k` is at most 15. */
  lemma DigitBoundIff(k: nat, fp: Floats)
    requires Ieee(fp)
    ensures (forall c :: c > 0.0 && HasDigits(c, k) ==> Survives(Some(c), fp)) <==> k <= SAFE_DIGITS
  {
    if k <= SAFE_DIGITS {
      forall c | c > 0.0 && HasDigits(c, k) ensures Survives(Some(c), fp) {
        MoreDigits(c, k, SAFE_DIGITS);
        SafeCapsSurvive(c, fp);
      }
    } else {
      var c := SomeLongCapIsLost(fp);
      LongCapsHaveSixteenDigits(c);
      MoreDigits(c, 16, k);
    }
  }

  /** A definition that is accepted and then, normalised once more, rejected. */
  lemma SecondPassRejects(maxTier: nat, fp: Floats) returns (d: Definition)
    requires Ieee(fp)
    ensures Normalised(d, maxTier, fp).Ok?
    ensures Normalised(Normalised(d, maxTier, fp).value, maxTier, fp) == Err(CapsDisagree)
  {
    var c := SomeLongCapIsLost(fp);
    d := Definition("", 0, map[], Some(c), None);
    IdempotentIff(d, maxTier, fp);
  }

  lemma ColumnCapsSurvive(n: nat, fp: Floats)
    requires Ieee(fp) && 0 < n < TenTo(12)
    ensures Survives(Some(n as real / 10000.0), fp)
  {
    assert Pow10(-4) == 1.0 / 10000.0;
    assert n as real / 10000.0 == Decimal(n, -4);
    assert HasDigits(n as real / 10000.0, 12);
    MoreDigits(n as real / 10000.0, 12, SAFE_DIGITS);
    SafeCapsSurvive(n as real / 10000.0, fp);
  }

  /** Definitions whose caps come from Numeric(12, 4) columns normalise once and for all. */
  lemma ColumnDefinitionsAreStable(d: Definition, run: nat, day: nat, maxTier: int, fp: Floats)
    requires Ieee(fp) && 0 < run < TenTo(12) && 0 < day < TenTo(12)
    requires d.perRun in {None, Some(run as real / 10000.0)} && d.perDay in {None, Some(day as real / 10000.0)}
    requires Get(d.contract, MaxSpendPerRun) == JNull && Get(d.contract, MaxSpendPerDay) == JNull
    requires Normalised(d, maxTier, fp).Ok?
    ensures var n := Normalised(d, maxTier, fp).value; Normalised(n, maxTier, fp) == Ok(n)
  {
    IdempotentIff(d, maxTier, fp);
    ColumnCapsSurvive(run, fp);
    ColumnCapsSurvive(day, fp);
  }

  // ---------------------------------------------------------------- the validators

  class Payload {
    const scope: string
    const tier: int
    var contract: map<Key, Json>
    var perRun: Option<real>
    var perDay: Option<real>

    constructor (d: Definition)
      ensures Contents() == d
    {
      scope, tier, contract, perRun, perDay := d.scope, d.tier, d.contract, d.perRun, d.perDay;
    }

    ghost function Contents(): Definition
      reads this
    {
      Definition(scope, tier, contract, perRun, perDay)
    }

    method ReconcileComputeTier(maxTier: int) returns (error: Option<CapError>)
      modifies this`contract
      ensures error.None? <==>
              0 <= tier <= maxTier && Get(old(contract), MaxComputeTier) in {JNull, JInt(tier), JFloat(tier as real)}
      ensures contract == if error.None? then old(contract)[MaxComputeTier := JInt(tier)] else old(contract)
      ensures error.Some? ==> error.value == if 0 <= tier <= maxTier then TierDisagrees else TierOutOfRange
    {
      if tier < 0 || tier > maxTier {
        return Some(TierOutOfRange);
      }
      var contractTier := Get(contract, MaxComputeTier);
      if contractTier != JNull && !TierMatches(contractTier, tier) {
        return Some(TierDisagrees);
      }
      contract := contract[MaxComputeTier := JInt(tier)];
      return None;
    }

    // Both caps are merged and checked before either is written back, to the columns and then to the contract.
    method ReconcileSpendCaps(fp: Floats) returns (error: Option<CapError>)
      modifies this
      ensures error.None? <==> KeepsCapRules(old(Contents()), fp)
      ensures error.None? ==> perRun == CapOf(old(Contents()), MaxSpendPerRun, fp)
                              && perDay == CapOf(old(Contents()), MaxSpendPerDay, fp)
      ensures var run, day := Reconcile(old(perRun), Get(old(contract), MaxSpendPerRun), fp),
                              Reconcile(old(perDay), Get(old(contract), MaxSpendPerDay), fp);
        && (error.None? <==> run.Ok? && day.Ok? && CapsCheck(run.value, day.value).None?)
        && (error.None? ==> perRun == run.value && perDay == day.value)
        && (error.None? ==>
              contract == Mirror(Mirror(old(contract), MaxSpendPerRun, run.value, fp), MaxSpendPerDay, day.value, fp))
        && (error.Some? ==> Contents() == old(Contents()))
        && (error.Some? ==> error == if run.Err? then Some(run.error) else if day.Err? then Some(day.error)
                                     else CapsCheck(run.value, day.value))
    {
      var keys := [MaxSpendPerRun, MaxSpendPerDay];
      var columns := map[MaxSpendPerRun := perRun, MaxSpendPerDay := perDay];
      var merged: map<Key, Option<real>> := map[];
      var i := 0;
      while i < |keys|
        invariant 0 <= i <= |keys| && Contents() == old(Contents())
        invariant forall j :: 0 <= j < i ==>
          keys[j] in merged && Reconcile(columns[keys[j]], Get(contract, keys[j]), fp) == Ok(merged[keys[j]])
      {
        var m := Reconcile(columns[keys[i]], Get(contract, keys[i]), fp);
        if m.Err? {
          assert i == 0 || i == 1;
          assert i == 1 ==> Reconcile(columns[keys[0]], Get(contract, keys[0]), fp).Ok?;
          return Some(m.error);
        }
        merged := merged[keys[i] := m.value];
        i := i + 1;
      }
      assert keys[0] in merged && keys[1] in merged;
      error := CapsCheck(merged[MaxSpendPerRun], merged[MaxSpendPerDay]);
      if error.Some? {
        return;
      }
      perRun, perDay := merged[MaxSpendPerRun], merged[MaxSpendPerDay];
      contract := Mirror(contract, MaxSpendPerRun, perRun, fp);
      contract := Mirror(contract, MaxSpendPerDay, perDay, fp);
    }

    /** All validators in order. A payload is accepted exactly when it keeps every rule, and has then become its normal
        form; otherwise the first broken rule is the error. */
    method Validate(maxTier: int, fp: Floats) returns (error: Option<CapError>)
      modifies this
      ensures error.None? <==> KeepsAll(old(Contents()), maxTier, fp)
      ensures error.Some? ==>
                exists i: nat :: FirstBroken(old(Contents()), i, maxTier, fp) && error.value == ErrorOf(RULES[i])
      ensures error.None? ==> perRun == CapOf(old(Contents()), MaxSpendPerRun, fp)
                              && perDay == CapOf(old(Contents()), MaxSpendPerDay, fp)
      ensures error.None? ==> Ok(Contents()) == Normalised(old(Contents()), maxTier, fp)
      ensures error.Some? ==> Err(error.value) == Normalised(old(Contents()), maxTier, fp)
    {
      AcceptedIffRules(Contents(), maxTier, fp);
      error := ReconcileComputeTier(maxTier);
      if error.Some? {
        return;
      }
      error := ReconcileSpendCaps(fp);
      if error.Some? {
        return;
      }
      if scope == "none" && tier > 0 {
        return Some(TierNeedsWorkspace);
      }
    }
  }
}
