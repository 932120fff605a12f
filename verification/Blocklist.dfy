/** The e-mail domain blocklist: three string tests that amount to one comparison of labels. */
module Blocklist {
  import opened Prelude
  import opened Strings

  // ---------------------------------------------------------------------
  // One pattern
  // ---------------------------------------------------------------------

  predicate EndsWith(s: string, t: string) {
    |t| <= |s| && s[|s| - |t|..] == t
  }

  predicate Dotted(pattern: string) { pattern != "" && pattern[0] == '.' }

  /** The three tests in the order the loop makes them. */
  predicate Matches(domain: string, pattern: string) {
    || domain == pattern
    || EndsWith(domain, "." + pattern)
    || (Dotted(pattern) && (EndsWith(domain, pattern) || domain == pattern[1..]))
  }

  function Labels(domain: string): seq<string> { Split(domain, '.') }

  predicate SuffixOf(a: seq<string>, b: seq<string>) {
    |a| <= |b| && b[|b| - |a|..] == a
  }

  /** The pattern without one leading dot, if it has one. */
  function Undotted(pattern: string): string { if Dotted(pattern) then pattern[1..] else pattern }

  lemma BelowHasLabels(domain: string, name: string)
    requires EndsWith(domain, "." + name)
    ensures SuffixOf(Labels(name), Labels(domain))
  {
    var prefix := domain[..|domain| - |name| - 1];
    assert domain == prefix + ['.'] + name;
    SplitAt(prefix, name, '.');
  }

  lemma LabelsMeanBelow(domain: string, name: string)
    requires SuffixOf(Labels(name), Labels(domain))
    ensures domain == name || EndsWith(domain, "." + name)
  {
    hide Split, Join;
    var n := |Labels(domain)| - |Labels(name)|;
    var above := Labels(domain)[..n];
    assert Labels(domain) == above + Labels(name);
    JoinSplit(domain, '.');
    JoinSplit(name, '.');
    if above == [] {
      assert Labels(domain) == Labels(name);
    } else {
      JoinAppend(above, Labels(name), '.');
      assert domain == Join(above, '.') + ("." + name);
    }
  }

  /** Being a name or lying below it, spelled with dots, is having its labels as a suffix. */
  lemma BelowIffLabels(domain: string, name: string)
    ensures domain == name || EndsWith(domain, "." + name) <==> SuffixOf(Labels(name), Labels(domain))
  {
    if EndsWith(domain, "." + name) { BelowHasLabels(domain, name); }
    if SuffixOf(Labels(name), Labels(domain)) { LabelsMeanBelow(domain, name); }
  }

  /** For every pattern, the three tests together compare labels, one leading dot aside. */
  lemma MatchesIffLabels(domain: string, pattern: string)
    ensures Matches(domain, pattern) <==> SuffixOf(Labels(Undotted(pattern)), Labels(domain))
  {
    var name := Undotted(pattern);
    BelowIffLabels(domain, name);
    if Dotted(pattern) {
      assert "." + name == pattern;
      if EndsWith(domain, "." + pattern) {
        assert domain[|domain| - |pattern|..] == domain[|domain| - |pattern| - 1..][1..];
      }
    }
  }

  /** Writing one dot in front of a pattern changes nothing exactly when there was none before. */
  lemma LeadingDotIsNeutralIff(pattern: string)
    ensures (forall domain :: Matches(domain, "." + pattern) <==> Matches(domain, pattern)) <==> !Dotted(pattern)
  {
    var dotted := "." + pattern;
    assert Dotted(dotted) && Undotted(dotted) == pattern;
    if Dotted(pattern) {
      var name := pattern[1..];
      assert pattern == "." + name;
      assert Matches(name, pattern);
      assert !Matches(name, dotted) by {
        assert |name| < |dotted|;
      }
    } else {
      forall domain ensures Matches(domain, dotted) <==> Matches(domain, pattern) {
        MatchesIffLabels(domain, dotted);
        MatchesIffLabels(domain, pattern);
      }
    }
  }

  /** Whatever blocks a domain blocks everything below it. */
  lemma SubdomainsAreBlocked(sub: string, domain: string, pattern: string)
    requires Matches(domain, pattern)
    ensures Matches(sub + "." + domain, pattern)
  {
    hide Matches, Split, Undotted;
    MatchesIffLabels(domain, pattern);
    MatchesIffLabels(sub + "." + domain, pattern);
    SplitAt(sub, domain, '.');
    var name := Labels(Undotted(pattern));
    var all := Labels(sub) + Labels(domain);
    assert sub + ['.'] + domain == sub + "." + domain;
    assert all[|all| - |name|..] == Labels(domain)[|Labels(domain)| - |name|..];
  }

  // ---------------------------------------------------------------------
  // The whole test
  // ---------------------------------------------------------------------

  /** Lower case, for the letters A to Z. */
  function LowerChar(c: char): char {
    if 'A' <= c <= 'Z' then c - 'A' + 'a' else c
  }

  function Lower(s: string): (r: string)
    ensures |r| == |s| && forall k :: 0 <= k < |s| ==> r[k] == LowerChar(s[k])
  {
    seq(|s|, k requires 0 <= k < |s| => LowerChar(s[k]))
  }

  /** What follows the last at sign, in lower case. */
  function Domain(email: string): Option<string> {
    if '@' !in email then None
    else
      var parts := Split(email, '@');
      Some(Lower(parts[|parts| - 1]))
  }

  /** The trimmed, lower-case entries of a comma separated list, without the empty ones. */
  function ParseCsv(value: string): seq<string> { Kept(Split(value, ',')) }

  function Kept(parts: seq<string>): seq<string> {
    if parts == [] then []
    else
      var entry := Strip(parts[0], IsSpace);
      (if entry == "" then [] else [Lower(entry)]) + Kept(parts[1..])
  }

  /** The list holds exactly the trimmed, lower-case forms of the parts that are not blank. */
  lemma {:induction false} KeptIff(parts: seq<string>, p: string)
    ensures p in Kept(parts) <==>
              exists part :: part in parts && Strip(part, IsSpace) != "" && p == Lower(Strip(part, IsSpace))
  {
    hide Strip, IsSpace, Lower;
    if parts != [] {
      KeptIff(parts[1..], p);
      assert forall part :: part in parts <==> part == parts[0] || part in parts[1..];
    }
  }

  const UPPER := "ABCDEFGHIJKLMNOPQRSTUVWXYZ"
  const LOWER := "abcdefghijklmnopqrstuvwxyz"

  /** Lower case changes the twenty-six capital letters, each to its own small one, and nothing else. */
  lemma LowerIsLetterwise(c: char)
    ensures c in UPPER ==> exists i :: 0 <= i < 26 && UPPER[i] == c && LOWER[i] == LowerChar(c)
    ensures c !in UPPER ==> LowerChar(c) == c
  {
    if 'A' <= c <= 'Z' {
      var i := c as int - 'A' as int;
      assert UPPER[i] == c && LOWER[i] == LowerChar(c);
    }
  }

  /** The list holds exactly the lower-case forms of what stands between commas, trimmed and not blank. */
  lemma ListedIff(value: string, p: string)
    ensures p in ParseCsv(value) <==>
              exists i, j :: IsPart(value, ',', i, j)
                             && Strip(value[i..j], IsSpace) != "" && p == Lower(Strip(value[i..j], IsSpace))
  {
    hide Strip, IsSpace, Lower, Split, Kept;
    KeptIff(Split(value, ','), p);
    if part :| part in Split(value, ',') && Strip(part, IsSpace) != "" && p == Lower(Strip(part, IsSpace)) {
      SplitIff(value, ',', part);
    }
    if i, j :| IsPart(value, ',', i, j)
               && Strip(value[i..j], IsSpace) != "" && p == Lower(Strip(value[i..j], IsSpace)) {
      SplitIff(value, ',', value[i..j]);
    }
  }

  /** An address without an at sign is never blocked; any matching pattern blocks the rest. */
  predicate IsBlocked(blocked: string, email: string) {
    var domain := Domain(email);
    blocked != "" && domain.Some?
    && exists k :: 0 <= k < |ParseCsv(blocked)| && Matches(domain.value, ParseCsv(blocked)[k])
  }

  /** The address `local` at `domain`. */
  lemma DomainOf(local: string, domain: string)
    requires '@' !in domain
    ensures Domain(local + "@" + domain) == Some(Lower(domain))
  {
    var email := local + "@" + domain;
    assert email[|local|] == '@';
    assert email == local + ['@'] + domain;
    SplitAt(local, domain, '@');
    NoSeparator(domain, '@');
  }

  /**
    * An address is blocked exactly when the labels of some list entry, one leading dot aside, are
    * the last labels of its domain. Letter case, the local part and earlier at signs do not count.
    */
  lemma BlockedIff(blocked: string, local: string, domain: string)
    requires '@' !in domain
    ensures IsBlocked(blocked, local + "@" + domain) <==>
              exists p :: p in ParseCsv(blocked) && SuffixOf(Labels(Undotted(p)), Labels(Lower(domain)))
  {
    hide Domain, Matches, SuffixOf, ParseCsv, Labels;
    DomainOf(local, domain);
    var d := Lower(domain);
    var patterns := ParseCsv(blocked);
    forall p ensures Matches(d, p) <==> SuffixOf(Labels(Undotted(p)), Labels(d)) { MatchesIffLabels(d, p); }
    if p :| p in patterns && SuffixOf(Labels(Undotted(p)), Labels(d)) {
      var k :| 0 <= k < |patterns| && patterns[k] == p;
      assert Matches(d, patterns[k]);
      if blocked == "" { EmptyList(); }
    }
  }

  lemma EmptyList()
    ensures ParseCsv("") == []
  {
    hide IsSpace, Strip;
    assert Split("", ',') == [""];
    StripKeepsIff("", IsSpace);
    assert Kept([""]) == [] + Kept([]);
  }

  /** Blocking an address blocks every address below its domain. */
  lemma BlockingIsInherited(blocked: string, local: string, domain: string, other: string, sub: string)
    requires '@' !in domain && '@' !in sub
    requires IsBlocked(blocked, local + "@" + domain)
    ensures IsBlocked(blocked, other + "@" + (sub + "." + domain))
  {
    hide Domain, Matches, ParseCsv;
    DomainOf(local, domain);
    DomainOf(other, sub + "." + domain);
    var k :| 0 <= k < |ParseCsv(blocked)| && Matches(Lower(domain), ParseCsv(blocked)[k]);
    SubdomainsAreBlocked(Lower(sub), Lower(domain), ParseCsv(blocked)[k]);
    assert Lower(sub + "." + domain) == Lower(sub) + "." + Lower(domain);
  }
}
