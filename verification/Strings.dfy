/** Stripping characters off both ends of a string, and splitting on one character. */
module Strings {

  /** The characters that a bare strip removes. */
  predicate IsSpace(c: char) {
    var n := c as int;
    || 9 <= n <= 13 || 28 <= n <= 32 || n == 0x85 || n == 0xA0 || n == 0x1680 || 0x2000 <= n <= 0x200A
    || n == 0x2028 || n == 0x2029 || n == 0x202F || n == 0x205F || n == 0x3000
  }

  // Those characters one by one.
  const SPACES: string :=
    "\t\n\U{000B}\U{000C}\r\U{001C}\U{001D}\U{001E}\U{001F} \U{0085}\U{00A0}\U{1680}\U{2000}\U{2001}\U{2002}\U{2003}"
    + "\U{2004}\U{2005}\U{2006}\U{2007}\U{2008}\U{2009}\U{200A}\U{2028}\U{2029}\U{202F}\U{205F}\U{3000}"

  lemma SpacesAre(c: char)
    ensures IsSpace(c) <==> c in SPACES
  {
    var n := c as int;
    if IsSpace(c) {
      var k := if n <= 13 then n - 9 else if n <= 32 then n - 23
               else if n == 0x85 then 10 else if n == 0xA0 then 11 else if n == 0x1680 then 12
               else if n <= 0x200A then n - 0x2000 + 13 else if n <= 0x2029 then n - 0x2028 + 24
               else if n == 0x202F then 26 else if n == 0x205F then 27 else 28;
      assert SPACES[k] as int == n;
    }
  }

  function DropLeft(s: string, p: char -> bool): (r: string)
    ensures |r| <= |s| && r == s[|s| - |r|..]
    ensures r != "" ==> !p(r[0])
    ensures forall k :: 0 <= k < |s| - |r| ==> p(s[k])
  {
    if s != "" && p(s[0]) then DropLeft(s[1..], p) else s
  }

  function DropRight(s: string, p: char -> bool): (r: string)
    ensures |r| <= |s| && r == s[..|r|]
    ensures r != "" ==> !p(r[|r| - 1])
    ensures forall k :: |r| <= k < |s| ==> p(s[k])
  {
    if s != "" && p(s[|s| - 1]) then DropRight(s[..|s| - 1], p) else s
  }

  /** Removes the characters in `p` from both ends. */
  function Strip(s: string, p: char -> bool): string { DropRight(DropLeft(s, p), p) }

  /** Neither end of the string is in `p`. */
  predicate Bare(s: string, p: char -> bool) { s != "" ==> !p(s[0]) && !p(s[|s| - 1]) }

  lemma StripKeepsIff(s: string, p: char -> bool)
    ensures Strip(s, p) == s <==> Bare(s, p)
    ensures Bare(Strip(s, p), p)
  {
    var l := DropLeft(s, p);
    var r := DropRight(l, p);
    if r != "" { assert r[0] == l[0]; }
    if r == s { assert l == s; }
  }

  lemma DropLeftOnce(c: char, s: string, p: char -> bool)
    requires p(c)
    ensures DropLeft([c] + s, p) == DropLeft(s, p)
  {
    assert ([c] + s)[1..] == s;
  }

  lemma DropRightOnce(s: string, c: char, p: char -> bool)
    requires p(c)
    ensures DropRight(s + [c], p) == DropRight(s, p)
  {
    assert (s + [c])[..|s|] == s;
  }

  lemma {:induction false} DropLeftSnoc(s: string, c: char, p: char -> bool)
    ensures DropLeft(s + [c], p) == if DropLeft(s, p) == "" then DropLeft([c], p) else DropLeft(s, p) + [c]
  {
    if s != "" && p(s[0]) {
      assert (s + [c])[1..] == s[1..] + [c];
      DropLeftSnoc(s[1..], c, p);
    } else if s == "" {
      assert s + [c] == [c];
    }
  }

  /** Stripping a wrapped string strips what was wrapped. */
  lemma StripWrapped(c: char, s: string, p: char -> bool)
    requires p(c)
    ensures Strip([c] + s + [c], p) == Strip(s, p)
  {
    assert [c] + s + [c] == [c] + (s + [c]);
    DropLeftOnce(c, s + [c], p);
    DropLeftSnoc(s, c, p);
    if DropLeft(s, p) == "" {
      DropLeftOnce(c, "", p);
      assert [c] + "" == [c];
    } else {
      DropRightOnce(DropLeft(s, p), c, p);
    }
  }

  // ---------------------------------------------------------------------
  // Splitting on one character
  // ---------------------------------------------------------------------

  function Split(s: string, sep: char): (parts: seq<string>)
    ensures parts != []
    ensures forall k :: 0 <= k < |parts| ==> sep !in parts[k]
  {
    if s == "" then [""]
    else if s[0] == sep then [""] + Split(s[1..], sep)
    else
      var rest := Split(s[1..], sep);
      [[s[0]] + rest[0]] + rest[1..]
  }

  // `s[i..j]` lies between two separators or ends and holds none.
  predicate IsPart(s: string, sep: char, i: int, j: int) {
    && 0 <= i <= j <= |s| && sep !in s[i..j]
    && (i == 0 || s[i - 1] == sep) && (j == |s| || s[j] == sep)
  }

  lemma {:induction false} NoSeparator(s: string, sep: char)
    requires sep !in s
    ensures Split(s, sep) == [s]
  {
    if s != "" {
      NoSeparator(s[1..], sep);
      assert [s[0]] + s[1..] == s;
    }
  }

  lemma {:induction false} PartAt(s: string, sep: char, k: nat) returns (i: nat, j: nat)
    requires k < |Split(s, sep)|
    ensures IsPart(s, sep, i, j) && Split(s, sep)[k] == s[i..j] && (k == 0 <==> i == 0)
  {
    i, j := 0, 0;
    if s != "" {
      if s[0] != sep {
        i, j := PartAt(s[1..], sep, k);
        assert s[1..][i..j] == s[i + 1..j + 1];
        if k == 0 {
          assert [s[0]] + s[1..j + 1] == s[0..j + 1];
        }
        i, j := if k == 0 then 0 else i + 1, j + 1;
      } else if k > 0 {
        i, j := PartAt(s[1..], sep, k - 1);
        assert s[1..][i..j] == s[i + 1..j + 1];
        i, j := i + 1, j + 1;
      }
    }
  }

  lemma PartIsSplit(s: string, sep: char, i: int, j: int)
    requires IsPart(s, sep, i, j)
    ensures s[i..j] in Split(s, sep)
  {
    hide Split;
    var part, rest := s[i..j], s[i..];
    NoSeparator(part, sep);
    if j < |s| {
      assert rest == part + [sep] + s[j + 1..];
      SplitAt(part, s[j + 1..], sep);
    } else {
      assert rest == part;
    }
    assert part in Split(rest, sep);
    if i > 0 {
      assert s == s[..i - 1] + [sep] + rest;
      SplitAt(s[..i - 1], rest, sep);
    } else {
      assert rest == s;
    }
  }

  /** Splitting gives exactly the pieces between separators. */
  lemma SplitIff(s: string, sep: char, part: string)
    ensures part in Split(s, sep) <==> exists i, j :: IsPart(s, sep, i, j) && part == s[i..j]
  {
    hide Split;
    if part in Split(s, sep) {
      var k :| 0 <= k < |Split(s, sep)| && Split(s, sep)[k] == part;
      var i, j := PartAt(s, sep, k);
    }
    if i, j :| IsPart(s, sep, i, j) && part == s[i..j] { PartIsSplit(s, sep, i, j); }
  }

  function Join(parts: seq<string>, sep: char): string
    requires parts != []
  {
    if |parts| == 1 then parts[0] else parts[0] + [sep] + Join(parts[1..], sep)
  }

  lemma {:induction false} JoinSplit(s: string, sep: char)
    ensures Join(Split(s, sep), sep) == s
  {
    if s != "" {
      JoinSplit(s[1..], sep);
      var rest := Split(s[1..], sep);
      if s[0] == sep {
        assert ([""] + rest)[1..] == rest;
      } else {
        assert ([[s[0]] + rest[0]] + rest[1..])[1..] == rest[1..];
        assert s == [s[0]] + s[1..];
      }
    }
  }

  lemma {:induction false} SplitAt(a: string, b: string, sep: char)
    ensures Split(a + [sep] + b, sep) == Split(a, sep) + Split(b, sep)
  {
    if a == "" {
      assert a + [sep] + b == [sep] + b;
      assert ([sep] + b)[1..] == b;
    } else {
      var whole := a + [sep] + b;
      assert whole[1..] == a[1..] + [sep] + b;
      SplitAt(a[1..], b, sep);
    }
  }

  lemma {:induction false} JoinAppend(a: seq<string>, b: seq<string>, sep: char)
    requires a != [] && b != []
    ensures Join(a + b, sep) == Join(a, sep) + [sep] + Join(b, sep)
  {
    if |a| == 1 {
      assert (a + b)[1..] == b;
    } else {
      assert (a + b)[1..] == a[1..] + b;
      JoinAppend(a[1..], b, sep);
    }
  }
}
