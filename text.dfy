/**
 * The handful of Python string operations the scraper relies on, written
 * out over `seq<char>`: `str.strip()`, `str.split(c, 1)[0]`,
 * `str.replace(c, "")` and the substring test `pat in s`.
 *
 * The functions are plain definitions; what each of them means is stated
 * and proved in the lemma that follows it.
 */
module Text {

  /** Python's `str.isspace()` on one character: the characters `str.strip()` removes. */
  predicate IsSpace(c: char)
  {
    var n := c as int;
    (9 <= n <= 13) || (0x1C <= n <= 0x20) || n == 0x85 || n == 0xA0 || n == 0x1680
    || (0x2000 <= n <= 0x200A) || n == 0x2028 || n == 0x2029 || n == 0x202F
    || n == 0x205F || n == 0x3000
  }

  /** How many whitespace characters `s` starts with. */
  function LeadingSpaces(s: string): (k: nat)
    ensures k <= |s|
  {
    if s != [] && IsSpace(s[0]) then 1 + LeadingSpaces(s[1..]) else 0
  }

  /** `LeadingSpaces` counts the whole run of leading whitespace and stops at the first other character. */
  lemma {:induction false} LeadingSpacesSpec(s: string)
    ensures forall j :: 0 <= j < LeadingSpaces(s) ==> IsSpace(s[j])
    ensures LeadingSpaces(s) < |s| ==> !IsSpace(s[LeadingSpaces(s)])
  {
    if s != [] && IsSpace(s[0]) {
      LeadingSpacesSpec(s[1..]);
    }
  }

  /** The length of `s` once its trailing whitespace is dropped. */
  function TrimmedEnd(s: string): (k: nat)
    ensures k <= |s|
  {
    if s != [] && IsSpace(s[|s| - 1]) then TrimmedEnd(s[..|s| - 1]) else |s|
  }

  /** Everything from `TrimmedEnd(s)` on is whitespace, and the character just before it is not. */
  lemma {:induction false} TrimmedEndSpec(s: string)
    ensures forall j :: TrimmedEnd(s) <= j < |s| ==> IsSpace(s[j])
    ensures TrimmedEnd(s) > 0 ==> !IsSpace(s[TrimmedEnd(s) - 1])
  {
    if s != [] && IsSpace(s[|s| - 1]) {
      TrimmedEndSpec(s[..|s| - 1]);
    }
  }

  /** `str.strip()`: the whitespace at both ends removed. */
  function Strip(s: string): (r: string)
    ensures |r| <= |s|
  {
    var t := s[LeadingSpaces(s)..];
    t[..TrimmedEnd(t)]
  }

  /** `r` sits in `s` at offset `i` with only whitespace around it. */
  ghost predicate FramedBySpace(s: string, i: nat, r: string)
  {
    && i + |r| <= |s|
    && s[i..i + |r|] == r
    && (forall k :: 0 <= k < i ==> IsSpace(s[k]))
    && (forall k :: i + |r| <= k < |s| ==> IsSpace(s[k]))
  }

  /**
   * `Strip` removes whitespace at the two ends and touches nothing else:
   * its result sits in `s` between two runs of whitespace, neither starts
   * nor ends with whitespace, and keeps only characters of `s`.
   */
  lemma StripSpec(s: string)
    ensures exists i: nat :: FramedBySpace(s, i, Strip(s))
    ensures Strip(s) != [] ==> !IsSpace(Strip(s)[0]) && !IsSpace(Strip(s)[|Strip(s)| - 1])
    ensures multiset(Strip(s)) <= multiset(s)
  {
    var i := LeadingSpaces(s);
    var t := s[i..];
    var r := Strip(s);
    LeadingSpacesSpec(s);
    TrimmedEndSpec(t);
    assert s[i..i + |r|] == r;
    assert FramedBySpace(s, i, r);
    assert s == s[..i] + r + s[i + |r|..];
  }

  /** Leading whitespace in front of a string that does not itself start with whitespace is exactly what is counted. */
  lemma {:induction false} LeadingSpacesPrefix(a: string, t: string)
    requires forall k :: 0 <= k < |a| ==> IsSpace(a[k])
    requires t != [] ==> !IsSpace(t[0])
    ensures LeadingSpaces(a + t) == |a|
  {
    if a == [] {
      assert a + t == t;
    } else {
      assert (a + t)[1..] == a[1..] + t;
      LeadingSpacesPrefix(a[1..], t);
    }
  }

  /** Trailing whitespace after a string that does not itself end with whitespace is exactly what is dropped. */
  lemma {:induction false} TrimmedEndSuffix(t: string, b: string)
    requires forall k :: 0 <= k < |b| ==> IsSpace(b[k])
    requires t != [] ==> !IsSpace(t[|t| - 1])
    ensures TrimmedEnd(t + b) == |t|
  {
    if b == [] {
      assert t + b == t;
    } else {
      assert (t + b)[..|t + b| - 1] == t + b[..|b| - 1];
      TrimmedEndSuffix(t, b[..|b| - 1]);
    }
  }

  /** Whatever sits between two runs of whitespace and neither starts nor ends with it is what `Strip` keeps. */
  lemma StripUnique(a: string, core: string, b: string)
    requires forall k :: 0 <= k < |a| ==> IsSpace(a[k])
    requires forall k :: 0 <= k < |b| ==> IsSpace(b[k])
    requires core != [] ==> !IsSpace(core[0]) && !IsSpace(core[|core| - 1])
    ensures Strip(a + core + b) == core
  {
    var s := a + core + b;
    if core == [] {
      assert s == (a + b) + [];
      LeadingSpacesPrefix(a + b, []);
      assert s[|s|..] == [];
    } else {
      assert s == a + (core + b);
      LeadingSpacesPrefix(a, core + b);
      assert s[|a|..] == core + b;
      TrimmedEndSuffix(core, b);
    }
  }

  /** Stripping twice is stripping once. */
  lemma StripIdempotent(s: string)
    ensures Strip(Strip(s)) == Strip(s)
  {
    StripSpec(s);
    StripUnique([], Strip(s), []);
    assert [] + Strip(s) + [] == Strip(s);
  }

  /** Index of the first `c` in `s`, or `|s|` when there is none. */
  function IndexOf(s: string, c: char): (k: nat)
    ensures k <= |s|
  {
    if s == [] || s[0] == c then 0 else 1 + IndexOf(s[1..], c)
  }

  /** No `c` comes before `IndexOf(s, c)`, and a `c` sits there unless it is the end. */
  lemma {:induction false} IndexOfSpec(s: string, c: char)
    ensures forall j :: 0 <= j < IndexOf(s, c) ==> s[j] != c
    ensures IndexOf(s, c) < |s| ==> s[IndexOf(s, c)] == c
  {
    if s != [] && s[0] != c {
      IndexOfSpec(s[1..], c);
    }
  }

  /** `str.split(c, 1)[0]`: the part of `s` before the first `c`, or all of `s` when there is none. */
  function Before(s: string, c: char): (r: string)
    ensures |r| <= |s|
  {
    s[..IndexOf(s, c)]
  }

  /** `Before` keeps a prefix of `s` without `c`, and stops only at a `c` or at the end. */
  lemma BeforeSpec(s: string, c: char)
    ensures Before(s, c) == s[..|Before(s, c)|]
    ensures c !in Before(s, c)
    ensures |Before(s, c)| < |s| ==> s[|Before(s, c)|] == c
  {
    IndexOfSpec(s, c);
  }

  /** The part before the first `c` is everything up to a `c` that nothing before it matches, or all of a string without `c`. */
  lemma BeforeFirst(x: string, c: char, y: string)
    requires c !in x
    ensures Before(x + [c] + y, c) == x
    ensures Before(x, c) == x
  {
    BeforeSpec(x + [c] + y, c);
    BeforeSpec(x, c);
    assert (x + [c] + y)[|x|] == c;
  }

  /** `str.replace(c, "")`: every `c` deleted, every other character kept in order. */
  function DeleteAll(s: string, c: char): (r: string)
    ensures |r| <= |s|
  {
    if s == [] then [] else (if s[0] == c then [] else [s[0]]) + DeleteAll(s[1..], c)
  }

  /** No `c` is left, and every other character keeps its number of occurrences. */
  lemma {:induction false} DeleteAllSpec(s: string, c: char)
    ensures c !in DeleteAll(s, c)
    ensures multiset(DeleteAll(s, c)) == multiset(s)[c := 0]
  {
    if s != [] {
      DeleteAllSpec(s[1..], c);
      var head := if s[0] == c then [] else [s[0]];
      var rest := DeleteAll(s[1..], c);
      assert DeleteAll(s, c) == head + rest;
      assert multiset(DeleteAll(s, c)) == multiset(head) + multiset(rest);
      assert s == [s[0]] + s[1..];
      assert multiset(s) == multiset([s[0]]) + multiset(s[1..]);
    }
  }

  /** Deleting distributes over concatenation: no character is moved across another. */
  lemma {:induction false} DeleteAllAppend(x: string, y: string, c: char)
    ensures DeleteAll(x + y, c) == DeleteAll(x, c) + DeleteAll(y, c)
  {
    if x != [] {
      assert (x + y)[1..] == x[1..] + y;
      DeleteAllAppend(x[1..], y, c);
    } else {
      assert x + y == y;
    }
  }

  /** A string without `c` is left as it is. */
  lemma {:induction false} DeleteAllAbsent(s: string, c: char)
    requires c !in s
    ensures DeleteAll(s, c) == s
  {
    if s != [] {
      DeleteAllAbsent(s[1..], c);
    }
  }

  /** `pat` occurs in `s` starting at index `i`. */
  ghost predicate OccursAt(s: string, pat: string, i: nat)
  {
    i + |pat| <= |s| && s[i..i + |pat|] == pat
  }

  /** Python's `pat in s` for strings, by scanning `s` from the left. */
  function Contains(s: string, pat: string): (found: bool)
    ensures found ==> |pat| <= |s|
    decreases |s|
  {
    if |s| < |pat| then false
    else if s[..|pat|] == pat then true
    else s != [] && Contains(s[1..], pat)
  }

  /** The scan finds `pat` exactly when `pat` occurs at some index of `s`. */
  lemma {:induction false} ContainsIffOccurs(s: string, pat: string)
    ensures Contains(s, pat) <==> exists i: nat :: OccursAt(s, pat, i)
    decreases |s|
  {
    if |s| < |pat| {
      forall i: nat ensures !OccursAt(s, pat, i) {}
    } else if s[..|pat|] == pat {
      assert OccursAt(s, pat, 0);
    } else {
      ContainsIffOccurs(s[1..], pat);
      if Contains(s[1..], pat) {
        var i: nat :| OccursAt(s[1..], pat, i);
        assert s[i + 1..i + 1 + |pat|] == s[1..][i..i + |pat|];
        assert OccursAt(s, pat, i + 1);
      }
      if exists i: nat :: OccursAt(s, pat, i) {
        var i: nat :| OccursAt(s, pat, i);
        assert i != 0;
        assert s[1..][i - 1..i - 1 + |pat|] == s[i..i + |pat|];
        assert OccursAt(s[1..], pat, i - 1);
      }
    }
  }
}
