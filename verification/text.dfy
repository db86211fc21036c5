/**
 * The Python string operations the shaping code relies on: `str.find`,
 * `str.rstrip(chars)` and the ordering `sort` uses to compare strings
 * (lexicographic by code point).
 */
module Text {

  /** `sub` occurs in `s` starting at index `i`. */
  predicate OccursAt(s: string, sub: string, i: int)
  {
    0 <= i && i + |sub| <= |s| && s[i..i + |sub|] == sub
  }

  /** `s.find(sub, start)`: the lowest index at or after `start` where `sub` occurs, or -1. */
  function FindFrom(s: string, sub: string, start: nat): (r: int)
    decreases |s| - start
  {
    if start + |sub| > |s| then -1
    else if s[start..start + |sub|] == sub then start
    else FindFrom(s, sub, start + 1)
  }

  /** `s.find(sub)`. */
  function Find(s: string, sub: string): int
  {
    FindFrom(s, sub, 0)
  }

  /** `find` returns the first occurrence, and -1 exactly when there is none. */
  lemma {:induction false} FindFromSpec(s: string, sub: string, start: nat)
    ensures var r := FindFrom(s, sub, start);
      && (r == -1 <==> forall i :: start <= i ==> !OccursAt(s, sub, i))
      && (r != -1 ==> start <= r && OccursAt(s, sub, r)
                      && forall i :: start <= i < r ==> !OccursAt(s, sub, i))
    decreases |s| - start
  {
    if start + |sub| > |s| {
    } else if s[start..start + |sub|] == sub {
      assert OccursAt(s, sub, start);
    } else {
      assert !OccursAt(s, sub, start);
      FindFromSpec(s, sub, start + 1);
    }
  }

  /** The test `s.find(sub) > -1` holds exactly when `sub` is a substring of `s`. */
  lemma FindContains(s: string, sub: string)
    ensures Find(s, sub) > -1 <==> exists i :: OccursAt(s, sub, i)
  {
    FindFromSpec(s, sub, 0);
  }

  /** `s.rstrip(chars)`: drop trailing characters while they belong to the set `chars`. */
  function RStrip(s: string, chars: string): (r: string)
    ensures r <= s
    ensures r == [] || r[|r| - 1] !in chars
    ensures forall i :: |r| <= i < |s| ==> s[i] in chars
  {
    if s != [] && s[|s| - 1] in chars then RStrip(s[..|s| - 1], chars) else s
  }

  /**
   * The prefix `rstrip` keeps is the only one that ends in a character
   * outside `chars` (or is empty) while everything after it lies in `chars`.
   */
  lemma RStripUnique(s: string, chars: string, p: string)
    requires p <= s
    requires p == [] || p[|p| - 1] !in chars
    requires forall i :: |p| <= i < |s| ==> s[i] in chars
    ensures p == RStrip(s, chars)
  {
  }

  /** Python's `<` on strings: lexicographic, a proper prefix first. */
  predicate LexLess(a: string, b: string)
  {
    if a == [] then b != []
    else if b == [] then false
    else a[0] < b[0] || (a[0] == b[0] && LexLess(a[1..], b[1..]))
  }

  /** Python's `<=` on strings. */
  predicate LexLe(a: string, b: string)
  {
    !LexLess(b, a)
  }

  lemma {:induction false} LexLessIrreflexive(a: string)
    ensures !LexLess(a, a)
  {
    if a != [] { LexLessIrreflexive(a[1..]); }
  }

  lemma {:induction false} LexLessTransitive(a: string, b: string, c: string)
    requires LexLess(a, b) && LexLess(b, c)
    ensures LexLess(a, c)
  {
    if a != [] && a[0] == b[0] && b[0] == c[0] {
      LexLessTransitive(a[1..], b[1..], c[1..]);
    }
  }

  lemma LexLessAsymmetric(a: string, b: string)
    requires LexLess(a, b)
    ensures !LexLess(b, a)
  {
    if LexLess(b, a) {
      LexLessTransitive(a, b, a);
      LexLessIrreflexive(a);
    }
  }

  lemma {:induction false} LexLessTotal(a: string, b: string)
    ensures a == b || LexLess(a, b) || LexLess(b, a)
  {
    if a != [] && b != [] && a[0] == b[0] {
      LexLessTotal(a[1..], b[1..]);
      if a[1..] == b[1..] {
        assert a == [a[0]] + a[1..] && b == [b[0]] + b[1..];
      }
    }
  }

  /** `<=` on strings is a total order: reflexive, transitive and total. */
  lemma LexLeTotalOrder(a: string, b: string, c: string)
    ensures LexLe(a, a)
    ensures LexLe(a, b) || LexLe(b, a)
    ensures LexLe(a, b) && LexLe(b, c) ==> LexLe(a, c)
    ensures LexLe(a, b) && LexLe(b, a) ==> a == b
  {
    LexLessIrreflexive(a);
    LexLessTotal(a, b);
    LexLessTotal(a, c);
    LexLessTotal(b, c);
    if LexLe(a, b) && LexLe(b, c) && LexLess(c, a) {
      if a != b { LexLessTransitive(c, a, b); }
    }
    if LexLess(a, b) && LexLess(b, a) { LexLessTransitive(a, b, a); LexLessIrreflexive(a); }
  }
  /** Strings that agree up to some point compare as their remainders do. */
  lemma {:induction false} LexLessAfterCommonPrefix(p: string, a: string, b: string)
    requires LexLess(a, b)
    ensures LexLess(p + a, p + b)
  {
    if p == [] {
      assert p + a == a && p + b == b;
    } else {
      LexLessAfterCommonPrefix(p[1..], a, b);
      assert (p + a)[0] == p[0] == (p + b)[0];
      assert (p + a)[1..] == p[1..] + a && (p + b)[1..] == p[1..] + b;
    }
  }
}
