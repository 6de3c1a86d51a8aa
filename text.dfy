/**
 * The java.lang.String operations the blog filter and the blog sort use,
 * restricted to ASCII: toLowerCase, contains and compareToIgnoreCase.
 */
module Text {

  /** Character.toLowerCase on the ASCII range: only 'A'..'Z' change. */
  function LowerChar(c: char): char
  {
    if 'A' <= c <= 'Z' then (c as int + 32) as char else c
  }

  /** String.toLowerCase, character by character. */
  function Lower(s: string): string
  {
    seq(|s|, i requires 0 <= i < |s| => LowerChar(s[i]))
  }

  /**
   * Lower-casing keeps the length and every character outside 'A'..'Z'; it
   * leaves no upper-case letter, so lower-casing again changes nothing.
   */
  lemma LowerIdempotent(s: string)
    ensures |Lower(s)| == |s|
    ensures forall i :: 0 <= i < |s| && !('A' <= s[i] <= 'Z') ==> Lower(s)[i] == s[i]
    ensures forall i :: 0 <= i < |s| ==> !('A' <= Lower(s)[i] <= 'Z')
    ensures Lower(Lower(s)) == Lower(s)
  {
  }

  /** `sub` occurs in `s` starting at offset `i`. */
  predicate OccursAt(s: string, sub: string, i: int)
  {
    0 <= i <= |s| - |sub| && s[i..i + |sub|] == sub
  }

  /** String.contains: `sub` occurs in `s` at some offset. */
  predicate Contains(s: string, sub: string)
  {
    exists i | 0 <= i <= |s| - |sub| :: OccursAt(s, sub, i)
  }

  /**
   * Lexicographic order on character codes, a proper prefix first: the order
   * String.compareTo puts strings in (`LexLe(a, b)` iff `a.compareTo(b) <= 0`).
   */
  predicate LexLe(a: string, b: string)
    decreases |a|
  {
    if a == [] then true
    else if b == [] then false
    else a[0] < b[0] || (a[0] == b[0] && LexLe(a[1..], b[1..]))
  }

  lemma {:induction false} LexLeReflexive(a: string)
    ensures LexLe(a, a)
    decreases |a|
  {
    if a != [] {
      LexLeReflexive(a[1..]);
    }
  }

  lemma {:induction false} LexLeTotal(a: string, b: string)
    ensures LexLe(a, b) || LexLe(b, a)
    decreases |a|
  {
    if a != [] && b != [] && a[0] == b[0] {
      LexLeTotal(a[1..], b[1..]);
    }
  }

  lemma {:induction false} LexLeTransitive(a: string, b: string, c: string)
    requires LexLe(a, b) && LexLe(b, c)
    ensures LexLe(a, c)
    decreases |a|
  {
    if a != [] && b != [] && c != [] && a[0] == b[0] && b[0] == c[0] {
      LexLeTransitive(a[1..], b[1..], c[1..]);
    }
  }

  lemma {:induction false} LexLeAntisymmetric(a: string, b: string)
    requires LexLe(a, b) && LexLe(b, a)
    ensures a == b
    decreases |a|
  {
    if a != [] {
      LexLeAntisymmetric(a[1..], b[1..]);
      assert a == [a[0]] + a[1..] && b == [b[0]] + b[1..];
    }
  }

  /**
   * `a.compareToIgnoreCase(b) <= 0`: compareToIgnoreCase compares the two
   * strings character by character after case folding, a proper prefix first.
   */
  predicate LeIgnoreCase(a: string, b: string)
  {
    LexLe(Lower(a), Lower(b))
  }

  /** The comparison is a total preorder, so a list can be sorted by it. */
  lemma LeIgnoreCaseTotalPreorder(a: string, b: string, c: string)
    ensures LeIgnoreCase(a, a)
    ensures LeIgnoreCase(a, b) || LeIgnoreCase(b, a)
    ensures LeIgnoreCase(a, b) && LeIgnoreCase(b, c) ==> LeIgnoreCase(a, c)
  {
    LexLeReflexive(Lower(a));
    LexLeTotal(Lower(a), Lower(b));
    if LeIgnoreCase(a, b) && LeIgnoreCase(b, c) {
      LexLeTransitive(Lower(a), Lower(b), Lower(c));
    }
  }

  /** Two strings compare equal ignoring case exactly when their lower-cased forms are equal. */
  lemma LeIgnoreCaseBothWays(a: string, b: string)
    ensures LeIgnoreCase(a, b) && LeIgnoreCase(b, a) <==> Lower(a) == Lower(b)
  {
    if LeIgnoreCase(a, b) && LeIgnoreCase(b, a) {
      LexLeAntisymmetric(Lower(a), Lower(b));
    }
    if Lower(a) == Lower(b) {
      LexLeReflexive(Lower(a));
    }
  }
}
