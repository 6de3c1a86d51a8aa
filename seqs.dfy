/** The java.util.List operations the two screens rely on, stated on sequences. */
module Seqs {

  /** `r` is obtained from `s` by deleting elements, the rest kept in order. */
  predicate IsSubsequence<T(==)>(r: seq<T>, s: seq<T>)
    decreases |s|
  {
    if r == [] then true
    else if s == [] then false
    else
      (r[|r| - 1] == s[|s| - 1] && IsSubsequence(r[..|r| - 1], s[..|s| - 1]))
      || IsSubsequence(r, s[..|s| - 1])
  }

  lemma {:induction false} SubsequenceOfSelf<T>(s: seq<T>)
    ensures IsSubsequence(s, s)
    decreases |s|
  {
    if s != [] {
      SubsequenceOfSelf(s[..|s| - 1]);
    }
  }

  /** Every element of a subsequence occurs in the list it comes from. */
  lemma {:induction false} SubsequenceMembers<T>(r: seq<T>, s: seq<T>, x: T)
    requires IsSubsequence(r, s) && x in r
    ensures x in s
    decreases |s|
  {
    var r', s' := r[..|r| - 1], s[..|s| - 1];
    assert r == r' + [r[|r| - 1]] && s == s' + [s[|s| - 1]];
    if IsSubsequence(r, s') {
      SubsequenceMembers(r, s', x);
    } else if x != r[|r| - 1] {
      SubsequenceMembers(r', s', x);
    }
  }

  /** A subsequence is never longer than the list it comes from. */
  lemma {:induction false} SubsequenceLength<T>(r: seq<T>, s: seq<T>)
    requires IsSubsequence(r, s)
    ensures |r| <= |s|
    decreases |s|
  {
    if r != [] {
      var r', s' := r[..|r| - 1], s[..|s| - 1];
      if IsSubsequence(r, s') {
        SubsequenceLength(r, s');
      } else {
        SubsequenceLength(r', s');
      }
    }
  }

  /**
   * The first index at which `equals(x, s[i])` holds, or -1 when there is none:
   * java.util.List.indexOf, which asks `x.equals(element)` from the front.
   */
  function IndexOf<T>(s: seq<T>, x: T, equals: (T, T) -> bool): (r: int)
    ensures -1 <= r < |s|
    ensures r >= 0 ==> equals(x, s[r])
    ensures forall j :: 0 <= j < |s| && (r < 0 || j < r) ==> !equals(x, s[j])
    decreases |s|
  {
    if s == [] then -1
    else if equals(x, s[0]) then 0
    else
      var k := IndexOf(s[1..], x, equals);
      if k < 0 then -1 else k + 1
  }

  /**
   * java.util.List.remove(Object): deletes the first element equal to `x`
   * and reports whether there was one.
   */
  function RemoveFirst<T>(s: seq<T>, x: T, equals: (T, T) -> bool): (result: (seq<T>, bool))
  {
    var i := IndexOf(s, x, equals);
    if i < 0 then (s, false) else (s[..i] + s[i + 1..], true)
  }

  /**
   * Removing reports success exactly when some element is equal to `x`; a
   * failed removal leaves the list alone; a successful one shortens it by one.
   */
  lemma RemoveFirstReports<T>(s: seq<T>, x: T, equals: (T, T) -> bool)
    ensures RemoveFirst(s, x, equals).1 <==> exists j :: 0 <= j < |s| && equals(x, s[j])
    ensures !RemoveFirst(s, x, equals).1 ==> RemoveFirst(s, x, equals).0 == s
    ensures RemoveFirst(s, x, equals).1 ==> |RemoveFirst(s, x, equals).0| == |s| - 1
  {
  }

  /**
   * A successful removal takes out exactly the first equal element: the items
   * before it are untouched, the items after it move up by one.
   */
  lemma RemoveFirstTakesFirstMatch<T>(s: seq<T>, x: T, equals: (T, T) -> bool, i: int)
    requires i == IndexOf(s, x, equals) && i >= 0
    ensures var r := RemoveFirst(s, x, equals).0;
      && (forall j :: 0 <= j < i ==> r[j] == s[j])
      && (forall j :: i <= j < |r| ==> r[j] == s[j + 1])
      && multiset(r) + multiset{s[i]} == multiset(s)
  {
    assert s == s[..i] + [s[i]] + s[i + 1..];
  }

  /** What is left after a removal is a subsequence of the original list. */
  lemma {:induction false} RemoveFirstSubsequence<T>(s: seq<T>, x: T, equals: (T, T) -> bool)
    ensures IsSubsequence(RemoveFirst(s, x, equals).0, s)
  {
    var i := IndexOf(s, x, equals);
    if i < 0 {
      SubsequenceOfSelf(s);
    } else {
      DeleteAtSubsequence(s, i);
    }
  }

  lemma {:induction false} DeleteAtSubsequence<T>(s: seq<T>, i: nat)
    requires i < |s|
    ensures IsSubsequence(s[..i] + s[i + 1..], s)
    decreases |s|
  {
    var r := s[..i] + s[i + 1..];
    var s' := s[..|s| - 1];
    if i == |s| - 1 {
      assert r == s';
      SubsequenceOfSelf(s');
    } else {
      DeleteAtSubsequence(s', i);
      assert r[..|r| - 1] == s'[..i] + s'[i + 1..];
      assert r[|r| - 1] == s[|s| - 1];
    }
  }

  /** `le` is total and transitive, as a Comparator must be. */
  ghost predicate TotalPreorder<T(!new)>(le: (T, T) -> bool)
  {
    && (forall a, b :: le(a, b) || le(b, a))
    && (forall a, b, c :: le(a, b) && le(b, c) ==> le(a, c))
  }

  /** The list is in non-decreasing order under `le`. */
  predicate SortedBy<T>(s: seq<T>, le: (T, T) -> bool)
  {
    forall i, j :: 0 <= i < j < |s| ==> le(s[i], s[j])
  }

  /** An element no greater than every element of a sorted list can go in front of it. */
  lemma ConsSorted<T>(x: T, t: seq<T>, le: (T, T) -> bool)
    requires SortedBy(t, le)
    requires forall y :: y in multiset(t) ==> le(x, y)
    ensures SortedBy([x] + t, le)
  {
    var s := [x] + t;
    forall i, j | 0 <= i < j < |s| ensures le(s[i], s[j]) {
      if i == 0 {
        assert s[j] == t[j - 1] && s[j] in multiset(t);
      } else {
        assert s[i] == t[i - 1] && s[j] == t[j - 1];
      }
    }
  }

  /**
   * Inserts `x` into a sorted list in front of the first element it is not
   * greater than, so the result is sorted again and holds one more `x`.
   */
  function InsertBy<T(!new)>(x: T, s: seq<T>, le: (T, T) -> bool): (r: seq<T>)
    requires TotalPreorder(le) && SortedBy(s, le)
    ensures SortedBy(r, le)
    ensures multiset(r) == multiset(s) + multiset{x}
    decreases |s|
  {
    if s == [] then [x]
    else if le(x, s[0]) then
      assert forall y :: y in multiset(s) ==> le(x, y) by {
        forall y | y in multiset(s) ensures le(x, y) {
          var k :| 0 <= k < |s| && s[k] == y;
        }
      }
      ConsSorted(x, s, le);
      [x] + s
    else
      var rest := InsertBy(x, s[1..], le);
      assert s == [s[0]] + s[1..];
      assert forall y :: y in multiset(rest) ==> le(s[0], y) by {
        forall y | y in multiset(rest) ensures le(s[0], y) {
          if y != x {
            assert y in multiset(s[1..]);
            var k :| 0 <= k < |s[1..]| && s[1..][k] == y;
            assert s[k + 1] == y;
          }
        }
      }
      ConsSorted(s[0], rest, le);
      [s[0]] + rest
  }

  /**
   * Collections.sort with a comparator: a permutation of the input in
   * non-decreasing order. Each element goes in front of the later elements
   * it compares equal to, so those keep their input order, as in the
   * library's stable sort.
   */
  function SortBy<T(!new)>(s: seq<T>, le: (T, T) -> bool): (r: seq<T>)
    requires TotalPreorder(le)
    ensures SortedBy(r, le)
    ensures multiset(r) == multiset(s)
    decreases |s|
  {
    if s == [] then []
    else
      assert s == [s[0]] + s[1..];
      InsertBy(s[0], SortBy(s[1..], le), le)
  }
}
