/** Stable sorting as JavaScript's `Array.prototype.sort` does it (stable
    since ES2019), for a comparator given as a strict "comes before"
    relation `lt`: elements that neither precedes keep their order. Also the
    lexicographic order on strings that stands in for `localeCompare` and
    for the default (code unit) sort. */
module Sorting {

  /** `lt` is irreflexive and transitive: enough for the insertion sort
      below to produce a sorted sequence. */
  ghost predicate StrictOrder<T(!new)>(lt: (T, T) -> bool) {
    && (forall a :: !lt(a, a))
    && (forall a, b, c :: lt(a, b) && lt(b, c) ==> lt(a, c))
  }

  /** No element is strictly before an element to its left. */
  predicate SortedBy<T>(s: seq<T>, lt: (T, T) -> bool) {
    forall i, j :: 0 <= i < j < |s| ==> !lt(s[j], s[i])
  }

  /** Puts `x` before the first element it strictly precedes, so after
      every element it ties with. */
  function Insert<T>(x: T, s: seq<T>, lt: (T, T) -> bool): (r: seq<T>)
    ensures |r| == |s| + 1
    ensures multiset(r) == multiset(s) + multiset{x}
  {
    if |s| == 0 then [x]
    else if lt(x, s[0]) then [x] + s
    else
      assert s == [s[0]] + s[1..];
      [s[0]] + Insert(x, s[1..], lt)
  }

  /** Insertion sort: inserts the elements in their original order. */
  function SortBy<T>(s: seq<T>, lt: (T, T) -> bool): (r: seq<T>)
    ensures |r| == |s|
    ensures multiset(r) == multiset(s)
  {
    if |s| == 0 then []
    else
      assert s == s[..|s| - 1] + [s[|s| - 1]];
      Insert(s[|s| - 1], SortBy(s[..|s| - 1], lt), lt)
  }

  lemma {:induction false} InsertSorted<T(!new)>(x: T, s: seq<T>, lt: (T, T) -> bool)
    requires StrictOrder(lt)
    requires SortedBy(s, lt)
    ensures SortedBy(Insert(x, s, lt), lt)
  {
    if |s| == 0 {
    } else if lt(x, s[0]) {
      var r := [x] + s;
      forall i, j | 0 <= i < j < |r| ensures !lt(r[j], r[i]) {
        if i == 0 {
          assert r[j] == s[j - 1];
          assert !lt(s[j - 1], s[0]);
        }
      }
    } else {
      var rest := Insert(x, s[1..], lt);
      assert SortedBy(s[1..], lt) by {
        forall i, j | 0 <= i < j < |s[1..]| ensures !lt(s[1..][j], s[1..][i]) {
          assert s[1..][j] == s[j + 1] && s[1..][i] == s[i + 1];
        }
      }
      InsertSorted(x, s[1..], lt);
      var r := [s[0]] + rest;
      forall i, j | 0 <= i < j < |r| ensures !lt(r[j], r[i]) {
        if i == 0 {
          var y := r[j];
          assert y in multiset(rest);
          assert y in multiset(s[1..]) + multiset{x};
          if y != x {
            assert y in s[1..];
            var k :| 0 <= k < |s[1..]| && s[1..][k] == y;
            assert s[k + 1] == y;
          }
        } else {
          assert r[i] == rest[i - 1] && r[j] == rest[j - 1];
        }
      }
    }
  }

  /** The result of SortBy is sorted and (by its contract) a permutation. */
  lemma {:induction false} SortBySorted<T(!new)>(s: seq<T>, lt: (T, T) -> bool)
    requires StrictOrder(lt)
    ensures SortedBy(SortBy(s, lt), lt)
    ensures multiset(SortBy(s, lt)) == multiset(s)
  {
    if |s| > 0 {
      SortBySorted(s[..|s| - 1], lt);
      InsertSorted(s[|s| - 1], SortBy(s[..|s| - 1], lt), lt);
    }
  }

  /** An element preceding none of `s` goes to the end. */
  lemma {:induction false} InsertLast<T>(x: T, s: seq<T>, lt: (T, T) -> bool)
    requires forall k :: 0 <= k < |s| ==> !lt(x, s[k])
    ensures Insert(x, s, lt) == s + [x]
  {
    if |s| > 0 {
      InsertLast(x, s[1..], lt);
      assert s == [s[0]] + s[1..];
    }
  }

  /** The sort is stable: an already ordered sequence comes out unchanged. */
  lemma {:induction false} SortByKeepsSorted<T>(s: seq<T>, lt: (T, T) -> bool)
    requires SortedBy(s, lt)
    ensures SortBy(s, lt) == s
  {
    if |s| > 0 {
      var front, last := s[..|s| - 1], s[|s| - 1];
      forall i, j | 0 <= i < j < |front| ensures !lt(front[j], front[i]) {
        assert front[i] == s[i] && front[j] == s[j];
      }
      SortByKeepsSorted(front, lt);
      forall k | 0 <= k < |front| ensures !lt(last, front[k]) {
        assert front[k] == s[k];
      }
      InsertLast(last, front, lt);
      assert front + [last] == s;
    }
  }

  // ---------------------------------------------------------------------
  // Lexicographic order on strings

  /** `a` sorts strictly before `b`: first differing character smaller, or
      `a` a proper prefix of `b`. */
  predicate StrLt(a: string, b: string)
    decreases |a|
  {
    if |a| == 0 then |b| > 0
    else if |b| == 0 then false
    else if a[0] < b[0] then true
    else if a[0] == b[0] then StrLt(a[1..], b[1..])
    else false
  }

  lemma {:induction false} StrLtIrreflexive(a: string)
    ensures !StrLt(a, a)
    decreases |a|
  {
    if |a| > 0 {
      StrLtIrreflexive(a[1..]);
    }
  }

  lemma {:induction false} StrLtTransitive(a: string, b: string, c: string)
    requires StrLt(a, b) && StrLt(b, c)
    ensures StrLt(a, c)
    decreases |a|
  {
    if |a| > 0 && |b| > 0 && |c| > 0 && a[0] == b[0] && b[0] == c[0] {
      StrLtTransitive(a[1..], b[1..], c[1..]);
    }
  }

  /** Distinct strings are comparable. */
  lemma {:induction false} StrLtTotal(a: string, b: string)
    requires a != b
    ensures StrLt(a, b) || StrLt(b, a)
    decreases |a|
  {
    if |a| > 0 && |b| > 0 && a[0] == b[0] {
      assert a == [a[0]] + a[1..] && b == [b[0]] + b[1..];
      StrLtTotal(a[1..], b[1..]);
    }
  }

  /** The stand-in for `localeCompare` is a strict total order. */
  lemma StrLtStrictOrder()
    ensures StrictOrder(StrLt)
    ensures forall a, b :: a != b ==> StrLt(a, b) || StrLt(b, a)
  {
    forall a, b | a != b ensures StrLt(a, b) || StrLt(b, a) {
      StrLtTotal(a, b);
    }
    forall a ensures !StrLt(a, a) {
      StrLtIrreflexive(a);
    }
    forall a, b, c | StrLt(a, b) && StrLt(b, c) ensures StrLt(a, c) {
      StrLtTransitive(a, b, c);
    }
  }
}
