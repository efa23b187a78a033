/** usort with a comparator on names. PHP 8's usort is a stable sort; it is
    modelled here by a stable insertion sort that orders elements by a string
    key under a three-way comparator in the style of strnatcasecmp (negative,
    zero or positive). The comparator itself is left abstract. */
module Sorting {

  /** The comparator, read as "a sorts no later than b" when cmp(a, b) <= 0,
      is total and transitive. */
  ghost predicate TotalPreorder(cmp: (string, string) -> int) {
    && (forall a, b :: cmp(a, b) <= 0 || cmp(b, a) <= 0)
    && (forall a, b, c :: cmp(a, b) <= 0 && cmp(b, c) <= 0 ==> cmp(a, c) <= 0)
  }

  /** Every element sorts no later than every element after it. */
  ghost predicate SortedBy<T>(s: seq<T>, key: T -> string, cmp: (string, string) -> int) {
    forall i, j :: 0 <= i < j < |s| ==> cmp(key(s[i]), key(s[j])) <= 0
  }

  /** Inserts x before the first element it sorts no later than. */
  function Insert<T>(x: T, s: seq<T>, key: T -> string, cmp: (string, string) -> int): (r: seq<T>)
    ensures multiset(r) == multiset(s) + multiset{x}
  {
    if s == [] then [x]
    else if cmp(key(x), key(s[0])) <= 0 then [x] + s
    else
      assert s == [s[0]] + s[1..];
      [s[0]] + Insert(x, s[1..], key, cmp)
  }

  /** The sorted order of s: a permutation of s. */
  function SortBy<T>(s: seq<T>, key: T -> string, cmp: (string, string) -> int): (r: seq<T>)
    ensures multiset(r) == multiset(s)
  {
    if s == [] then []
    else
      assert s == [s[0]] + s[1..];
      Insert(s[0], SortBy(s[1..], key, cmp), key, cmp)
  }

  /** key(a) sorts no later than the key of any element of s. */
  ghost predicate NoLaterThanAll<T>(a: T, s: seq<T>, key: T -> string, cmp: (string, string) -> int) {
    forall k :: 0 <= k < |s| ==> cmp(key(a), key(s[k])) <= 0
  }

  lemma SortedCons<T>(a: T, s: seq<T>, key: T -> string, cmp: (string, string) -> int)
    requires NoLaterThanAll(a, s, key, cmp) && SortedBy(s, key, cmp)
    ensures SortedBy([a] + s, key, cmp)
  {
    var r := [a] + s;
    forall i, j | 0 <= i < j < |r| ensures cmp(key(r[i]), key(r[j])) <= 0 {
      assert r[j] == s[j - 1];
      if i > 0 {
        assert r[i] == s[i - 1];
      }
    }
  }

  lemma InsertMembers<T>(x: T, s: seq<T>, key: T -> string, cmp: (string, string) -> int, y: T)
    requires y in Insert(x, s, key, cmp)
    ensures y == x || y in s
  {
    assert y in multiset(Insert(x, s, key, cmp));
  }

  lemma {:induction false} InsertSorted<T>(x: T, s: seq<T>, key: T -> string, cmp: (string, string) -> int)
    requires TotalPreorder(cmp)
    requires SortedBy(s, key, cmp)
    ensures SortedBy(Insert(x, s, key, cmp), key, cmp)
  {
    if s == [] {
    } else if cmp(key(x), key(s[0])) <= 0 {
      forall k | 0 <= k < |s| ensures cmp(key(x), key(s[k])) <= 0 {
        if k > 0 {
          assert cmp(key(s[0]), key(s[k])) <= 0;
        }
      }
      SortedCons(x, s, key, cmp);
    } else {
      var tail := Insert(x, s[1..], key, cmp);
      assert SortedBy(s[1..], key, cmp) by {
        forall i, j | 0 <= i < j < |s[1..]| ensures cmp(key(s[1..][i]), key(s[1..][j])) <= 0 {
          assert s[1..][i] == s[i + 1] && s[1..][j] == s[j + 1];
        }
      }
      InsertSorted(x, s[1..], key, cmp);
      forall k | 0 <= k < |tail| ensures cmp(key(s[0]), key(tail[k])) <= 0 {
        InsertMembers(x, s[1..], key, cmp, tail[k]);
        if tail[k] != x {
          var m :| 0 <= m < |s[1..]| && s[1..][m] == tail[k];
          assert s[m + 1] == tail[k];
        }
      }
      SortedCons(s[0], tail, key, cmp);
    }
  }

  /** Sorting yields a sorted sequence whenever the comparator is a total preorder. */
  lemma {:induction false} SortBySorted<T>(s: seq<T>, key: T -> string, cmp: (string, string) -> int)
    requires TotalPreorder(cmp)
    ensures SortedBy(SortBy(s, key, cmp), key, cmp)
  {
    if s != [] {
      SortBySorted(s[1..], key, cmp);
      InsertSorted(s[0], SortBy(s[1..], key, cmp), key, cmp);
    }
  }
}
