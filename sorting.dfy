/**
 * Ordering of query results. A table scan yields ids in ascending id order
 * (`KeysAscending`); an `ORDER BY a, b` clause then sorts them by a two-part
 * key (`Sort`). Rows with equal keys have no order the database promises; the
 * insertion sort below leaves them in scan order, and no lemma depends on that.
 */
module Sorting {

  /** A two-column sort key compared lexicographically, ascending. */
  datatype Key = Key(primary: int, secondary: int)

  predicate KeyLe(a: Key, b: Key) {
    a.primary < b.primary || (a.primary == b.primary && a.secondary <= b.secondary)
  }

  predicate KeyLt(a: Key, b: Key) {
    !KeyLe(b, a)
  }

  predicate HasKeys(s: seq<int>, key: map<int, Key>) {
    forall i :: 0 <= i < |s| ==> s[i] in key
  }

  predicate SortedBy(s: seq<int>, key: map<int, Key>)
    requires HasKeys(s, key)
  {
    forall i, j :: 0 <= i < j < |s| ==> KeyLe(key[s[i]], key[s[j]])
  }

  // ---- scanning a set of ids in ascending order ----

  /** A non-empty set has an element. */
  lemma NonEmptyHasElement(s: set<int>)
    requires s != {}
    ensures exists y :: y in s
  {
    if forall y :: y !in s { assert false; }
  }

  lemma {:induction false} MinExists(s: set<int>)
    requires s != {}
    ensures exists m :: m in s && forall x :: x in s ==> m <= x
    decreases |s|
  {
    NonEmptyHasElement(s);
    var y :| y in s;
    if s != {y} {
      MinExists(s - {y});
      var m :| m in s - {y} && forall x :: x in s - {y} ==> m <= x;
      var least := if y < m then y else m;
      forall x | x in s ensures least <= x {
        if x != y { assert x in s - {y}; }
      }
      assert least in s;
    } else {
      assert forall x :: x in s ==> y <= x;
    }
  }

  function MinOf(s: set<int>): (m: int)
    requires s != {}
    ensures m in s && forall x :: x in s ==> m <= x
  {
    MinExists(s);
    var m :| m in s && forall x :: x in s ==> m <= x;
    m
  }

  /** The ids of `s`, smallest first, each once. */
  function KeysAscending(s: set<int>): (r: seq<int>)
    ensures multiset(r) == multiset(s)
    ensures forall i, j :: 0 <= i < j < |r| ==> r[i] < r[j]
    decreases |s|
  {
    if s == {} then []
    else
      var m := MinOf(s);
      var rest := KeysAscending(s - {m});
      assert multiset(s) == multiset{m} + multiset(s - {m}) by {
        assert s == {m} + (s - {m});
      }
      assert forall x :: x in multiset(rest) ==> m < x;
      [m] + rest
  }

  /** A set and its multiset have the same size. */
  lemma {:induction false} SetMultisetSize(s: set<int>)
    ensures |multiset(s)| == |s|
    decreases |s|
  {
    if s != {} {
      NonEmptyHasElement(s);
      var x :| x in s;
      SetMultisetSize(s - {x});
      assert s == (s - {x}) + {x};
      assert multiset(s) == multiset(s - {x}) + multiset{x};
    }
  }

  // ---- insertion sort by key ----

  /** Every id of `s` has a key at least `b`. */
  predicate AllAtLeast(s: seq<int>, key: map<int, Key>, b: Key)
    requires HasKeys(s, key)
  {
    forall j :: 0 <= j < |s| ==> KeyLe(b, key[s[j]])
  }

  function Insert(x: int, s: seq<int>, key: map<int, Key>): (r: seq<int>)
    requires x in key && HasKeys(s, key) && SortedBy(s, key)
    ensures |r| == |s| + 1
    ensures multiset(r) == multiset(s) + multiset{x}
    ensures HasKeys(r, key) && SortedBy(r, key)
    decreases |s|, 0
  {
    if s == [] || KeyLe(key[x], key[s[0]]) then
      [x] + s
    else
      var rest := Insert(x, s[1..], key);
      assert s == [s[0]] + s[1..];
      InsertLowerBound(x, s[1..], key, key[s[0]]);
      ConsSorted(s[0], rest, key);
      [s[0]] + rest
  }

  lemma {:induction false} InsertLowerBound(x: int, s: seq<int>, key: map<int, Key>, b: Key)
    requires x in key && HasKeys(s, key) && SortedBy(s, key)
    requires KeyLe(b, key[x]) && AllAtLeast(s, key, b)
    ensures AllAtLeast(Insert(x, s, key), key, b)
    decreases |s|, 1
  {
    if s != [] && !KeyLe(key[x], key[s[0]]) {
      InsertLowerBound(x, s[1..], key, b);
    }
  }

  lemma ConsSorted(y: int, s: seq<int>, key: map<int, Key>)
    requires y in key && HasKeys(s, key) && SortedBy(s, key) && AllAtLeast(s, key, key[y])
    ensures HasKeys([y] + s, key) && SortedBy([y] + s, key)
  {
    var t := [y] + s;
    forall i, j | 0 <= i < j < |t| ensures KeyLe(key[t[i]], key[t[j]]) {
      if i > 0 { assert t[i] == s[i - 1] && t[j] == s[j - 1]; }
      else { assert t[j] == s[j - 1]; }
    }
  }

  /** The ids of `s` rearranged into ascending key order. */
  function Sort(s: seq<int>, key: map<int, Key>): (r: seq<int>)
    requires HasKeys(s, key)
    ensures multiset(r) == multiset(s)
    ensures HasKeys(r, key) && SortedBy(r, key)
    decreases |s|
  {
    if s == [] then []
    else
      assert s == [s[0]] + s[1..];
      Insert(s[0], Sort(s[1..], key), key)
  }

  /** In a sorted sequence, an id with a strictly smaller key comes first. */
  lemma SortedRespectsStrictOrder(s: seq<int>, key: map<int, Key>, i: int, j: int)
    requires HasKeys(s, key) && SortedBy(s, key)
    requires 0 <= i < |s| && 0 <= j < |s|
    requires KeyLt(key[s[i]], key[s[j]])
    ensures i < j
  {
  }
}
