/** What `sort.SliceStable` promises, as a function, and why that promise has one answer only. */
module StableSort {

  /** A two-part sort key, compared lexicographically. */
  datatype Key = Key(major: int, minor: int)

  predicate Before(a: Key, b: Key) {
    a.major < b.major || (a.major == b.major && a.minor < b.minor)
  }

  ghost predicate Sorted<T>(s: seq<T>, key: T -> Key) {
    forall i, j :: 0 <= i < j < |s| ==> !Before(key(s[j]), key(s[i]))
  }

  /** The elements with key `k`, in order. */
  ghost function Select<T>(s: seq<T>, key: T -> Key, k: Key): seq<T> {
    if s == [] then []
    else (if key(s[0]) == k then [s[0]] else []) + Select(s[1..], key, k)
  }

  /** `t` is a stable rearrangement of `s`: every class of equal keys keeps its elements in order. */
  ghost predicate SameClasses<T>(s: seq<T>, t: seq<T>, key: T -> Key) {
    forall k: Key :: Select(s, key, k) == Select(t, key, k)
  }

  /** Puts `x` after every element it does not come before. */
  function Insert<T>(s: seq<T>, x: T, key: T -> Key): seq<T> {
    if s == [] then [x]
    else if Before(key(x), key(s[|s| - 1])) then Insert(s[..|s| - 1], x, key) + [s[|s| - 1]]
    else s + [x]
  }

  function Sort<T>(s: seq<T>, key: T -> Key): seq<T> {
    if s == [] then [] else Insert(Sort(s[..|s| - 1], key), s[|s| - 1], key)
  }

  lemma {:induction false} SelectConcat<T>(s: seq<T>, t: seq<T>, key: T -> Key, k: Key)
    ensures Select(s + t, key, k) == Select(s, key, k) + Select(t, key, k)
  {
    if s == [] {
      assert s + t == t;
    } else {
      assert (s + t)[1..] == s[1..] + t;
      SelectConcat(s[1..], t, key, k);
    }
  }

  lemma {:induction false} InsertIsPermutation<T>(s: seq<T>, x: T, key: T -> Key)
    ensures multiset(Insert(s, x, key)) == multiset(s + [x])
  {
    if s != [] && Before(key(x), key(s[|s| - 1])) {
      var front, last := s[..|s| - 1], s[|s| - 1];
      assert s == front + [last];
      InsertIsPermutation(front, x, key);
    }
  }

  lemma {:induction false} InsertKeepsClasses<T>(s: seq<T>, x: T, key: T -> Key, k: Key)
    ensures Select(Insert(s, x, key), key, k) == Select(s + [x], key, k)
  {
    if s != [] && Before(key(x), key(s[|s| - 1])) {
      var front, last := s[..|s| - 1], s[|s| - 1];
      assert s == front + [last];
      InsertKeepsClasses(front, x, key, k);
      SelectConcat(Insert(front, x, key), [last], key, k);
      SelectConcat(front, [x], key, k);
      SelectConcat(front, [last], key, k);
      SelectConcat(s, [x], key, k);
    }
  }

  lemma {:induction false} InsertKeepsSorted<T>(s: seq<T>, x: T, key: T -> Key)
    requires Sorted(s, key)
    ensures Sorted(Insert(s, x, key), key)
  {
    if s != [] && Before(key(x), key(s[|s| - 1])) {
      var front, last := s[..|s| - 1], s[|s| - 1];
      InsertKeepsSorted(front, x, key);
      InsertIsPermutation(front, x, key);
      var r := Insert(front, x, key);
      forall i | 0 <= i < |r| ensures !Before(key(last), key(r[i])) {
        assert r[i] in multiset(r);
        assert r[i] in front + [x];
      }
    }
  }

  /** The sorting contract: sorted, nothing lost, every class of equal keys in its old order. */
  lemma {:induction false} SortProperties<T>(s: seq<T>, key: T -> Key)
    ensures Sorted(Sort(s, key), key)
    ensures multiset(Sort(s, key)) == multiset(s)
    ensures |Sort(s, key)| == |s|
    ensures SameClasses(s, Sort(s, key), key)
  {
    if s != [] {
      var front, last := s[..|s| - 1], s[|s| - 1];
      assert s == front + [last];
      SortProperties(front, key);
      InsertKeepsSorted(Sort(front, key), last, key);
      InsertIsPermutation(Sort(front, key), last, key);
      assert multiset(Sort(front, key) + [last]) == multiset(s);
      assert |multiset(Sort(s, key))| == |multiset(s)|;
      forall k: Key ensures Select(s, key, k) == Select(Sort(s, key), key, k) {
        SelectConcat(front, [last], key, k);
        SelectConcat(Sort(front, key), [last], key, k);
        InsertKeepsClasses(Sort(front, key), last, key, k);
      }
    }
  }

  lemma {:induction false} SelectHolds<T>(s: seq<T>, key: T -> Key, k: Key)
    ensures forall y :: y in Select(s, key, k) <==> y in s && key(y) == k
  {
    if s != [] {
      SelectHolds(s[1..], key, k);
      assert s == [s[0]] + s[1..];
    }
  }

  /** A sorted stable rearrangement is unique, so any algorithm that keeps the contract is `Sort`. */
  lemma {:induction false} StableOrderIsUnique<T>(s: seq<T>, t: seq<T>, key: T -> Key)
    requires Sorted(s, key) && Sorted(t, key)
    requires SameClasses(s, t, key)
    ensures s == t
  {
    if s == [] || t == [] {
      if s != [] {
        SelectHolds(s, key, key(s[0]));
        SelectHolds(t, key, key(s[0]));
      } else if t != [] {
        SelectHolds(s, key, key(t[0]));
        SelectHolds(t, key, key(t[0]));
      }
    } else {
      var a, b := key(s[0]), key(t[0]);
      SelectHolds(s, key, a); SelectHolds(t, key, a);
      SelectHolds(s, key, b); SelectHolds(t, key, b);
      assert s[0] in Select(t, key, a) && t[0] in Select(s, key, b);
      assert a == b;
      assert Select(s, key, a)[0] == s[0] && Select(t, key, a)[0] == t[0];
      forall k: Key ensures Select(s[1..], key, k) == Select(t[1..], key, k) {
        assert Select(s, key, k) == Select(t, key, k);
        var drop := if k == a then 1 else 0;
        assert Select(s[1..], key, k) == Select(s, key, k)[drop..];
        assert Select(t[1..], key, k) == Select(t, key, k)[drop..];
      }
      StableOrderIsUnique(s[1..], t[1..], key);
      assert s == [s[0]] + s[1..] && t == [t[0]] + t[1..];
    }
  }

  /** Elements told apart by `name` before sorting are told apart by it after. */
  ghost predicate Distinct<T, K>(s: seq<T>, name: T -> K) {
    forall i, j :: 0 <= i < j < |s| ==> name(s[i]) != name(s[j])
  }

  lemma {:induction false} InsertKeepsDistinct<T, K>(s: seq<T>, x: T, key: T -> Key, name: T -> K)
    requires Distinct(s + [x], name)
    ensures Distinct(Insert(s, x, key), name)
  {
    assert (s + [x])[|s|] == x;
    assert forall i :: 0 <= i < |s| ==> (s + [x])[i] == s[i];
    if s != [] && Before(key(x), key(s[|s| - 1])) {
      var front, last := s[..|s| - 1], s[|s| - 1];
      assert forall i :: 0 <= i < |front| ==> (front + [x])[i] == front[i];
      InsertKeepsDistinct(front, x, key, name);
      InsertIsPermutation(front, x, key);
      var r := Insert(front, x, key);
      forall i | 0 <= i < |r| ensures name(r[i]) != name(last) {
        assert r[i] in multiset(r);
        assert r[i] in front + [x];
      }
    }
  }

  lemma {:induction false} SortKeepsDistinct<T, K>(s: seq<T>, key: T -> Key, name: T -> K)
    requires Distinct(s, name)
    ensures Distinct(Sort(s, key), name)
  {
    if s != [] {
      var front, last := s[..|s| - 1], s[|s| - 1];
      SortKeepsDistinct(front, key, name);
      SortProperties(front, key);
      var r := Sort(front, key);
      forall i | 0 <= i < |r| ensures name(r[i]) != name(last) {
        assert r[i] in multiset(r);
        assert r[i] in front;
      }
      InsertKeepsDistinct(r, last, key, name);
    }
  }
}
