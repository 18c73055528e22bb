/** Lexicographic order, and sorting by a key: the order paths are listed in. */
module Orders {
  import opened Basics

  /** Negative, zero or positive as `a` comes before, is, or comes after `b`. */
  function Lex(a: seq<int>, b: seq<int>): int {
    if a == [] || b == [] then |a| - |b|
    else if a[0] != b[0] then a[0] - b[0]
    else Lex(a[1..], b[1..])
  }

  /** The two are alike before `k`, where `b` ends or `a` has the greater number. */
  predicate FollowsAt(a: seq<int>, b: seq<int>, k: nat) {
    k < |a| && k <= |b| && (forall j :: 0 <= j < k ==> a[j] == b[j]) && (k < |b| ==> a[k] > b[k])
  }

  ghost predicate Follows(a: seq<int>, b: seq<int>) {
    exists k: nat :: FollowsAt(a, b, k)
  }

  lemma {:induction false} LexFollows(a: seq<int>, b: seq<int>)
    ensures Lex(a, b) > 0 <==> Follows(a, b)
  {
    if a != [] && b != [] && a[0] == b[0] {
      LexFollows(a[1..], b[1..]);
      if k: nat :| FollowsAt(a[1..], b[1..], k) {
        assert forall j :: 0 < j <= k ==> a[j] == a[1..][j - 1] && b[j] == b[1..][j - 1];
        assert FollowsAt(a, b, k + 1);
      }
      if k: nat :| FollowsAt(a, b, k) {
        assert FollowsAt(a[1..], b[1..], k - 1);
      }
    } else if Lex(a, b) > 0 {
      assert FollowsAt(a, b, 0);
    }
  }

  /** The order's direction, by position: the first difference decides. */
  lemma LexByPosition(a: seq<int>, b: seq<int>)
    ensures Lex(a, b) > 0 <==> Follows(a, b)
    ensures Lex(a, b) < 0 <==> Follows(b, a)
  {
    LexFollows(a, b);
    LexFollows(b, a);
    LexFlip(a, b);
    hide Follows;
  }

  lemma {:induction false} LexEqual(a: seq<int>, b: seq<int>)
    ensures Lex(a, b) == 0 <==> a == b
  {
    if a != [] && b != [] && a[0] == b[0] {
      LexEqual(a[1..], b[1..]);
      assert a == [a[0]] + a[1..] && b == [b[0]] + b[1..];
    }
  }

  lemma {:induction false} LexFlip(a: seq<int>, b: seq<int>)
    ensures Lex(a, b) < 0 <==> Lex(b, a) > 0
  {
    if a != [] && b != [] && a[0] == b[0] {
      LexFlip(a[1..], b[1..]);
    }
  }

  lemma {:induction false} LexTransitive(a: seq<int>, b: seq<int>, c: seq<int>)
    requires Lex(a, b) <= 0 && Lex(b, c) <= 0
    ensures Lex(a, c) <= 0
    ensures Lex(a, b) < 0 || Lex(b, c) < 0 ==> Lex(a, c) < 0
  {
    if a != [] && b != [] && c != [] && a[0] == b[0] == c[0] {
      LexTransitive(a[1..], b[1..], c[1..]);
    }
  }

  /** Keys strictly ascending: sorted, and each once. */
  predicate Ascending<T(!new)>(s: seq<T>, key: T -> seq<int>) {
    forall i, j :: 0 <= i < j < |s| ==> Lex(key(s[i]), key(s[j])) < 0
  }

  predicate Sorted<T(!new)>(s: seq<T>, key: T -> seq<int>) {
    forall i, j :: 0 <= i < j < |s| ==> Lex(key(s[i]), key(s[j])) <= 0
  }

  /** There is one way only to list a set of items by distinct keys. */
  lemma {:induction false} AscendingUnique<T(!new)>(s: seq<T>, t: seq<T>, key: T -> seq<int>)
    requires Ascending(s, key) && Ascending(t, key)
    requires forall x :: x in s <==> x in t
    ensures s == t
  {
    assert |t| == 0 || t[0] in s;
    assert |s| == 0 || s[0] in t;
    if s != [] {
      FirstIsLeast(s, key, t[0]);
      FirstIsLeast(t, key, s[0]);
      LexFlip(key(s[0]), key(t[0]));
      Rest(s, key);
      Rest(t, key);
      AscendingUnique(s[1..], t[1..], key);
      assert s == [s[0]] + s[1..] && t == [t[0]] + t[1..];
    }
  }

  lemma FirstIsLeast<T(!new)>(s: seq<T>, key: T -> seq<int>, x: T)
    requires Ascending(s, key) && x in s
    ensures x == s[0] || Lex(key(s[0]), key(x)) < 0
  {
    var i :| 0 <= i < |s| && s[i] == x;
  }

  lemma Rest<T(!new)>(s: seq<T>, key: T -> seq<int>)
    requires s != [] && Ascending(s, key)
    ensures Ascending(s[1..], key)
    ensures forall x :: x in s[1..] <==> x in s && x != s[0]
  {
    LexEqual(key(s[0]), key(s[0]));
    forall x | x in s && x != s[0]
      ensures x in s[1..]
    {
      var i :| 0 <= i < |s| && s[i] == x;
      assert s[1..][i - 1] == x;
    }
    forall x | x in s[1..]
      ensures x != s[0]
    {
      var i :| 0 <= i < |s[1..]| && s[1..][i] == x;
      assert s[i + 1] == x && Lex(key(s[0]), key(s[i + 1])) < 0;
    }
  }

  function Insert<T(!new)>(x: T, s: seq<T>, key: T -> seq<int>): seq<T> {
    if s == [] || Lex(key(x), key(s[0])) <= 0 then [x] + s
    else [s[0]] + Insert(x, s[1..], key)
  }

  /** A stable sort by key. */
  function Sort<T(!new)>(s: seq<T>, key: T -> seq<int>): seq<T> {
    if s == [] then [] else Insert(s[0], Sort(s[1..], key), key)
  }

  lemma {:induction false} InsertKeeps<T(!new)>(x: T, s: seq<T>, key: T -> seq<int>)
    ensures multiset(Insert(x, s, key)) == multiset(s) + multiset{x}
    ensures forall y :: y in Insert(x, s, key) ==> y == x || y in s
  {
    if s != [] && Lex(key(x), key(s[0])) > 0 {
      InsertKeeps(x, s[1..], key);
      assert s == [s[0]] + s[1..];
    }
  }

  lemma SortedCons<T(!new)>(x: T, s: seq<T>, key: T -> seq<int>)
    requires Sorted(s, key)
    requires forall y :: y in s ==> Lex(key(x), key(y)) <= 0
    ensures Sorted([x] + s, key)
  {
  }

  lemma {:induction false} InsertSorted<T(!new)>(x: T, s: seq<T>, key: T -> seq<int>)
    requires Sorted(s, key)
    ensures Sorted(Insert(x, s, key), key)
  {
    if s == [] {
    } else if Lex(key(x), key(s[0])) <= 0 {
      forall y | y in s
        ensures Lex(key(x), key(y)) <= 0
      {
        var i :| 0 <= i < |s| && s[i] == y;
        if i > 0 {
          LexTransitive(key(x), key(s[0]), key(s[i]));
        }
      }
      SortedCons(x, s, key);
    } else {
      InsertSorted(x, s[1..], key);
      InsertKeeps(x, s[1..], key);
      LexFlip(key(s[0]), key(x));
      SortedCons(s[0], Insert(x, s[1..], key), key);
    }
  }

  lemma {:induction false} SortSorts<T(!new)>(s: seq<T>, key: T -> seq<int>)
    ensures Sorted(Sort(s, key), key)
    ensures multiset(Sort(s, key)) == multiset(s)
  {
    hide Insert, Sorted;
    if s == [] {
      NothingSorted(s, key);
    } else {
      SortSorts(s[1..], key);
      InsertSorted(s[0], Sort(s[1..], key), key);
      InsertKeeps(s[0], Sort(s[1..], key), key);
      assert s == [s[0]] + s[1..];
    }
  }

  lemma NothingSorted<T(!new)>(s: seq<T>, key: T -> seq<int>)
    requires s == []
    ensures Sorted(s, key)
  {
  }

  predicate DistinctKeys<T(!new)>(s: seq<T>, key: T -> seq<int>) {
    forall i, j :: 0 <= i < j < |s| ==> key(s[i]) != key(s[j])
  }

  /** Sorting items of distinct keys lists each once, in ascending order. */
  lemma SortAscending<T(!new)>(s: seq<T>, key: T -> seq<int>)
    requires DistinctKeys(s, key)
    ensures Ascending(Sort(s, key), key)
    ensures forall x :: x in Sort(s, key) <==> x in s
    ensures |Sort(s, key)| == |s|
  {
    SortSorts(s, key);
    var r := Sort(s, key);
    assert |multiset(r)| == |multiset(s)|;
    forall x
      ensures x in r <==> x in s
    {
      assert x in r <==> x in multiset(r);
      assert x in s <==> x in multiset(s);
    }
    forall i, j | 0 <= i < j < |r|
      ensures Lex(key(r[i]), key(r[j])) < 0
    {
      LexEqual(key(r[i]), key(r[j]));
      if key(r[i]) == key(r[j]) {
        TwiceInSource(s, r, i, j, key);
      }
    }
  }

  lemma TwiceInSource<T(!new)>(s: seq<T>, r: seq<T>, i: nat, j: nat, key: T -> seq<int>)
    requires multiset(s) == multiset(r)
    requires i < j < |r| && key(r[i]) == key(r[j])
    ensures !DistinctKeys(s, key)
  {
    if r[i] == r[j] {
      var a, b := r[..j], r[j..];
      assert r == a + b && a[i] == r[i] && b[0] == r[j];
      assert multiset(r)[r[i]] >= 2;
      Twice(s, r[i]);
    } else {
      assert r[i] in multiset(s) && r[j] in multiset(s);
      var k :| 0 <= k < |s| && s[k] == r[i];
      var l :| 0 <= l < |s| && s[l] == r[j];
      assert k != l;
    }
  }

  lemma {:induction false} Twice<T(!new)>(s: seq<T>, x: T)
    requires multiset(s)[x] >= 2
    ensures exists i, j :: 0 <= i < j < |s| && s[i] == s[j] == x
  {
    assert s == [s[0]] + s[1..];
    if s[0] == x {
      assert x in multiset(s[1..]);
      var j :| 0 <= j < |s[1..]| && s[1..][j] == x;
      assert s[0] == s[j + 1] == x;
    } else {
      Twice(s[1..], x);
      var i, j :| 0 <= i < j < |s[1..]| && s[1..][i] == s[1..][j] == x;
      assert s[i + 1] == s[j + 1] == x;
    }
  }
}
