/** Vocabulary shared by the models: bytes, results, joined and split sequences. */
module Basics {

  type byte = b: int | 0 <= b < 256
  type Bytes = seq<byte>

  datatype Option<+T> = None | Some(value: T)

  datatype Result<+T, +E> = Ok(value: T) | Err(error: E)

  function Min(a: int, b: int): int {
    if a <= b then a else b
  }

  function Max(a: int, b: int): int {
    if a <= b then b else a
  }

  /** `n` copies of `x`. */
  function Repeat<T>(x: T, n: nat): (s: seq<T>)
    ensures |s| == n
    ensures forall i :: 0 <= i < n ==> s[i] == x
  {
    seq(n, _ => x)
  }

  lemma Associative<T>(a: seq<T>, b: seq<T>, c: seq<T>)
    ensures a + (b + c) == a + b + c
  {
  }

  /** The sequences of `parts`, one after another. */
  function Join<T>(parts: seq<seq<T>>): seq<T> {
    if parts == [] then [] else parts[0] + Join(parts[1..])
  }

  lemma {:induction false} JoinAppend<T>(a: seq<seq<T>>, b: seq<seq<T>>)
    ensures Join(a + b) == Join(a) + Join(b)
  {
    if a == [] {
      assert a + b == b;
    } else {
      JoinAppend(a[1..], b);
      assert (a + b)[1..] == a[1..] + b && (a + b)[0] == a[0];
      Associative(a[0], Join(a[1..]), Join(b));
    }
  }

  lemma JoinOne<T>(x: seq<T>)
    ensures Join([x]) == x
  {
    assert [x][1..] == [];
  }

  lemma JoinNext<T>(parts: seq<seq<T>>, k: nat)
    requires k < |parts|
    ensures Join(parts[..k + 1]) == Join(parts[..k]) + parts[k]
  {
    hide Join;
    assert parts[..k + 1] == parts[..k] + [parts[k]];
    JoinAppend(parts[..k], [parts[k]]);
    JoinOne(parts[k]);
  }

  /** Everything of `s` from `n` on; nothing once `n` is past the end. */
  function DropUpTo<T>(s: seq<T>, n: nat): seq<T> {
    if n <= |s| then s[n..] else []
  }

  /** At most the first `n` of `s`. */
  function TakeUpTo<T>(s: seq<T>, n: nat): seq<T> {
    if n <= |s| then s[..n] else s
  }

  /** Whether `x` is what `s` begins with. */
  predicate StartsWith<T(==)>(s: seq<T>, x: seq<T>) {
    |x| <= |s| && s[..|x|] == x
  }

  /** The first index at which `sep` stands in `s`, or |s|. */
  function IndexOf<T(==)>(s: seq<T>, sep: T): (i: nat)
    ensures i <= |s|
    ensures sep !in s[..i]
    ensures i < |s| ==> s[i] == sep
  {
    if s == [] || s[0] == sep then 0
    else
      var rest := IndexOf(s[1..], sep);
      assert s[..rest + 1] == [s[0]] + s[1..][..rest];
      rest + 1
  }

  lemma IndexOfIs<T>(s: seq<T>, sep: T, i: nat)
    requires i <= |s| && sep !in s[..i]
    requires i < |s| ==> s[i] == sep
    ensures IndexOf(s, sep) == i
  {
    var j := IndexOf(s, sep);
    assert forall k :: 0 <= k < i ==> s[..i][k] == s[k];
    assert forall k :: 0 <= k < j ==> s[..j][k] == s[k];
  }

  /** `s` cut at every `sep`: one more piece than there are separators. */
  function Split<T(==)>(s: seq<T>, sep: T): (pieces: seq<seq<T>>)
    ensures |pieces| >= 1
    decreases |s|
  {
    var i := IndexOf(s, sep);
    if i == |s| then [s] else [s[..i]] + Split(s[i + 1..], sep)
  }

  lemma {:induction false} SplitPieces<T>(s: seq<T>, sep: T)
    ensures forall i :: 0 <= i < |Split(s, sep)| ==> sep !in Split(s, sep)[i]
    decreases |s|
  {
    var i := IndexOf(s, sep);
    if i == |s| {
      assert s[..i] == s;
    } else {
      SplitPieces(s[i + 1..], sep);
    }
  }

  /** The pieces with `sep` between them. */
  function Unsplit<T>(pieces: seq<seq<T>>, sep: T): seq<T> {
    if pieces == [] then []
    else if |pieces| == 1 then pieces[0]
    else pieces[0] + [sep] + Unsplit(pieces[1..], sep)
  }

  lemma {:induction false} SplitPiece<T>(a: seq<T>, sep: T, rest: seq<T>)
    requires sep !in a
    ensures Split(a + [sep] + rest, sep) == [a] + Split(rest, sep)
  {
    var s := a + [sep] + rest;
    assert s[..|a|] == a;
    IndexOfIs(s, sep, |a|);
    assert s[|a| + 1..] == rest;
  }

  lemma SplitNone<T>(a: seq<T>, sep: T)
    requires sep !in a
    ensures Split(a, sep) == [a]
  {
    assert a[..|a|] == a;
    IndexOfIs(a, sep, |a|);
  }

  lemma {:induction false} SplitUnsplit<T>(pieces: seq<seq<T>>, sep: T)
    requires pieces != []
    requires forall i :: 0 <= i < |pieces| ==> sep !in pieces[i]
    ensures Split(Unsplit(pieces, sep), sep) == pieces
    decreases |pieces|
  {
    if |pieces| == 1 {
      SplitNone(pieces[0], sep);
    } else {
      SplitUnsplit(pieces[1..], sep);
      SplitPiece(pieces[0], sep, Unsplit(pieces[1..], sep));
    }
  }

  lemma SplitFirst<T>(a: seq<T>, sep: T) returns (head: seq<T>, tail: seq<T>)
    requires sep in a
    ensures a == head + [sep] + tail && sep !in head
    ensures Split(a, sep) == [head] + Split(tail, sep)
  {
    var i := IndexOf(a, sep);
    assert a[..|a|] == a;
    head, tail := a[..i], a[i + 1..];
  }

  lemma UnsplitPiece<T>(a: seq<T>, sep: T, rest: seq<seq<T>>)
    requires rest != []
    ensures Unsplit([a] + rest, sep) == a + [sep] + Unsplit(rest, sep)
  {
    assert ([a] + rest)[1..] == rest;
  }

  lemma {:induction false} UnsplitSplit<T>(s: seq<T>, sep: T)
    ensures Unsplit(Split(s, sep), sep) == s
    decreases |s|
  {
    hide Split;
    if sep in s {
      var head, tail := SplitFirst(s, sep);
      UnsplitSplit(tail, sep);
      UnsplitPiece(head, sep, Split(tail, sep));
    } else {
      SplitNone(s, sep);
    }
  }

  /** Splitting where a separator stands gives the pieces of both halves. */
  lemma {:induction false} SplitAt<T>(a: seq<T>, sep: T, b: seq<T>)
    ensures Split(a + [sep] + b, sep) == Split(a, sep) + Split(b, sep)
    decreases |a|
  {
    hide Split;
    if sep in a {
      var head, tail := SplitFirst(a, sep);
      SplitAt(tail, sep, b);
      SplitPiece(head, sep, tail + [sep] + b);
      assert a + [sep] + b == head + [sep] + (tail + [sep] + b);
      assert [head] + (Split(tail, sep) + Split(b, sep)) == ([head] + Split(tail, sep)) + Split(b, sep);
    } else {
      SplitPiece(a, sep, b);
      SplitNone(a, sep);
    }
  }

  /** Those of `s` for which `keep` holds, in order. */
  function Filter<T>(s: seq<T>, keep: T -> bool): (r: seq<T>)
    ensures forall x :: x in r ==> x in s && keep(x)
    ensures forall x :: x in s && keep(x) ==> x in r
  {
    if s == [] then []
    else if keep(s[0]) then
      [s[0]] + Filter(s[1..], keep)
    else
      Filter(s[1..], keep)
  }

  lemma {:induction false} FilterAppend<T>(a: seq<T>, b: seq<T>, keep: T -> bool)
    ensures Filter(a + b, keep) == Filter(a, keep) + Filter(b, keep)
  {
    if a == [] {
      assert a + b == b;
    } else {
      assert (a + b)[1..] == a[1..] + b;
      FilterAppend(a[1..], b, keep);
    }
  }

  lemma {:induction false} FilterAll<T>(s: seq<T>, keep: T -> bool)
    requires forall x :: x in s ==> keep(x)
    ensures Filter(s, keep) == s
  {
    if s != [] {
      assert s[0] in s;
      assert forall x :: x in s[1..] ==> x in s;
      FilterAll(s[1..], keep);
    }
  }
}
