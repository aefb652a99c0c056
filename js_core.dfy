/** The few JavaScript values and array primitives the server code relies on,
    with the semantics the language gives them. */
module JsCore {

  /** `null`/`undefined` on one side, a value on the other. */
  datatype Option<T> = None | Some(value: T)

  /** No element occurs twice. */
  predicate Distinct<T(==)>(s: seq<T>) {
    forall i, j :: 0 <= i < j < |s| ==> s[i] != s[j]
  }

  /** `s.indexOf(x)`: the first position holding `x`, or -1 when there is none. */
  function IndexOf<T(==)>(s: seq<T>, x: T): (r: int)
    ensures -1 <= r < |s|
    ensures r == -1 <==> x !in s
    ensures 0 <= r ==> s[r] == x && x !in s[..r]
  {
    if |s| == 0 then -1
    else if s[0] == x then 0
    else
      var k := IndexOf(s[1..], x);
      if k == -1 then -1
      else
        assert s[..k + 1] == [s[0]] + s[1..][..k];
        k + 1
  }

  /** In a duplicate-free sequence the position of an element is its index. */
  lemma IndexOfDistinct<T>(s: seq<T>, i: int)
    requires Distinct(s) && 0 <= i < |s|
    ensures IndexOf(s, s[i]) == i
  {
  }

  /** The position `s.splice(start, 1)` removes from: a negative start counts
      from the end and is clamped at 0. */
  function SpliceStart(len: nat, start: int): nat {
    if start >= 0 then start
    else if len + start < 0 then 0
    else len + start
  }

  /** The array left by `s.splice(start, 1)`: the element at the (normalised)
      start position is removed; a start past the end removes nothing. */
  function Splice1<T>(s: seq<T>, start: int): (r: seq<T>)
    ensures forall x :: x in r ==> x in s
    ensures |r| == if SpliceStart(|s|, start) < |s| then |s| - 1 else |s|
  {
    var k := SpliceStart(|s|, start);
    if k < |s| then
      s[..k] + s[k + 1..]
    else s
  }

  /** Removing one element keeps a sequence free of duplicates. */
  lemma SpliceDistinct<T>(s: seq<T>, start: int)
    requires Distinct(s)
    ensures Distinct(Splice1(s, start))
  {
    var k := SpliceStart(|s|, start);
    if k < |s| {
      var r := Splice1(s, start);
      forall i, j | 0 <= i < j < |r| ensures r[i] != r[j] {
        var i' := if i < k then i else i + 1;
        var j' := if j < k then j else j + 1;
        assert r[i] == s[i'] && r[j] == s[j'];
      }
    }
  }

  /** Splicing out the position `indexOf` finds removes exactly that element
      and keeps the order of the others. */
  lemma SpliceIndexOf<T>(s: seq<T>, x: T)
    requires Distinct(s) && x in s
    ensures x !in Splice1(s, IndexOf(s, x))
    ensures forall y :: y in Splice1(s, IndexOf(s, x)) <==> y in s && y != x
    ensures Splice1(s, IndexOf(s, x)) == s[..IndexOf(s, x)] + s[IndexOf(s, x) + 1..]
  {
    var k := IndexOf(s, x);
    var r := Splice1(s, k);
    assert r == s[..k] + s[k + 1..];
    forall y | y in r ensures y != x {
      var i :| 0 <= i < |r| && r[i] == y;
      if i < k { assert r[i] == s[i]; }
      else { assert r[i] == s[i + 1]; }
    }
    forall y | y in s && y != x ensures y in r {
      var i :| 0 <= i < |s| && s[i] == y;
      if i < k { assert r[i] == y; }
      else { assert i != k; assert r[i - 1] == y; }
    }
  }

  /** Moving one element from the unvisited part of a set to the visited
      part keeps the two a partition of the whole and shrinks the rest. */
  lemma MoveOne<T>(rest: set<T>, done: set<T>, all: set<T>, x: T)
    requires rest !! done && rest + done == all && x in rest
    ensures (rest - {x}) !! (done + {x}) && (rest - {x}) + (done + {x}) == all
    ensures |rest - {x}| < |rest|
  {
  }

  /** A prefix grows by the next element. */
  lemma TakeSnoc<T>(s: seq<T>, i: nat)
    requires i < |s|
    ensures s[..i + 1] == s[..i] + [s[i]]
  {
  }

  /** `s.splice(-1, 1)` drops the last element. */
  lemma SpliceMinusOne<T>(s: seq<T>)
    requires s != []
    ensures Splice1(s, -1) == s[..|s| - 1]
  {
  }
}
