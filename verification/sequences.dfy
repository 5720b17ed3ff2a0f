/** Sequence helpers shared by several scripts: order-preserving
    de-duplication (Python's `dict.fromkeys`, a JavaScript `Set` read back in
    insertion order) and the first longest element (Python's
    `max(xs, key=len)`). */
module Sequences {

  ghost predicate Distinct<T>(s: seq<T>) {
    forall i, j :: 0 <= i < j < |s| ==> s[i] != s[j]
  }

  /** Position of the first occurrence of `x` in `s`. */
  function FirstIndex<T(==)>(s: seq<T>, x: T): (i: nat)
    requires x in s
    ensures i < |s| && s[i] == x && x !in s[..i]
  {
    if s[0] == x then 0
    else
      var k := FirstIndex(s[1..], x);
      assert s[..k + 1] == [s[0]] + s[1..][..k];
      1 + k
  }

  /** Extending a sequence does not move the first occurrence of an element
      it already holds. */
  lemma FirstIndexExtend<T>(p: seq<T>, e: seq<T>, x: T)
    requires x in p
    ensures FirstIndex(p + e, x) == FirstIndex(p, x)
  {
    var s := p + e;
    var a, b := FirstIndex(s, x), FirstIndex(p, x);
    assert s[b] == x;
    assert a <= b by {
      assert x !in s[..a];
      assert forall k :: 0 <= k < a ==> s[..a][k] == s[k];
    }
    assert s[..a] == p[..a];
    assert forall k :: 0 <= k < b ==> p[..b][k] == p[k];
  }

  /** Elements in order of first occurrence, each once. */
  function Dedup<T(==,!new)>(s: seq<T>): (r: seq<T>)
    ensures Distinct(r)
    ensures forall x :: x in r <==> x in s
    decreases |s|
  {
    if s == [] then []
    else
      var p := s[..|s| - 1];
      var x := s[|s| - 1];
      var r := Dedup(p);
      assert s == p + [x];
      if x in r then r else r + [x]
  }

  /** Adding an element to the input adds it to the result unless it was
      already there: the JavaScript `Set.add`. */
  lemma DedupSnoc<T(!new)>(s: seq<T>, x: T)
    ensures Dedup(s + [x]) == if x in Dedup(s) then Dedup(s) else Dedup(s) + [x]
  {
    assert (s + [x])[..|s|] == s;
  }

  /** De-duplication keeps the order of first occurrences. */
  lemma {:induction false} DedupFirstOrder<T(!new)>(s: seq<T>, i: nat, j: nat)
    requires i < j < |Dedup(s)|
    ensures FirstIndex(s, Dedup(s)[i]) < FirstIndex(s, Dedup(s)[j])
    decreases |s|
  {
    var p := s[..|s| - 1];
    var x := s[|s| - 1];
    var r := Dedup(p);
    assert s == p + [x];
    var a, b := Dedup(s)[i], Dedup(s)[j];
    assert a in r;
    FirstIndexExtend(p, [x], a);
    if j < |r| {
      DedupFirstOrder(p, i, j);
      FirstIndexExtend(p, [x], b);
    } else {
      assert x !in r && b == x && x !in p;
      assert forall k :: 0 <= k < |p| ==> s[k] == p[k] && p[k] in p;
      assert FirstIndex(s, x) == |p|;
    }
  }

  /** Position of the first longest element: no element is longer, and all
      earlier ones are strictly shorter. */
  function LongestIndex<T>(vals: seq<seq<T>>): (i: nat)
    requires vals != []
    ensures i < |vals|
    ensures forall j :: 0 <= j < |vals| ==> |vals[j]| <= |vals[i]|
    ensures forall j :: 0 <= j < i ==> |vals[j]| < |vals[i]|
    decreases |vals|
  {
    if |vals| == 1 then 0
    else
      var m := LongestIndex(vals[..|vals| - 1]);
      if |vals[|vals| - 1]| > |vals[m]| then |vals| - 1 else m
  }

  /** The element Python's `max(vals, key=len)` returns. */
  function Longest<T>(vals: seq<seq<T>>): seq<T>
    requires vals != []
  {
    vals[LongestIndex(vals)]
  }
}
