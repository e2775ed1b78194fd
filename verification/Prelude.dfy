/** Small vocabulary shared by the modules of the model. */
module Prelude {
  datatype Option<+T> = None | Some(value: T)

  function Max(a: int, b: int): int {
    if a < b then b else a
  }

  predicate Distinct<T(==)>(s: seq<T>) {
    forall i, j :: 0 <= i < j < |s| ==> s[i] != s[j]
  }

  /** A set of numbers in increasing order. */
  method Sorted(numbers: set<int>) returns (r: seq<int>)
    ensures forall i, j :: 0 <= i < j < |r| ==> r[i] < r[j]
    ensures forall p :: p in r <==> p in numbers
    ensures |r| == |numbers|
  {
    r := [];
    var rest := numbers;
    while exists any :: any in rest
      invariant forall i, j :: 0 <= i < j < |r| ==> r[i] < r[j]
      invariant forall i, p :: 0 <= i < |r| && p in rest ==> r[i] < p
      invariant forall p :: p in numbers <==> p in r || p in rest
      invariant |r| + |rest| == |numbers|
      decreases |rest|
    {
      var any :| any in rest;
      ghost var least := LeastOf(rest, any);
      var p :| p in rest && forall q :: q in rest ==> p <= q;
      r := r + [p];
      rest := rest - {p};
    }
  }

  lemma {:induction false} LeastOf(s: set<int>, p: int) returns (least: int)
    requires p in s
    ensures least in s && forall q :: q in s ==> least <= q
    decreases |s|
  {
    if q :| q in s && q < p {
      least := LeastOf(s - {p}, q);
      assert forall x :: x in s ==> x == p || x in s - {p};
    } else {
      least := p;
    }
  }
}
