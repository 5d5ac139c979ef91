/** Building sequences element by element: mapping, gathering the
    elements' optional values, and flattening the elements' parts, each
    with the step a loop takes and the law it obeys. */
module Seqs {
  import opened Wrappers

  /** Concatenation regrouped. */
  lemma ConcatAssoc<T>(a: seq<T>, b: seq<T>, c: seq<T>)
    ensures (a + b) + c == a + (b + c)
  {
  }

  /** `f` applied to each element of `xs`, in order. */
  function MapSeq<X, Y>(xs: seq<X>, f: X -> Y): seq<Y> {
    if xs == [] then [] else MapSeq(xs[..|xs| - 1], f) + [f(xs[|xs| - 1])]
  }

  /** Mapping one more element appends its image. */
  lemma MapStep<X, Y>(xs: seq<X>, f: X -> Y, i: nat)
    requires i < |xs|
    ensures MapSeq(xs[..i + 1], f) == MapSeq(xs[..i], f) + [f(xs[i])]
  {
    assert xs[..i + 1][..i] == xs[..i];
  }

  /** One image per element, in order. */
  lemma {:induction false} MapAt<X, Y>(xs: seq<X>, f: X -> Y)
    ensures |MapSeq(xs, f)| == |xs|
    ensures forall k :: 0 <= k < |xs| ==> MapSeq(xs, f)[k] == f(xs[k])
  {
    if xs != [] {
      MapAt(xs[..|xs| - 1], f);
    }
  }

  /** The values `pick` gives for the elements of `xs`, in order, skipping
      the elements that pick nothing. */
  function Gather<X, Y>(xs: seq<X>, pick: X -> Option<Y>): seq<Y> {
    if xs == [] then []
    else Gather(xs[..|xs| - 1], pick) + pick(xs[|xs| - 1]).ToSeq()
  }

  /** Gathering one more element appends what it yields. */
  lemma GatherStep<X, Y>(xs: seq<X>, pick: X -> Option<Y>, i: nat)
    requires i < |xs|
    ensures Gather(xs[..i + 1], pick) == Gather(xs[..i], pick) + pick(xs[i]).ToSeq()
  {
    assert xs[..i + 1][..i] == xs[..i];
  }

  /** The parts of the elements of `es`, one after the other. */
  function Flatten<E, Y>(es: seq<E>, part: E -> seq<Y>): seq<Y> {
    if es == [] then [] else Flatten(es[..|es| - 1], part) + part(es[|es| - 1])
  }

  /** Flattening one more element appends its part. */
  lemma FlattenStep<E, Y>(es: seq<E>, part: E -> seq<Y>, i: nat)
    requires i < |es|
    ensures Flatten(es[..i + 1], part) == Flatten(es[..i], part) + part(es[i])
  {
    assert es[..i + 1][..i] == es[..i];
  }

  /** A value is in the flattening exactly when it is in some element's part. */
  lemma {:induction false} FlattenMembers<E, Y>(es: seq<E>, part: E -> seq<Y>, y: Y)
    ensures y in Flatten(es, part) <==> exists i :: 0 <= i < |es| && y in part(es[i])
  {
    if es != [] {
      var n := |es| - 1;
      var init := es[..n];
      FlattenMembers(init, part, y);
      assert Flatten(es, part) == Flatten(init, part) + part(es[n]);
      if y in Flatten(init, part) {
        var i :| 0 <= i < n && y in part(init[i]);
        assert init[i] == es[i];
      }
      if exists i :: 0 <= i < |es| && y in part(es[i]) {
        var i :| 0 <= i < |es| && y in part(es[i]);
        if i < n {
          assert init[i] == es[i];
        }
      }
    }
  }

  /** At most one value per element. */
  lemma {:induction false} GatherBound<X, Y>(xs: seq<X>, pick: X -> Option<Y>)
    ensures |Gather(xs, pick)| <= |xs|
  {
    if xs != [] {
      GatherBound(xs[..|xs| - 1], pick);
    }
  }

  /** A value is gathered exactly when some element yields it. */
  lemma {:induction false} GatherMembers<X, Y>(xs: seq<X>, pick: X -> Option<Y>, y: Y)
    ensures y in Gather(xs, pick) <==> exists j :: 0 <= j < |xs| && pick(xs[j]) == Some(y)
  {
    if xs != [] {
      var n := |xs| - 1;
      GatherMembers(xs[..n], pick, y);
      if y in Gather(xs, pick) && y !in Gather(xs[..n], pick) {
        assert pick(xs[n]) == Some(y);
      }
      if exists j :: 0 <= j < |xs| && pick(xs[j]) == Some(y) {
        var j :| 0 <= j < |xs| && pick(xs[j]) == Some(y);
        if j < n {
          assert xs[..n][j] == xs[j];
        }
      }
    }
  }

  /** Gathering two runs is gathering each, one after the other. */
  lemma {:induction false} GatherConcat<X, Y>(a: seq<X>, b: seq<X>, pick: X -> Option<Y>)
    ensures Gather(a + b, pick) == Gather(a, pick) + Gather(b, pick)
  {
    if b == [] {
      assert a + b == a;
    } else {
      var b' := b[..|b| - 1];
      assert (a + b)[..|a + b| - 1] == a + b';
      assert (a + b)[|a + b| - 1] == b[|b| - 1];
      GatherConcat(a, b', pick);
      ConcatAssoc(Gather(a, pick), Gather(b', pick), pick(b[|b| - 1]).ToSeq());
    }
  }

  /** The positions of the elements that pick something, in increasing order. */
  ghost function Picked<X, Y>(xs: seq<X>, pick: X -> Option<Y>): seq<nat> {
    if xs == [] then []
    else Picked(xs[..|xs| - 1], pick) + (if pick(xs[|xs| - 1]).Some? then [|xs| - 1] else [])
  }

  /** The k-th gathered value is what the k-th picking element yields:
      values follow the order of the elements, every picking element
      contributes, and nothing else does. */
  lemma {:induction false} GatherInOrder<X, Y>(xs: seq<X>, pick: X -> Option<Y>)
    ensures |Picked(xs, pick)| == |Gather(xs, pick)|
    ensures forall k :: 0 <= k < |Picked(xs, pick)| ==>
              Picked(xs, pick)[k] < |xs| && pick(xs[Picked(xs, pick)[k]]) == Some(Gather(xs, pick)[k])
    ensures forall k, l :: 0 <= k < l < |Picked(xs, pick)| ==> Picked(xs, pick)[k] < Picked(xs, pick)[l]
    ensures forall i :: 0 <= i < |xs| && pick(xs[i]).Some? ==> i in Picked(xs, pick)
  {
    if xs != [] {
      var n := |xs| - 1;
      var init := xs[..n];
      GatherInOrder(init, pick);
      var t := pick(xs[n]);
      var before, valuesBefore := Picked(init, pick), Gather(init, pick);
      var after, valuesAfter := Picked(xs, pick), Gather(xs, pick);
      assert after == before + (if t.Some? then [n] else []);
      assert valuesAfter == valuesBefore + t.ToSeq();
      forall k | 0 <= k < |after|
        ensures after[k] < |xs| && pick(xs[after[k]]) == Some(valuesAfter[k])
      {
        if k < |before| {
          assert after[k] == before[k] && valuesAfter[k] == valuesBefore[k];
          assert xs[before[k]] == init[before[k]];
        } else {
          assert after[k] == n && valuesAfter[k] == t.value;
        }
      }
      forall k, l | 0 <= k < l < |after|
        ensures after[k] < after[l]
      {
        assert after[k] == before[k];
        if l < |before| {
          assert after[l] == before[l];
        } else {
          assert after[l] == n;
        }
      }
      forall i | 0 <= i < |xs| && pick(xs[i]).Some?
        ensures i in after
      {
        if i < n {
          assert init[i] == xs[i];
          assert i in before;
        } else {
          assert i == n && t.Some?;
          assert after == before + [n];
          assert after[|before|] == n;
        }
      }
    }
  }
}
