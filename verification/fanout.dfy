/** The fan-out/fan-in pattern shared by the three adapters: one goroutine per endpoint,
    each sending either its items or an error on a buffered channel, and a join that
    drains the channels after every goroutine has finished. Receive order is not
    deterministic, so it is modelled as an input `order`: a permutation of the endpoint
    indices. `outs[k]` is what endpoint k produced. */
module Fanout {
  import opened Models

  /** 0, 1, ..., n - 1 */
  function Range(n: nat): (r: seq<nat>)
    ensures |r| == n
    ensures forall k :: 0 <= k < n ==> r[k] == k
  {
    if n == 0 then [] else Range(n - 1) + [n - 1]
  }

  /** `order` names every endpoint index below `n` exactly once. */
  predicate IsPermutation(order: seq<nat>, n: nat)
  {
    multiset(order) == multiset(Range(n))
  }

  predicate InBounds(order: seq<nat>, n: nat)
  {
    forall j :: 0 <= j < |order| ==> order[j] < n
  }

  function Values<T>(o: Outcome<seq<T>>): seq<T>
  {
    if o.Ok? then o.value else []
  }

  /** The items endpoint `k` contributes (none for an index that names no endpoint). */
  function ValuesAt<T>(outs: seq<Outcome<seq<T>>>, k: nat): seq<T>
  {
    if k < |outs| then Values(outs[k]) else []
  }

  /** The successful endpoints' items, concatenated in configuration order. */
  function Successes<T>(outs: seq<Outcome<seq<T>>>): seq<T>
  {
    if outs == [] then [] else Successes(outs[..|outs| - 1]) + Values(outs[|outs| - 1])
  }

  /** An item is among the successes exactly when some endpoint succeeded with it. */
  lemma {:induction false} InSuccesses<T>(outs: seq<Outcome<seq<T>>>, x: T)
    ensures x in Successes(outs) <==> exists k :: 0 <= k < |outs| && x in Values(outs[k])
  {
    if outs != [] {
      var init := outs[..|outs| - 1];
      InSuccesses(init, x);
      if exists k :: 0 <= k < |init| && x in Values(init[k]) {
        var k :| 0 <= k < |init| && x in Values(init[k]);
        assert outs[k] == init[k];
      }
      if exists k :: 0 <= k < |outs| && x in Values(outs[k]) {
        var k :| 0 <= k < |outs| && x in Values(outs[k]);
        if k < |init| {
          assert init[k] == outs[k];
        }
      }
    }
  }

  /** What the join loop accumulates when the results arrive in `order`. */
  function Gather<T>(outs: seq<Outcome<seq<T>>>, order: seq<nat>): seq<T>
  {
    if order == [] then []
    else Gather(outs, order[..|order| - 1]) + ValuesAt(outs, order[|order| - 1])
  }

  /** The error messages, in the order they arrive. */
  function Failures<T>(outs: seq<Outcome<seq<T>>>, order: seq<nat>): (r: seq<string>)
    requires InBounds(order, |outs|)
    ensures r == [] <==> forall j :: 0 <= j < |order| ==> outs[order[j]].Ok?
    ensures forall i :: 0 <= i < |r| ==> exists j :: 0 <= j < |order| && outs[order[j]] == Err(r[i])
  {
    if order == [] then []
    else
      var last := outs[order[|order| - 1]];
      var prefix := Failures(outs, order[..|order| - 1]);
      assert forall j :: 0 <= j < |order| - 1 ==> order[..|order| - 1][j] == order[j];
      prefix + (if last.Err? then [last.error] else [])
  }

  lemma {:induction false} RangeMembers(n: nat, x: nat)
    ensures x in Range(n) <==> x < n
  {
    if x < n {
      assert Range(n)[x] == x;
    }
  }

  /** A permutation of the endpoint indices stays in bounds and mentions every endpoint. */
  lemma PermutationCovers(order: seq<nat>, n: nat)
    requires IsPermutation(order, n)
    ensures InBounds(order, n)
    ensures forall k :: 0 <= k < n ==> k in order
  {
    forall j | 0 <= j < |order|
      ensures order[j] < n
    {
      assert order[j] in multiset(order);
      RangeMembers(n, order[j]);
    }
    forall k | 0 <= k < n
      ensures k in order
    {
      RangeMembers(n, k);
      assert k in multiset(Range(n));
    }
  }

  /** What `order` gathers is what all but its last index gather, then the last's items. */
  lemma GatherLast<T>(outs: seq<Outcome<seq<T>>>, order: seq<nat>)
    requires order != []
    ensures Gather(outs, order) == Gather(outs, order[..|order| - 1]) + ValuesAt(outs, order[|order| - 1])
  {
  }

  /** One more arrival adds the items of the endpoint that arrived. */
  lemma GatherStep<T>(outs: seq<Outcome<seq<T>>>, order: seq<nat>, j: nat)
    requires j < |order|
    ensures Gather(outs, order[..j + 1]) == Gather(outs, order[..j]) + ValuesAt(outs, order[j])
  {
    assert order[..j + 1][..j] == order[..j];
  }

  /** One more arrival adds the error of the endpoint that arrived, if it failed. */
  lemma FailuresStep<T>(outs: seq<Outcome<seq<T>>>, order: seq<nat>, j: nat)
    requires InBounds(order, |outs|) && j < |order|
    ensures InBounds(order[..j], |outs|) && InBounds(order[..j + 1], |outs|)
    ensures Failures(outs, order[..j + 1])
         == Failures(outs, order[..j]) + (if outs[order[j]].Err? then [outs[order[j]].error] else [])
  {
    assert order[..j + 1][..j] == order[..j];
  }

  lemma {:induction false} GatherAppend<T>(outs: seq<Outcome<seq<T>>>, a: seq<nat>, b: seq<nat>)
    ensures Gather(outs, a + b) == Gather(outs, a) + Gather(outs, b)
  {
    if b == [] {
      assert a + b == a;
    } else {
      var b', x := b[..|b| - 1], b[|b| - 1];
      var ab := a + b;
      assert ab[..|ab| - 1] == a + b';
      assert ab[|ab| - 1] == x;
      GatherLast(outs, ab);
      GatherLast(outs, b);
      GatherAppend(outs, a, b');
      AppendAssociative(Gather(outs, a), Gather(outs, b'), ValuesAt(outs, x));
    }
  }

  lemma {:induction false} GatherRange<T>(outs: seq<Outcome<seq<T>>>, n: nat)
    requires n <= |outs|
    ensures Gather(outs, Range(n)) == Successes(outs[..n])
  {
    if n > 0 {
      GatherRange(outs, n - 1);
      assert Range(n)[..n - 1] == Range(n - 1);
      assert outs[..n][..n - 1] == outs[..n - 1];
    }
  }

  /** Removing one occurrence of the same element from two permutations of each other
      leaves two permutations of each other. */
  lemma CancelLast<T>(xs: seq<T>, ys: seq<T>, p: nat)
    requires multiset(xs) == multiset(ys)
    requires |xs| > 0 && p < |ys| && ys[p] == xs[|xs| - 1]
    ensures ys == ys[..p] + [ys[p]] + ys[p + 1..]
    ensures multiset(xs[..|xs| - 1]) == multiset(ys[..p] + ys[p + 1..])
  {
    var x := xs[|xs| - 1];
    assert xs == xs[..|xs| - 1] + [x];
    assert ys == ys[..p] + [x] + ys[p + 1..];
    assert multiset(xs) == multiset(xs[..|xs| - 1]) + multiset{x};
    assert multiset(ys) == multiset(ys[..p]) + multiset{x} + multiset(ys[p + 1..]);
    assert multiset(ys[..p] + ys[p + 1..]) == multiset(ys[..p]) + multiset(ys[p + 1..]);
    assert multiset(xs[..|xs| - 1]) == multiset(xs) - multiset{x};
  }

  lemma GatherSplit<T>(outs: seq<Outcome<seq<T>>>, left: seq<nat>, i: nat, right: seq<nat>)
    ensures multiset(Gather(outs, left + [i] + right))
         == multiset(Gather(outs, left + right)) + multiset(ValuesAt(outs, i))
  {
    GatherAppend(outs, left, [i]);
    GatherAppend(outs, left + [i], right);
    GatherAppend(outs, left, right);
    assert Gather(outs, [i]) == ValuesAt(outs, i) by {
      assert [i][..0] == [];
    }
  }

  /** Two arrival orders that name the same endpoints gather the same items, up to order. */
  lemma {:induction false} GatherOrderIrrelevant<T>(outs: seq<Outcome<seq<T>>>, o1: seq<nat>, o2: seq<nat>)
    requires multiset(o1) == multiset(o2)
    ensures multiset(Gather(outs, o1)) == multiset(Gather(outs, o2))
    decreases |o1|
  {
    if o1 == [] {
      assert |o2| == |multiset(o2)| == 0;
    } else {
      var i := o1[|o1| - 1];
      assert i in multiset(o2);
      var p :| 0 <= p < |o2| && o2[p] == i;
      CancelLast(o1, o2, p);
      var rest, left, right := o1[..|o1| - 1], o2[..p], o2[p + 1..];
      GatherOrderIrrelevant(outs, rest, left + right);
      GatherSplit(outs, left, i, right);
      assert Gather(outs, o1) == Gather(outs, rest) + ValuesAt(outs, i);
    }
  }

  /** Whatever the receive order, the join collects exactly the successful endpoints'
      items, as a permutation of their concatenation in configuration order. */
  lemma GatherIsPermutationOfSuccesses<T>(outs: seq<Outcome<seq<T>>>, order: seq<nat>)
    requires IsPermutation(order, |outs|)
    ensures InBounds(order, |outs|)
    ensures multiset(Gather(outs, order)) == multiset(Successes(outs))
  {
    PermutationCovers(order, |outs|);
    GatherRange(outs, |outs|);
    assert outs[..|outs|] == outs;
    GatherOrderIrrelevant(outs, order, Range(|outs|));
  }

  /** Every endpoint reports success exactly when no error arrives. */
  lemma NoFailuresIffAllOk<T>(outs: seq<Outcome<seq<T>>>, order: seq<nat>)
    requires IsPermutation(order, |outs|)
    ensures InBounds(order, |outs|)
    ensures Failures(outs, order) == [] <==> forall k :: 0 <= k < |outs| ==> outs[k].Ok?
  {
    PermutationCovers(order, |outs|);
    if Failures(outs, order) == [] {
      forall k | 0 <= k < |outs|
        ensures outs[k].Ok?
      {
        assert k in order;
        var j :| 0 <= j < |order| && order[j] == k;
      }
    }
  }

  /** Applying `f` to each element. */
  function Map<A, B>(f: A -> B, xs: seq<A>): (r: seq<B>)
    ensures |r| == |xs|
    ensures forall i :: 0 <= i < |xs| ==> r[i] == f(xs[i])
  {
    if xs == [] then [] else Map(f, xs[..|xs| - 1]) + [f(xs[|xs| - 1])]
  }

  lemma {:induction false} MapAppend<A, B>(f: A -> B, a: seq<A>, b: seq<A>)
    ensures Map(f, a + b) == Map(f, a) + Map(f, b)
  {
    if b == [] {
      assert a + b == a;
    } else {
      var b', x := b[..|b| - 1], b[|b| - 1];
      assert (a + b)[..|a + b| - 1] == a + b';
      assert (a + b)[|a + b| - 1] == x;
      MapAppend(f, a, b');
      AppendAssociative(Map(f, a), Map(f, b'), [f(x)]);
    }
  }

  /** Mapping two permutations of each other gives two permutations of each other. */
  lemma {:induction false} MapPermutation<A, B>(f: A -> B, xs: seq<A>, ys: seq<A>)
    requires multiset(xs) == multiset(ys)
    ensures multiset(Map(f, xs)) == multiset(Map(f, ys))
    decreases |xs|
  {
    if xs == [] {
      assert |ys| == |multiset(ys)| == 0;
    } else {
      var x := xs[|xs| - 1];
      assert x in multiset(ys);
      var p :| 0 <= p < |ys| && ys[p] == x;
      CancelLast(xs, ys, p);
      var rest, left, right := xs[..|xs| - 1], ys[..p], ys[p + 1..];
      MapPermutation(f, rest, left + right);
      assert Map(f, xs) == Map(f, rest) + [f(x)];
      MapAppend(f, left, [x]);
      MapAppend(f, left + [x], right);
      MapAppend(f, left, right);
      assert Map(f, ys) == Map(f, left) + [f(x)] + Map(f, right);
      assert multiset(Map(f, ys))
          == multiset(Map(f, left)) + multiset{f(x)} + multiset(Map(f, right));
      assert multiset(Map(f, left + right))
          == multiset(Map(f, left)) + multiset(Map(f, right));
    }
  }
}
