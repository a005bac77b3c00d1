/** Sequences: collecting what each element contributes, in order. */
module Seqs {

  /** What `g` makes of every element of `xs`, in order: a filter and a map in one. */
  function Gather<A, B>(g: A -> seq<B>, xs: seq<A>): seq<B> {
    if xs == [] then [] else Gather(g, xs[..|xs| - 1]) + g(xs[|xs| - 1])
  }

  lemma GatherOne<A, B>(g: A -> seq<B>, xs: seq<A>, x: A)
    ensures Gather(g, xs + [x]) == Gather(g, xs) + g(x)
  {
    assert (xs + [x])[..|xs|] == xs;
  }

  lemma {:induction false} GatherAppend<A, B>(g: A -> seq<B>, xs: seq<A>, ys: seq<A>)
    ensures Gather(g, xs + ys) == Gather(g, xs) + Gather(g, ys)
  {
    if ys == [] {
      assert xs + ys == xs;
    } else {
      hide Gather;
      var front, last := ys[..|ys| - 1], ys[|ys| - 1];
      assert ys == front + [last];
      GatherAppend(g, xs, front);
      GatherOne(g, front, last);
      GatherOne(g, xs + front, last);
      assert xs + ys == (xs + front) + [last];
      assert Gather(g, xs) + Gather(g, front) + g(last) == Gather(g, xs) + (Gather(g, front) + g(last));
    }
  }
}
