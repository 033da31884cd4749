/**
 * Walks over a sequence, stated once for any item type. `Collect` is the walk both
 * schedule parsers make: each item yields a record or is skipped, and every item sees the
 * state (the flags mapping and the disk) that the items before it left. `Select` keeps
 * the items a test accepts, as the scorecard does with its tables.
 */
module Walk {
  import opened Wrappers

  /** The records of `xs` in order, and the state after the last item. */
  function Collect<S, X, R>(s: S, xs: seq<X>, step: (S, X) -> (Option<R>, S)): (r: (seq<R>, S))
    ensures |r.0| <= |xs|
    decreases |xs|
  {
    if xs == [] then ([], s)
    else
      var prev := Collect(s, xs[..|xs| - 1], step);
      var rec := step(prev.1, xs[|xs| - 1]);
      (prev.0 + OptionToSeq(rec.0), rec.1)
  }

  /** One more item: its record, if any, is appended and its state is the new one. */
  lemma CollectStep<S, X, R>(s: S, xs: seq<X>, i: nat, step: (S, X) -> (Option<R>, S))
    requires i < |xs|
    ensures var prev := Collect(s, xs[..i], step);
      var rec := step(prev.1, xs[i]);
      Collect(s, xs[..i + 1], step) == (prev.0 + OptionToSeq(rec.0), rec.1)
  {
    assert xs[..i + 1][..i] == xs[..i];
  }

  /** A single item gives its own record, if it is kept, and the state it leaves. */
  lemma CollectOne<S, X, R>(s: S, x: X, step: (S, X) -> (Option<R>, S))
    ensures Collect(s, [x], step) == (OptionToSeq(step(s, x).0), step(s, x).1)
  {
    assert [x][..0] == [];
    assert [] + OptionToSeq(step(s, x).0) == OptionToSeq(step(s, x).0);
  }

  /**
   * The records of two runs of items are those of the first run, then those of the second
   * walked from the state the first run left: each record comes from its own item, in order.
   */
  lemma {:induction false} CollectAppend<S, X, R>(s: S, a: seq<X>, b: seq<X>, step: (S, X) -> (Option<R>, S))
    ensures var ra := Collect(s, a, step); var rb := Collect(ra.1, b, step);
      Collect(s, a + b, step) == (ra.0 + rb.0, rb.1)
    decreases |b|
  {
    var ra := Collect(s, a, step);
    if b == [] {
      assert a + b == a;
      assert ra.0 + [] == ra.0;
    } else {
      var b', x := b[..|b| - 1], b[|b| - 1];
      CollectAppend(s, a, b', step);
      assert (a + b)[..|a + b| - 1] == a + b';
      assert (a + b)[|a + b| - 1] == x;
      var rb' := Collect(ra.1, b', step);
      var rec := step(rb'.1, x);
      assert (ra.0 + rb'.0) + OptionToSeq(rec.0) == ra.0 + (rb'.0 + OptionToSeq(rec.0));
    }
  }

  /** When every record a step can yield passes `ok`, every record of the walk does. */
  lemma {:induction false} CollectAll<S(!new), X(!new), R>(s: S, xs: seq<X>, step: (S, X) -> (Option<R>, S), ok: R -> bool)
    requires forall t, x :: step(t, x).0.Some? ==> ok(step(t, x).0.value)
    ensures forall i :: 0 <= i < |Collect(s, xs, step).0| ==> ok(Collect(s, xs, step).0[i])
    decreases |xs|
  {
    if xs != [] {
      var prev := Collect(s, xs[..|xs| - 1], step);
      var rec := step(prev.1, xs[|xs| - 1]);
      CollectAll(s, xs[..|xs| - 1], step, ok);
      assert Collect(s, xs, step).0 == prev.0 + OptionToSeq(rec.0);
      assert rec.0.Some? ==> ok(rec.0.value);
    }
  }

  /** The items of `xs` that `keep` accepts, in their order. */
  function Select<X>(xs: seq<X>, keep: X -> bool): (r: seq<X>)
    ensures |r| <= |xs|
    decreases |xs|
  {
    if xs == [] then []
    else
      var prev := Select(xs[..|xs| - 1], keep);
      if keep(xs[|xs| - 1]) then prev + [xs[|xs| - 1]] else prev
  }

  /** One item is kept exactly when it is accepted. */
  lemma SelectOne<X>(x: X, keep: X -> bool)
    ensures Select([x], keep) == if keep(x) then [x] else []
  {
    assert [x][..0] == [];
  }

  /** Selecting distributes over concatenation: the accepted items keep their order. */
  lemma {:induction false} SelectAppend<X>(a: seq<X>, b: seq<X>, keep: X -> bool)
    ensures Select(a + b, keep) == Select(a, keep) + Select(b, keep)
    decreases |b|
  {
    if b == [] {
      assert a + b == a;
    } else {
      var init, last := b[..|b| - 1], b[|b| - 1];
      var tail := if keep(last) then [last] else [];
      SelectAppend(a, init, keep);
      assert (a + b)[..|a + b| - 1] == a + init && (a + b)[|a + b| - 1] == last;
      assert Select(a + b, keep) == Select(a + init, keep) + tail;
      assert Select(b, keep) == Select(init, keep) + tail;
      assert Select(a, keep) + Select(init, keep) + tail == Select(a, keep) + (Select(init, keep) + tail);
    }
  }

  /** Every item kept is accepted, and every accepted item is kept. */
  lemma {:induction false} SelectKeeps<X>(xs: seq<X>, keep: X -> bool)
    ensures forall i :: 0 <= i < |Select(xs, keep)| ==> keep(Select(xs, keep)[i])
    ensures forall i :: 0 <= i < |xs| && keep(xs[i]) ==> xs[i] in Select(xs, keep)
    decreases |xs|
  {
    if xs != [] {
      var init := xs[..|xs| - 1];
      SelectKeeps(init, keep);
      assert forall i :: 0 <= i < |init| ==> init[i] == xs[i];
    }
  }
}
