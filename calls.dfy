/**
 * Calls made one after another where any of them may raise, and a raise
 * ends the sequence: which calls complete, and whether one raised. The
 * command-sync script's syncs, the DMs and post of `on_guild_join` and the
 * `reload_extension` calls of `reload` all run this way.
 */
module Calls {

  /** The calls that complete when the ones in `failing` raise: those before the first that raises. */
  function Run<T(==)>(calls: seq<T>, failing: set<T>): (r: seq<T>)
    ensures |r| <= |calls| && r == calls[..|r|]
    ensures forall k :: 0 <= k < |r| ==> r[k] !in failing
    ensures |r| < |calls| ==> calls[|r|] in failing
  {
    if calls == [] || calls[0] in failing then []
    else [calls[0]] + Run(calls[1..], failing)
  }

  /** Some call raises: the run stops short of the calls. */
  predicate Raises<T(==)>(calls: seq<T>, failing: set<T>)
  {
    |Run(calls, failing)| < |calls|
  }

  /** The run stops short exactly when some call is one that raises. */
  lemma RaisesExactly<T>(calls: seq<T>, failing: set<T>)
    ensures Raises(calls, failing) <==> exists k :: 0 <= k < |calls| && calls[k] in failing
  {
    var r := Run(calls, failing);
    if !Raises(calls, failing) {
      assert r == calls;
    }
  }

  /** Running two batches of calls in turn: the second runs only when the first did not raise. */
  lemma {:induction false} RunAppend<T>(p: seq<T>, q: seq<T>, failing: set<T>)
    ensures Run(p + q, failing) == if Raises(p, failing) then Run(p, failing) else p + Run(q, failing)
    ensures Raises(p + q, failing) <==> Raises(p, failing) || Raises(q, failing)
  {
    if p == [] {
      assert p + q == q;
    } else {
      assert (p + q)[0] == p[0];
      assert (p + q)[1..] == p[1..] + q;
      RunAppend(p[1..], q, failing);
    }
  }

  /** One more call after calls that did not raise: it completes, or it is the one that raises. */
  lemma RunSnoc<T>(p: seq<T>, x: T, failing: set<T>)
    requires !Raises(p, failing)
    ensures x !in failing ==> Run(p + [x], failing) == Run(p, failing) + [x] && !Raises(p + [x], failing)
    ensures x in failing ==> Run(p + [x], failing) == Run(p, failing) && Raises(p + [x], failing)
  {
    RunAppend(p, [x], failing);
  }

  /** Once some calls raise, later calls change nothing. */
  lemma RunExtends<T>(p: seq<T>, q: seq<T>, failing: set<T>)
    requires Raises(p, failing)
    ensures Run(p + q, failing) == Run(p, failing) && Raises(p + q, failing)
  {
    RunAppend(p, q, failing);
  }

  /** With no call raising, every call completes. */
  lemma RunAll<T>(calls: seq<T>, failing: set<T>)
    requires forall k :: 0 <= k < |calls| ==> calls[k] !in failing
    ensures Run(calls, failing) == calls
  {
  }
}
