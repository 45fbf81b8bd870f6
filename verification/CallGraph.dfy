/** Which functions a list of calls can reach in a call graph that may have cycles. */
module CallGraph {
  import opened Collections

  type Func = nat

  /** The bodies of all functions: for each one the functions it calls, in order. */
  type Bodies = map<Func, seq<Func>>

  predicate Known(calls: seq<Func>, bodies: Bodies) {
    forall f :: f in calls ==> f in bodies
  }

  predicate BodiesOk(bodies: Bodies) {
    forall f :: f in bodies ==> Known(bodies[f], bodies)
  }

  /** `s` contains whatever its members call. */
  predicate Closed(s: set<Func>, bodies: Bodies) {
    forall f, g :: f in s && f in bodies && g in bodies[f] ==> g in s
  }

  /** `funcs` grew to `all`: no duplicates, everything called is there, new functions have all their
      callees there, and there is nothing that a set closed under calls could do without. */
  ghost predicate Completed(calls: seq<Func>, bodies: Bodies, funcs: seq<Func>, all: seq<Func>) {
    && NoDup(all) && funcs <= all
    && (forall f :: f in calls ==> f in all)
    && (forall f :: f in all && f !in funcs ==> f in bodies && forall g :: g in bodies[f] ==> g in all)
    && forall s: set<Func> :: ToSet(calls) <= s && Closed(s, bodies) ==> ToSet(all) <= ToSet(funcs) + s
  }

  /** `calls_to_funcs_recursive`: a list of functions grows while the calls of every function that is
      new to it are followed. */
  method CallsToFuncsRecursive(calls: seq<Func>, bodies: Bodies, funcs0: seq<Func>) returns (funcs: seq<Func>)
    requires NoDup(funcs0) && BodiesOk(bodies) && Known(calls, bodies)
    ensures Completed(calls, bodies, funcs0, funcs)
    decreases bodies.Keys - ToSet(funcs0)
  {
    funcs := funcs0;
    var i := 0;
    assert calls[..0] == [];
    while i < |calls|
      invariant 0 <= i <= |calls| && Completed(calls[..i], bodies, funcs0, funcs)
    {
      var func := calls[i];
      ghost var before := funcs;
      assert calls[..i + 1] == calls[..i] + [func];
      if func !in funcs {
        funcs := funcs + [func];
        assert ToSet(funcs) == ToSet(before) + {func};
        Larger(bodies, funcs0, before, func);
        funcs := CallsToFuncsRecursive(bodies[func], bodies, funcs);
        OneCallDone(calls[..i], bodies, funcs0, before, func, funcs);
      } else {
        OneCallKnown(calls[..i], bodies, funcs0, funcs, func);
      }
      i := i + 1;
    }
    assert calls[..|calls|] == calls;
  }

  lemma Larger(bodies: Bodies, funcs0: seq<Func>, before: seq<Func>, func: Func)
    requires funcs0 <= before && func in bodies && func !in before
    ensures bodies.Keys - ToSet(before + [func]) < bodies.Keys - ToSet(funcs0)
  {
    assert ToSet(funcs0) <= ToSet(before) && func in ToSet(before + [func]) && func !in ToSet(funcs0);
    assert func in bodies.Keys - ToSet(funcs0) && func !in bodies.Keys - ToSet(before + [func]);
  }

  lemma OneCallKnown(calls: seq<Func>, bodies: Bodies, funcs0: seq<Func>, funcs: seq<Func>, func: Func)
    requires Completed(calls, bodies, funcs0, funcs) && func in funcs
    ensures Completed(calls + [func], bodies, funcs0, funcs)
  {
    assert ToSet(calls) <= ToSet(calls + [func]);
  }

  lemma OneCallDone(calls: seq<Func>, bodies: Bodies, funcs0: seq<Func>, before: seq<Func>, func: Func, funcs: seq<Func>)
    requires Completed(calls, bodies, funcs0, before) && func in bodies && func !in before
    requires Completed(bodies[func], bodies, before + [func], funcs)
    ensures Completed(calls + [func], bodies, funcs0, funcs)
  {
    assert before <= before + [func];
    assert func in before + [func];
    forall s: set<Func> | ToSet(calls + [func]) <= s && Closed(s, bodies)
      ensures ToSet(funcs) <= ToSet(funcs0) + s
    {
      assert ToSet(calls) <= ToSet(calls + [func]) && func in ToSet(calls + [func]);
      assert ToSet(bodies[func]) <= s;
      assert ToSet(before + [func]) == ToSet(before) + {func};
    }
  }

  /** The functions reachable from `calls` through at most `n` further calls. */
  function ReachableIn(calls: seq<Func>, bodies: Bodies, n: nat): set<Func> {
    if n == 0 then ToSet(calls) else WithCallees(ReachableIn(calls, bodies, n - 1), bodies)
  }

  function WithCallees(r: set<Func>, bodies: Bodies): set<Func> {
    r + set f, g | f in r && f in bodies && g in bodies[f] :: g
  }

  lemma CalleesGrow(r: set<Func>, bodies: Bodies)
    requires BodiesOk(bodies) && r <= bodies.Keys
    ensures WithCallees(r, bodies) <= bodies.Keys
    ensures if Closed(r, bodies) then WithCallees(r, bodies) == r else |WithCallees(r, bodies)| > |r|
  {
    var r' := WithCallees(r, bodies);
    if Closed(r, bodies) {
      assert r' == r;
    } else {
      var f, g :| f in r && f in bodies && g in bodies[f] && g !in r;
      assert g in r';
      SubsetCard(r, r');
    }
  }

  lemma {:induction false} ReachableInside(calls: seq<Func>, bodies: Bodies, n: nat, s: set<Func>)
    requires ToSet(calls) <= s && Closed(s, bodies)
    ensures ReachableIn(calls, bodies, n) <= s
  {
    if n > 0 { ReachableInside(calls, bodies, n - 1, s); }
  }

  lemma {:induction false} ReachableGrows(calls: seq<Func>, bodies: Bodies, n: nat)
    requires BodiesOk(bodies) && Known(calls, bodies)
    ensures ReachableIn(calls, bodies, n) <= bodies.Keys
    ensures Closed(ReachableIn(calls, bodies, n), bodies) || |ReachableIn(calls, bodies, n)| >= n
  {
    if n > 0 {
      ReachableGrows(calls, bodies, n - 1);
      CalleesGrow(ReachableIn(calls, bodies, n - 1), bodies);
    }
  }

  lemma ReachableIsClosed(calls: seq<Func>, bodies: Bodies)
    requires BodiesOk(bodies) && Known(calls, bodies)
    ensures Closed(ReachableIn(calls, bodies, |bodies.Keys| + 1), bodies)
  {
    var n := |bodies.Keys| + 1;
    ReachableGrows(calls, bodies, n);
    SubsetCard(ReachableIn(calls, bodies, n), bodies.Keys);
  }

  /** From an empty list the result is exactly the functions reachable from the calls, each once. */
  lemma ExactlyReachable(calls: seq<Func>, bodies: Bodies, all: seq<Func>, f: Func)
    requires BodiesOk(bodies) && Known(calls, bodies) && Completed(calls, bodies, [], all)
    ensures f in all <==> exists n: nat :: f in ReachableIn(calls, bodies, n)
    ensures |all| == |ToSet(all)|
  {
    NoDupCard(all);
    var limit := |bodies.Keys| + 1;
    if f in all {
      ReachableIsClosed(calls, bodies);
      ReachableInside(calls, bodies, 0, ReachableIn(calls, bodies, limit)) by {
        CallsReached(calls, bodies, limit);
      }
      assert f in ReachableIn(calls, bodies, limit);
    }
    if n: nat :| f in ReachableIn(calls, bodies, n) {
      assert Closed(ToSet(all), bodies);
      ReachableInside(calls, bodies, n, ToSet(all));
    }
  }

  lemma {:induction false} CallsReached(calls: seq<Func>, bodies: Bodies, n: nat)
    ensures ToSet(calls) <= ReachableIn(calls, bodies, n)
  {
    if n > 0 { CallsReached(calls, bodies, n - 1); }
  }
}
