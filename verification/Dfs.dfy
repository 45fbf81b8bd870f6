/** The exhaustive search. */
module Dfs {
  // Exhaustive mode: the random-number generator that drives a depth-first search over all choice
  // sequences by replaying the program from its start, and the loop around it.

  import opened Collections

  /** What a generation run does with its choices. `Leaf(accepted)` ends the run, with or without
      an error of its own. `Node` asks for a number below `|kids|`; `None` marks a number that the
      filter of this choice rejects. `Guard` is a depth guard: at least `need` more choices are
      said to follow. */
  datatype Tree =
    | Leaf(accepted: bool)
    | Node(kids: seq<Option<Tree>>)
    | Guard(need: int, sub: Tree)

  type Walk = seq<nat>

  // ---------- what the search should produce ----------

  /** `w` is a complete accepted run of `t` when `pos` choices were made before and at most `max`
      may be made in all. Depth guards play no part. */
  predicate Accepts(t: Tree, pos: nat, max: nat, w: Walk)
    decreases t
  {
    match t
    case Leaf(accepted) => accepted && w == []
    case Guard(_, sub) => Accepts(sub, pos, max, w)
    case Node(kids) =>
      pos < max && w != [] && w[0] < |kids| && kids[w[0]].Some? && Accepts(kids[w[0]].value, pos + 1, max, w[1..])
  }

  /** A depth guard gives up when fewer choices are left than it needs; never before the second
      choice. */
  predicate Fires(need: int, pos: nat, max: nat) {
    pos >= 2 && max - (pos - 1) < need
  }

  function Prefixed(v: nat, ws: seq<Walk>): (r: seq<Walk>)
    ensures |r| == |ws|
  {
    seq(|ws|, i requires 0 <= i < |ws| => [v] + ws[i])
  }

  /** The accepted walks in the order of the search; `guarded` says whether depth guards prune. */
  function All(t: Tree, pos: nat, max: nat, guarded: bool): seq<Walk>
    decreases t, 1
  {
    match t
    case Leaf(accepted) => if accepted then [[]] else []
    case Guard(need, sub) => if guarded && Fires(need, pos, max) then [] else All(sub, pos, max, guarded)
    case Node(kids) => if pos >= max then [] else AllFrom(t, 0, pos, max, guarded)
  }

  /** The walks that start with a choice of at least `v`. */
  function AllFrom(t: Tree, v: nat, pos: nat, max: nat, guarded: bool): seq<Walk>
    requires t.Node? && v <= |t.kids|
    decreases t, 0, |t.kids| - v
  {
    if v == |t.kids| then []
    else
      var first := if t.kids[v].Some? then Prefixed(v, All(t.kids[v].value, pos + 1, max, guarded)) else [];
      first + AllFrom(t, v + 1, pos, max, guarded)
  }

  // ---------- exactly the accepted walks, each once, in order ----------

  /** Lexicographic order on walks. */
  predicate Before(a: Walk, b: Walk) {
    b != [] && (a == [] || a[0] < b[0] || (a[0] == b[0] && Before(a[1..], b[1..])))
  }

  ghost predicate Increasing(ws: seq<Walk>) {
    forall i, j :: 0 <= i < j < |ws| ==> Before(ws[i], ws[j])
  }

  lemma {:induction false} BeforeIrreflexive(a: Walk)
    ensures !Before(a, a)
  {
    if a != [] { BeforeIrreflexive(a[1..]); }
  }

  lemma InPrefixed(v: nat, ws: seq<Walk>, w: Walk)
    ensures w in Prefixed(v, ws) <==> w != [] && w[0] == v && w[1..] in ws
  {
    var r := Prefixed(v, ws);
    if w in r {
      var i :| 0 <= i < |r| && r[i] == w;
      assert w[1..] == ws[i];
    }
    if w != [] && w[0] == v && w[1..] in ws {
      var i :| 0 <= i < |ws| && ws[i] == w[1..];
      assert r[i] == w;
    }
  }

  /** The walk `w` leads through a depth guard that fires. */
  predicate Pruned(t: Tree, pos: nat, max: nat, w: Walk)
    decreases t
  {
    match t
    case Leaf(_) => false
    case Guard(need, sub) => Fires(need, pos, max) || Pruned(sub, pos, max, w)
    case Node(kids) => w != [] && w[0] < |kids| && kids[w[0]].Some? && Pruned(kids[w[0]].value, pos + 1, max, w[1..])
  }

  /** The search produces exactly the accepted walks that no firing guard cuts off. */
  lemma {:induction false} AllMeansAccepted(t: Tree, pos: nat, max: nat, guarded: bool, w: Walk)
    ensures w in All(t, pos, max, guarded) <==> Accepts(t, pos, max, w) && !(guarded && Pruned(t, pos, max, w))
    decreases t, 1
  {
    match t
    case Leaf(_) =>
    case Guard(need, sub) => if !(guarded && Fires(need, pos, max)) { AllMeansAccepted(sub, pos, max, guarded, w); }
    case Node(kids) => if pos < max { AllFromMeansAccepted(t, 0, pos, max, guarded, w); }
  }

  lemma {:induction false} AllFromMeansAccepted(t: Tree, v: nat, pos: nat, max: nat, guarded: bool, w: Walk)
    requires t.Node? && v <= |t.kids| && pos < max
    ensures w in AllFrom(t, v, pos, max, guarded) <==>
      w != [] && v <= w[0] && Accepts(t, pos, max, w) && !(guarded && Pruned(t, pos, max, w))
    decreases t, 0, |t.kids| - v
  {
    if v < |t.kids| {
      AllFromMeansAccepted(t, v + 1, pos, max, guarded, w);
      if t.kids[v].Some? {
        InPrefixed(v, All(t.kids[v].value, pos + 1, max, guarded), w);
        if w != [] && w[0] == v { AllMeansAccepted(t.kids[v].value, pos + 1, max, guarded, w[1..]); }
      }
    }
  }

  /** No walk is produced twice. */
  lemma EachWalkOnce(t: Tree, max: nat, i: nat, j: nat)
    requires i < j < |All(t, 0, max, true)|
    ensures Before(All(t, 0, max, true)[i], All(t, 0, max, true)[j]) && All(t, 0, max, true)[i] != All(t, 0, max, true)[j]
  {
    AllIncreasing(t, 0, max, true);
    BeforeIrreflexive(All(t, 0, max, true)[i]);
  }

  lemma PrefixedIncreasing(v: nat, ws: seq<Walk>)
    requires Increasing(ws)
    ensures Increasing(Prefixed(v, ws))
  {
    var r := Prefixed(v, ws);
    forall i, j | 0 <= i < j < |r| ensures Before(r[i], r[j]) {
      assert r[i][1..] == ws[i] && r[j][1..] == ws[j];
    }
  }

  lemma {:induction false} AllIncreasing(t: Tree, pos: nat, max: nat, guarded: bool)
    ensures Increasing(All(t, pos, max, guarded))
    decreases t, 1
  {
    match t
    case Leaf(_) =>
    case Guard(_, sub) => AllIncreasing(sub, pos, max, guarded);
    case Node(kids) => if pos < max { AllFromIncreasing(t, 0, pos, max, guarded); }
  }

  lemma {:induction false} AllFromIncreasing(t: Tree, v: nat, pos: nat, max: nat, guarded: bool)
    requires t.Node? && v <= |t.kids|
    ensures Increasing(AllFrom(t, v, pos, max, guarded))
    ensures forall w :: w in AllFrom(t, v, pos, max, guarded) ==> w != [] && v <= w[0]
    decreases t, 0, |t.kids| - v
  {
    if v < |t.kids| {
      AllFromIncreasing(t, v + 1, pos, max, guarded);
      if t.kids[v].Some? {
        var ws := All(t.kids[v].value, pos + 1, max, guarded);
        AllIncreasing(t.kids[v].value, pos + 1, max, guarded);
        PrefixedIncreasing(v, ws);
        var a, b := Prefixed(v, ws), AllFrom(t, v + 1, pos, max, guarded);
        forall i, j | 0 <= i < j < |a + b| ensures Before((a + b)[i], (a + b)[j]) {
          if i < |a| <= j { assert b[j - |a|] in b; }
        }
      }
    }
  }

  // ---------- depth guards ----------

  /** No guard that fires stands above an accepted walk. */
  ghost predicate Harmless(t: Tree, pos: nat, max: nat)
    decreases t, 1
  {
    match t
    case Leaf(_) => true
    case Guard(need, sub) =>
      if Fires(need, pos, max) then forall w :: !Accepts(sub, pos, max, w) else Harmless(sub, pos, max)
    case Node(kids) =>
      pos < max ==> HarmlessFrom(t, 0, pos, max)
  }

  ghost predicate HarmlessFrom(t: Tree, v: nat, pos: nat, max: nat)
    requires t.Node? && v <= |t.kids|
    decreases t, 0, |t.kids| - v
  {
    v < |t.kids| ==>
      (t.kids[v].Some? ==> Harmless(t.kids[v].value, pos + 1, max)) && HarmlessFrom(t, v + 1, pos, max)
  }

  /** Eager backtracking loses nothing exactly when no firing guard stands above an accepted walk. */
  lemma {:induction false} EagerIsLossless(t: Tree, pos: nat, max: nat)
    ensures All(t, pos, max, true) == All(t, pos, max, false) <==> Harmless(t, pos, max)
    ensures |All(t, pos, max, true)| <= |All(t, pos, max, false)|
    decreases t, 1
  {
    match t
    case Leaf(_) =>
    case Guard(need, sub) =>
      EagerIsLossless(sub, pos, max);
      if Fires(need, pos, max) {
        var ws := All(sub, pos, max, false);
        forall w ensures w in ws <==> Accepts(sub, pos, max, w) { AllMeansAccepted(sub, pos, max, false, w); }
        if ws != [] { assert ws[0] in ws; }
      }
    case Node(kids) =>
      if pos < max { EagerIsLosslessFrom(t, 0, pos, max); }
  }

  /** With at most two choices in all, a guard after both of them that asks for two more fires, and the
      one accepted walk is lost. */
  lemma GuardLosesWalk(t: Tree)
    requires t == Node([Some(Node([Some(Guard(2, Leaf(true)))]))])
    ensures All(t, 0, 2, false) == [[0, 0]] && All(t, 0, 2, true) == []
  {
    var inner := Node([Some(Guard(2, Leaf(true)))]);
    assert All(Guard(2, Leaf(true)), 2, 2, false) == [[]] && All(Guard(2, Leaf(true)), 2, 2, true) == [];
    assert AllFrom(inner, 1, 1, 2, false) == [] && AllFrom(inner, 1, 1, 2, true) == [];
    assert [0] + [] == [0] && Prefixed(0, [[]]) == [[0]];
    assert All(inner, 1, 2, false) == AllFrom(inner, 0, 1, 2, false) == [[0]];
    assert All(inner, 1, 2, true) == AllFrom(inner, 0, 1, 2, true) == [];
    assert AllFrom(t, 1, 0, 2, false) == [] && AllFrom(t, 1, 0, 2, true) == [];
    assert [0] + [0] == [0, 0] && Prefixed(0, [[0]]) == [[0, 0]];
    assert All(t, 0, 2, false) == AllFrom(t, 0, 0, 2, false);
    assert All(t, 0, 2, true) == AllFrom(t, 0, 0, 2, true);
  }

  lemma {:induction false} EagerIsLosslessFrom(t: Tree, v: nat, pos: nat, max: nat)
    requires t.Node? && v <= |t.kids|
    ensures AllFrom(t, v, pos, max, true) == AllFrom(t, v, pos, max, false) <==> HarmlessFrom(t, v, pos, max)
    ensures |AllFrom(t, v, pos, max, true)| <= |AllFrom(t, v, pos, max, false)|
    decreases t, 0, |t.kids| - v
  {
    if v < |t.kids| {
      EagerIsLosslessFrom(t, v + 1, pos, max);
      if t.kids[v].Some? {
        EagerIsLossless(t.kids[v].value, pos + 1, max);
        var a, b := All(t.kids[v].value, pos + 1, max, true), All(t.kids[v].value, pos + 1, max, false);
        var a', b' := AllFrom(t, v + 1, pos, max, true), AllFrom(t, v + 1, pos, max, false);
        assert AllFrom(t, v, pos, max, true) == Prefixed(v, a) + a';
        assert AllFrom(t, v, pos, max, false) == Prefixed(v, b) + b';
        if Prefixed(v, a) + a' == Prefixed(v, b) + b' {
          SplitEqual(v, a, b, a', b');
        }
      } else {
        assert forall g {:trigger AllFrom(t, v, pos, max, g)} :: AllFrom(t, v, pos, max, g) == AllFrom(t, v + 1, pos, max, g);
      }
    }
  }

  lemma SplitEqual(v: nat, a: seq<Walk>, b: seq<Walk>, a': seq<Walk>, b': seq<Walk>)
    requires Prefixed(v, a) + a' == Prefixed(v, b) + b' && |a| <= |b| && |a'| <= |b'|
    ensures a == b && a' == b'
  {
    var p, q := Prefixed(v, a), Prefixed(v, b);
    assert |p + a'| == |q + b'|;
    assert p == (p + a')[..|a|] == q;
    assert a' == (p + a')[|a|..] == b';
    forall i | 0 <= i < |a| ensures a[i] == b[i] { assert p[i][1..] == a[i] && q[i][1..] == b[i]; }
  }

  /** `need` is a true lower bound: no accepted walk below makes fewer choices. */
  ghost predicate LowerBounds(t: Tree, pos: nat, max: nat)
    decreases t
  {
    match t
    case Leaf(_) => true
    case Guard(need, sub) => LowerBounds(sub, pos, max) && forall w :: Accepts(sub, pos, max, w) ==> |w| >= need
    case Node(kids) => forall v :: 0 <= v < |kids| && kids[v].Some? ==> LowerBounds(kids[v].value, pos + 1, max)
  }

  lemma {:induction false} AcceptedIsShort(t: Tree, pos: nat, max: nat, w: Walk)
    requires Accepts(t, pos, max, w) && pos <= max
    ensures pos + |w| <= max
    decreases t
  {
    match t
    case Leaf(_) =>
    case Guard(_, sub) => AcceptedIsShort(sub, pos, max, w);
    case Node(kids) => AcceptedIsShort(kids[w[0]].value, pos + 1, max, w[1..]);
  }

  /** The depth guards on the way of `w`: how many choices were made before, and how many more the
      guard asks for. */
  function GuardsMet(t: Tree, pos: nat, w: Walk): seq<(nat, int)>
    decreases t
  {
    match t
    case Leaf(_) => []
    case Guard(need, sub) => [(pos, need)] + GuardsMet(sub, pos, w)
    case Node(kids) => if w != [] && w[0] < |kids| && kids[w[0]].Some? then GuardsMet(kids[w[0]].value, pos + 1, w[1..]) else []
  }

  /** A guard lets a walk pass before the second choice, and as long as it asks for at most one choice
      more than are left. */
  ghost predicate AllPass(met: seq<(nat, int)>, max: int) {
    forall g :: g in met ==> g.0 < 2 || g.1 <= max - g.0 + 1
  }

  /** The walks that are produced are exactly the accepted ones whose guards all let them pass. */
  lemma {:induction false} GuardBound(t: Tree, pos: nat, max: nat, w: Walk)
    ensures w in All(t, pos, max, true) <==> Accepts(t, pos, max, w) && AllPass(GuardsMet(t, pos, w), max)
  {
    AllMeansAccepted(t, pos, max, true, w);
    if Accepts(t, pos, max, w) { PrunedExactly(t, pos, max, w); }
  }

  lemma {:induction false} PrunedExactly(t: Tree, pos: nat, max: nat, w: Walk)
    requires Accepts(t, pos, max, w)
    ensures Pruned(t, pos, max, w) <==> !AllPass(GuardsMet(t, pos, w), max)
    decreases t
  {
    match t
    case Leaf(_) =>
    case Guard(need, sub) =>
      PrunedExactly(sub, pos, max, w);
      var met := GuardsMet(sub, pos, w);
      assert ([(pos, need)] + met)[0] == (pos, need);
      forall g ensures g in [(pos, need)] + met <==> g == (pos, need) || g in met {}
    case Node(kids) =>
      PrunedExactly(kids[w[0]].value, pos + 1, max, w[1..]);
  }

  /** One guard: at least `need - 1` choices left, and nothing is cut off; at most `need - 2`, and
      everything is, from the second choice on. So a walk that makes `need - 1` choices below is safe. */
  lemma OneGuard(need: int, sub: Tree, pos: nat, max: nat, w: Walk)
    requires pos <= max
    ensures pos < 2 || max - pos >= need - 1 ==> All(Guard(need, sub), pos, max, true) == All(sub, pos, max, true)
    ensures pos >= 2 && max - pos <= need - 2 ==> All(Guard(need, sub), pos, max, true) == []
    ensures |w| >= need - 1 ==> (w in All(Guard(need, sub), pos, max, true) <==> w in All(sub, pos, max, true))
  {
    if w in All(sub, pos, max, true) {
      AllMeansAccepted(sub, pos, max, true, w);
      AcceptedIsShort(sub, pos, max, w);
    }
  }

  /** Guards that state true lower bounds prune nothing. */
  lemma {:induction false} LowerBoundsAreHarmless(t: Tree, pos: nat, max: nat)
    requires LowerBounds(t, pos, max) && pos <= max
    ensures Harmless(t, pos, max)
    decreases t, 1
  {
    match t
    case Leaf(_) =>
    case Guard(need, sub) =>
      LowerBoundsAreHarmless(sub, pos, max);
      if Fires(need, pos, max) {
        forall w ensures !Accepts(sub, pos, max, w) {
          if Accepts(sub, pos, max, w) { AcceptedIsShort(sub, pos, max, w); }
        }
      }
    case Node(kids) =>
      if pos < max { LowerBoundsAreHarmlessFrom(t, 0, pos, max); }
  }

  lemma {:induction false} LowerBoundsAreHarmlessFrom(t: Tree, v: nat, pos: nat, max: nat)
    requires t.Node? && v <= |t.kids| && LowerBounds(t, pos, max) && pos < max
    ensures HarmlessFrom(t, v, pos, max)
    decreases t, 0, |t.kids| - v
  {
    if v < |t.kids| {
      if t.kids[v].Some? { LowerBoundsAreHarmless(t.kids[v].value, pos + 1, max); }
      LowerBoundsAreHarmlessFrom(t, v + 1, pos, max);
    }
  }

  // ---------- one replayed run ----------

  /** The first number from `v` on that the filter lets through; `|kids|` if there is none. */
  function NextOk(kids: seq<Option<Tree>>, v: nat): (r: nat)
    requires v <= |kids|
    ensures v <= r <= |kids| && (r < |kids| ==> kids[r].Some?)
    ensures forall u :: v <= u < r ==> kids[u].None?
    decreases |kids| - v
  {
    if v == |kids| || kids[v].Some? then v else NextOk(kids, v + 1)
  }

  /** How a run ends: completely, out of choices here, or past the depth limit. */
  datatype End = Complete(accepted: bool) | Backtrack | TooDeep

  /** The end of one run, the choices it made, and the frontier it leaves: the path from here to the
      last node whose current choice has been used up. */
  datatype Run = Run(end: End, walk: Walk, frontier: seq<nat>)
  {
    function Under(v: nat): Run { Run(end, [v] + walk, [v] + frontier) }

    /** The walk, if the run produced a program. */
    function Output(): seq<Walk> { if end == Complete(true) then [walk] else [] }
  }

  /** A run below a node that no run has reached before. */
  function Fresh(t: Tree, pos: nat, max: nat): Run
    decreases t
  {
    match t
    case Leaf(accepted) => Run(Complete(accepted), [], [])
    case Guard(need, sub) => if Fires(need, pos, max) then Run(Backtrack, [], []) else Fresh(sub, pos, max)
    case Node(kids) =>
      if pos >= max then Run(TooDeep, [], [])
      else
        var v := NextOk(kids, 0);
        if v == |kids| then Run(Backtrack, [], []) else Fresh(kids[v].value, pos + 1, max).Under(v)
  }

  /** `f` is a path of accepted choices in `t`, above no firing guard and within the depth limit. */
  predicate OnPath(t: Tree, pos: nat, max: nat, f: seq<nat>)
    decreases t
  {
    match t
    case Leaf(_) => f == []
    case Guard(need, sub) => if Fires(need, pos, max) then f == [] else OnPath(sub, pos, max, f)
    case Node(kids) =>
      f == [] || (pos < max && f[0] < |kids| && kids[f[0]].Some? && OnPath(kids[f[0]].value, pos + 1, max, f[1..]))
  }

  lemma {:induction false} EmptyOnPath(t: Tree, pos: nat, max: nat)
    ensures OnPath(t, pos, max, [])
    decreases t
  {
    if t.Guard? { EmptyOnPath(t.sub, pos, max); }
  }

  /** A run that replays the frontier `f` and moves on at its end. */
  function Resume(t: Tree, pos: nat, max: nat, f: seq<nat>): Run
    requires f != [] && OnPath(t, pos, max, f)
    decreases t
  {
    match t
    case Leaf(_) => Run(Backtrack, [], [])
    case Guard(need, sub) => if Fires(need, pos, max) then Run(Backtrack, [], []) else Resume(sub, pos, max, f)
    case Node(kids) =>
      if |f| > 1 then Resume(kids[f[0]].value, pos + 1, max, f[1..]).Under(f[0])
      else
        var v := NextOk(kids, f[0] + 1);
        if v == |kids| then Run(Backtrack, [], []) else Fresh(kids[v].value, pos + 1, max).Under(v)
  }

  /** The walks still to come once everything up to the frontier `f` has been used up. */
  function After(t: Tree, pos: nat, max: nat, f: seq<nat>): seq<Walk>
    requires OnPath(t, pos, max, f)
    decreases t
  {
    if f == [] then []
    else
      match t
      case Leaf(_) => []
      case Guard(need, sub) => if Fires(need, pos, max) then [] else After(sub, pos, max, f)
      case Node(kids) =>
        Prefixed(f[0], After(kids[f[0]].value, pos + 1, max, f[1..])) + AllFrom(t, f[0] + 1, pos, max, true)
  }

  lemma PrefixedConcat(v: nat, a: seq<Walk>, b: seq<Walk>)
    ensures Prefixed(v, a + b) == Prefixed(v, a) + Prefixed(v, b)
  {}

  lemma {:induction false} SkipRejected(t: Tree, v: nat, pos: nat, max: nat)
    requires t.Node? && v <= |t.kids|
    ensures AllFrom(t, v, pos, max, true) == AllFrom(t, NextOk(t.kids, v), pos, max, true)
    decreases |t.kids| - v
  {
    if v < |t.kids| && t.kids[v].None? { SkipRejected(t, v + 1, pos, max); }
  }

  lemma UnderOutput(r: Run, v: nat, rest: seq<Walk>)
    ensures Prefixed(v, r.Output() + rest) == r.Under(v).Output() + Prefixed(v, rest)
  {
    PrefixedConcat(v, r.Output(), rest);
  }

  /** A fresh run outputs the first accepted walk if it reaches one, and leaves the others. */
  lemma {:induction false} FreshIsFirst(t: Tree, pos: nat, max: nat)
    ensures var r := Fresh(t, pos, max);
      OnPath(t, pos, max, r.frontier) && All(t, pos, max, true) == r.Output() + After(t, pos, max, r.frontier)
    decreases t, 1
  {
    match t
    case Leaf(_) =>
    case Guard(need, sub) => if !Fires(need, pos, max) { FreshIsFirst(sub, pos, max); }
    case Node(kids) =>
      if pos < max {
        SkipRejected(t, 0, pos, max);
        var v := NextOk(kids, 0);
        if v < |kids| { FreshChild(t, v, pos, max); }
      }
  }

  lemma {:induction false} FreshChild(t: Tree, v: nat, pos: nat, max: nat)
    requires t.Node? && v < |t.kids| && t.kids[v].Some? && pos < max
    ensures var r := Fresh(t.kids[v].value, pos + 1, max).Under(v);
      OnPath(t, pos, max, r.frontier)
      && AllFrom(t, v, pos, max, true) == r.Output() + After(t, pos, max, r.frontier)
    decreases t, 0
  {
    FreshIsFirst(t.kids[v].value, pos + 1, max);
    var r := Fresh(t.kids[v].value, pos + 1, max);
    assert r.Under(v).frontier[1..] == r.frontier;
    UnderOutput(r, v, After(t.kids[v].value, pos + 1, max, r.frontier));
  }

  /** A resumed run outputs the next accepted walk if it reaches one, and leaves the others. */
  lemma {:induction false} ResumeIsNext(t: Tree, pos: nat, max: nat, f: seq<nat>)
    requires f != [] && OnPath(t, pos, max, f)
    ensures IsNext(t, pos, max, f, Resume(t, pos, max, f))
    decreases t, 1
  {
    match t
    case Leaf(_) =>
    case Guard(need, sub) => if !Fires(need, pos, max) { ResumeIsNext(sub, pos, max, f); }
    case Node(_) => if |f| > 1 { ResumeDeeper(t, pos, max, f); } else { ResumeHere(t, pos, max, f); }
  }

  ghost predicate IsNext(t: Tree, pos: nat, max: nat, f: seq<nat>, r: Run)
    requires OnPath(t, pos, max, f)
  {
    OnPath(t, pos, max, r.frontier) && After(t, pos, max, f) == r.Output() + After(t, pos, max, r.frontier)
  }

  lemma {:induction false} ResumeDeeper(t: Tree, pos: nat, max: nat, f: seq<nat>)
    requires t.Node? && |f| > 1 && OnPath(t, pos, max, f)
    ensures IsNext(t, pos, max, f, Resume(t, pos, max, f))
    decreases t, 0
  {
    var kid := t.kids[f[0]].value;
    ResumeIsNext(kid, pos + 1, max, f[1..]);
    var r := Resume(kid, pos + 1, max, f[1..]);
    assert r.Under(f[0]).frontier[1..] == r.frontier;
    UnderOutput(r, f[0], After(kid, pos + 1, max, r.frontier));
  }

  lemma ResumeHere(t: Tree, pos: nat, max: nat, f: seq<nat>)
    requires t.Node? && |f| == 1 && OnPath(t, pos, max, f)
    ensures IsNext(t, pos, max, f, Resume(t, pos, max, f))
  {
    assert After(t.kids[f[0]].value, pos + 1, max, f[1..]) == [];
    SkipRejected(t, f[0] + 1, pos, max);
    var v := NextOk(t.kids, f[0] + 1);
    if v < |t.kids| { FreshChild(t, v, pos, max); }
  }

  // ---------- every run makes progress ----------

  function Weight(t: Tree): (n: nat)
    ensures n >= 1
    decreases t, 1
  {
    match t
    case Leaf(_) => 1
    case Guard(_, sub) => Weight(sub)
    case Node(kids) => 1 + WeightFrom(t, 0)
  }

  function WeightFrom(t: Tree, v: nat): nat
    requires t.Node? && v <= |t.kids|
    decreases t, 0, |t.kids| - v
  {
    if v == |t.kids| then 0
    else (if t.kids[v].Some? then Weight(t.kids[v].value) else 0) + WeightFrom(t, v + 1)
  }

  /** The nodes the search still has to leave after the frontier `f`. */
  function Remaining(t: Tree, pos: nat, max: nat, f: seq<nat>): nat
    requires OnPath(t, pos, max, f)
    decreases t
  {
    match t
    case Leaf(_) => 0
    case Guard(_, sub) => if f == [] then 0 else Remaining(sub, pos, max, f)
    case Node(kids) => if f == [] then 0 else 1 + Remaining(kids[f[0]].value, pos + 1, max, f[1..]) + WeightFrom(t, f[0] + 1)
  }

  lemma {:induction false} WeightSkips(t: Tree, v: nat)
    requires t.Node? && v <= |t.kids|
    ensures WeightFrom(t, v) == WeightFrom(t, NextOk(t.kids, v))
    decreases |t.kids| - v
  {
    if v < |t.kids| && t.kids[v].None? { WeightSkips(t, v + 1); }
  }

  lemma {:induction false} FreshProgress(t: Tree, pos: nat, max: nat)
    ensures var f := Fresh(t, pos, max).frontier; OnPath(t, pos, max, f) && Remaining(t, pos, max, f) < Weight(t)
    decreases t
  {
    match t
    case Leaf(_) =>
    case Guard(need, sub) => if !Fires(need, pos, max) { FreshProgress(sub, pos, max); }
    case Node(kids) =>
      if pos < max {
        var v := NextOk(kids, 0);
        WeightSkips(t, 0);
        if v < |kids| {
          FreshProgress(kids[v].value, pos + 1, max);
          var r := Fresh(kids[v].value, pos + 1, max);
          assert r.Under(v).frontier[1..] == r.frontier;
        }
      }
  }

  /** Every resumed run leaves strictly less for the runs to come. */
  lemma {:induction false} ResumeProgress(t: Tree, pos: nat, max: nat, f: seq<nat>)
    requires f != [] && OnPath(t, pos, max, f)
    ensures var f' := Resume(t, pos, max, f).frontier;
      OnPath(t, pos, max, f') && Remaining(t, pos, max, f') < Remaining(t, pos, max, f)
    decreases t
  {
    match t
    case Leaf(_) =>
    case Guard(need, sub) => if !Fires(need, pos, max) { ResumeProgress(sub, pos, max, f); }
    case Node(kids) =>
      if |f| > 1 {
        ResumeProgress(kids[f[0]].value, pos + 1, max, f[1..]);
        var r := Resume(kids[f[0]].value, pos + 1, max, f[1..]);
        assert r.Under(f[0]).frontier[1..] == r.frontier;
      } else {
        WeightSkips(t, f[0] + 1);
        var v := NextOk(kids, f[0] + 1);
        if v < |kids| {
          FreshProgress(kids[v].value, pos + 1, max);
          var r := Fresh(kids[v].value, pos + 1, max);
          assert r.Under(v).frontier[1..] == r.frontier;
        }
      }
  }

  // ---------- the search as a whole ----------

  /** The first thing a run does, depth guards aside, is to ask for a number. */
  predicate AsksFirst(t: Tree) {
    match t
    case Leaf(_) => false
    case Guard(_, sub) => AsksFirst(sub)
    case Node(_) => true
  }

  /** A first run that leaves nothing to resume reports the end of the search exactly when the run
      starts with a choice and at least one choice is allowed. Otherwise the loop never ends: every
      later run is a first run again. */
  lemma {:induction false} FirstRunEnds(t: Tree, max: nat)
    requires Fresh(t, 0, max).frontier == []
    ensures Fresh(t, 0, max).end == Backtrack <==> AsksFirst(t) && max >= 1
    decreases t
  {
    if t.Guard? { FirstRunEnds(t.sub, max); }
  }

  /** Without a first choice, or with no choice allowed, no run leaves anything to resume. */
  lemma {:induction false} NeverEnds(t: Tree, max: nat)
    requires !AsksFirst(t) || max == 0
    ensures Fresh(t, 0, max).frontier == [] && Fresh(t, 0, max).end != Backtrack
    decreases t
  {
    if t.Guard? { NeverEnds(t.sub, max); }
  }

  lemma {:induction false} LastRunEnds(t: Tree, pos: nat, max: nat, f: seq<nat>)
    requires f != [] && OnPath(t, pos, max, f) && Resume(t, pos, max, f).frontier == []
    ensures Resume(t, pos, max, f).end == Backtrack
    decreases t
  {
    if t.Guard? && !Fires(t.need, pos, max) { LastRunEnds(t.sub, pos, max, f); }
  }

  // ---------- the generator ----------

  datatype Error = Success | BacktrackingError | ExceedMaxDepthError

  datatype SearchState = SearchState(init: bool, value: nat, bound: nat)

  /** What a request for a number does to the frontier. */
  datatype Choice = Choice(result: int, frontier: seq<nat>, error: Error)

  function Chosen(kids: seq<Option<Tree>>, p: nat, f: seq<nat>, max: nat): Choice
    requires p <= |f| && (p < |f| ==> f[p] < |kids|)
  {
    if p >= max then Choice(-1, f, ExceedMaxDepthError)
    else if p + 1 < |f| then Choice(f[p], f, Success)
    else
      var v := NextOk(kids, if p < |f| then f[p] + 1 else 0);
      if v == |kids| then Choice(-1, f[..p], BacktrackingError) else Choice(v, f[..p] + [v], Success)
  }

  function ErrorOf(e: End): Error {
    match e
    case Complete(_) => Success
    case Backtrack => BacktrackingError
    case TooDeep => ExceedMaxDepthError
  }

  /** A run of `t` whose frontier, seen from here, is `f`. */
  function RunOf(t: Tree, pos: nat, max: nat, f: seq<nat>): Run
    requires OnPath(t, pos, max, f)
  {
    if f == [] then Fresh(t, pos, max) else Resume(t, pos, max, f)
  }

  /** One choice splits a run: it ends here, or goes on below the chosen number. */
  lemma RunChild(kids: seq<Option<Tree>>, pos: nat, max: nat, f: seq<nat>)
    requires pos <= |f| && OnPath(Node(kids), pos, max, f[pos..])
    ensures var c, r := Chosen(kids, pos, f, max), RunOf(Node(kids), pos, max, f[pos..]);
      if c.error != Success then
        c.frontier == f[..pos] && r.walk == [] && r.frontier == [] && c.error == ErrorOf(r.end)
      else
        && 0 <= c.result < |kids| && kids[c.result].Some?
        && |c.frontier| > pos && c.frontier[..pos + 1] == f[..pos] + [c.result]
        && OnPath(kids[c.result].value, pos + 1, max, c.frontier[pos + 1..])
        && r == RunOf(kids[c.result].value, pos + 1, max, c.frontier[pos + 1..]).Under(c.result)
  {
    var c := Chosen(kids, pos, f, max);
    if pos < max {
      assert f[pos..] != [] ==> f[pos..][1..] == f[pos + 1..];
      if pos + 1 >= |f| && c.error == Success {
        assert c.frontier[pos + 1..] == [];
        EmptyOnPath(kids[c.result].value, pos + 1, max);
      }
    }
  }

  /** The frontier `f` is a path in the tree whose part `t` is reached after `pos` choices. */
  ghost predicate CanWalk(t: Tree, pos: nat, max: nat, f: seq<nat>) {
    pos <= |f| && OnPath(t, pos, max, f[pos..])
  }

  /** The generator after a run of `t` from the frontier `f` and the trace `trace`. */
  ghost predicate Walked(t: Tree, pos: nat, max: nat, f: seq<nat>, trace: Walk, f': seq<nat>, trace': Walk, error: Error, accepted: bool) {
    CanWalk(t, pos, max, f) &&
    var r := RunOf(t, pos, max, f[pos..]);
    && f' == f[..pos] + r.frontier
    && trace' == trace + r.walk
    && error == ErrorOf(r.end)
    && accepted == (r.end == Complete(true))
  }

  lemma LeafDone(ok: bool, pos: nat, max: nat, f: seq<nat>, trace: Walk)
    requires CanWalk(Leaf(ok), pos, max, f)
    ensures Walked(Leaf(ok), pos, max, f, trace, f, trace, Success, ok)
  {
    assert f[..pos] + [] == f && trace + [] == trace;
  }

  /** A guard that fires ends the run; one that does not changes nothing. */
  lemma GuardDone(need: int, sub: Tree, pos: nat, max: nat, f: seq<nat>, trace: Walk)
    requires CanWalk(Guard(need, sub), pos, max, f)
    ensures Fires(need, pos, max) ==> pos == |f| && Walked(Guard(need, sub), pos, max, f, trace, f, trace, BacktrackingError, false)
    ensures !Fires(need, pos, max) ==> CanWalk(sub, pos, max, f)
    ensures !Fires(need, pos, max) ==> RunOf(Guard(need, sub), pos, max, f[pos..]) == RunOf(sub, pos, max, f[pos..])
  {
    assert f[pos..] == [] ==> f[..pos] + [] == f && pos == |f|;
    assert trace + [] == trace;
  }

  /** A choice that cannot be made ends the run; one that can leads to the tree below it. */
  lemma NodeStart(kids: seq<Option<Tree>>, pos: nat, max: nat, f: seq<nat>, trace: Walk)
    requires CanWalk(Node(kids), pos, max, f)
    ensures pos < |f| ==> f[pos] < |kids|
    ensures var c := Chosen(kids, pos, f, max);
      if c.error != Success then Walked(Node(kids), pos, max, f, trace, c.frontier, trace, c.error, false)
      else 0 <= c.result < |kids| && kids[c.result].Some? && CanWalk(kids[c.result].value, pos + 1, max, c.frontier)
  {
    RunChild(kids, pos, max, f);
    var c := Chosen(kids, pos, f, max);
    if c.error != Success {
      assert c.frontier == f[..pos] + [] && trace + [] == trace;
    }
  }

  /** What holds after the run below a choice holds for the run that began with it. */
  lemma NodeDone(kids: seq<Option<Tree>>, pos: nat, max: nat, f: seq<nat>, f1: seq<nat>, v: nat, trace: Walk,
      f': seq<nat>, trace': Walk, error: Error, accepted: bool)
    requires CanWalk(Node(kids), pos, max, f) && v < |kids| && kids[v].Some?
    requires (pos < |f| ==> f[pos] < |kids|) && Chosen(kids, pos, f, max) == Choice(v, f1, Success)
    requires Walked(kids[v].value, pos + 1, max, f1, trace + [v], f', trace', error, accepted)
    ensures Walked(Node(kids), pos, max, f, trace, f', trace', error, accepted)
  {
    RunChild(kids, pos, max, f);
    var r := RunOf(kids[v].value, pos + 1, max, f1[pos + 1..]);
    assert f[..pos] + [v] + r.frontier == f[..pos] + ([v] + r.frontier);
    assert trace + [v] + r.walk == trace + ([v] + r.walk);
  }

  function Values(xs: seq<SearchState>): (r: seq<nat>)
    ensures |r| == |xs| && forall i :: 0 <= i < |r| ==> r[i] == xs[i].value
  {
    seq(|xs|, i requires 0 <= i < |xs| => xs[i].value)
  }

  class Generator {
    const states: array<SearchState>
    var currentPos: int
    var decisionDepth: int
    var allDone: bool
    var error: Error
    var trace: Walk

    /** A search state is initialised exactly up to the decision depth. */
    ghost predicate Valid()
      reads this`decisionDepth, states
    {
      && -1 <= decisionDepth < states.Length
      && forall i :: 0 <= i < states.Length ==> (states[i].init <==> i <= decisionDepth)
    }

    /** The choices of the path to the node whose current choice has been used up. */
    ghost function Frontier(): (f: seq<nat>)
      requires Valid()
      reads this`decisionDepth, states
      ensures |f| == decisionDepth + 1 && forall i :: 0 <= i < |f| ==> f[i] == states[i].value
    {
      Values(states[..decisionDepth + 1])
    }

    constructor (max: nat)
      ensures Valid() && fresh(states) && states.Length == max
      ensures currentPos == -1 && Frontier() == [] && !allDone && error == Success && trace == []
    {
      states := new SearchState[max](_ => SearchState(false, 0, 0));
      currentPos, decisionDepth, allDone, error, trace := -1, -1, false, Success, [];
    }

    /** The next choice of the run: replayed, or moved on to the next number the filter accepts. */
    method RandomChoice(kids: seq<Option<Tree>>) returns (r: int)
      requires Valid() && error == Success && -1 <= currentPos <= decisionDepth
      requires currentPos < decisionDepth ==> Frontier()[currentPos + 1] < |kids|
      modifies this, states
      ensures Valid() && currentPos == old(currentPos) + 1
      ensures Choice(r, Frontier(), error) == Chosen(kids, currentPos, old(Frontier()), states.Length)
      ensures trace == if r >= 0 then old(trace) + [r] else old(trace)
      ensures allDone <==> old(allDone) || (error == BacktrackingError && currentPos == 0)
    {
      ghost var f := Frontier();
      currentPos := currentPos + 1;
      if currentPos >= states.Length || decisionDepth >= states.Length {
        error := ExceedMaxDepthError;
        return -1;
      }
      var p := currentPos;
      states[p] := states[p].(bound := |kids|);
      assert Frontier() == f;
      if p < decisionDepth && states[p].init {
        trace := trace + [states[p].value];
        return states[p].value;
      }
      r := Decide(kids, p);
      if r >= 0 { trace := trace + [r]; }
    }

    /** The choice at the end of the frontier, or at a node reached for the first time. */
    method Decide(kids: seq<Option<Tree>>, p: nat) returns (r: int)
      requires Valid() && error == Success && p == currentPos < states.Length && decisionDepth <= p <= decisionDepth + 1
      requires p == decisionDepth ==> states[p].value < |kids|
      modifies this`decisionDepth, this`error, this`allDone, states
      ensures Valid() && Choice(r, Frontier(), error) == Chosen(kids, p, old(Frontier()), states.Length)
      ensures allDone <==> old(allDone) || (error == BacktrackingError && p == 0)
    {
      ghost var f := Frontier();
      var v;
      if states[p].init {
        v := SkipFiltered(kids, states[p].value + 1);
      } else {
        v := FirstNumber(kids);
      }
      if v >= |kids| {
        GiveUp(p);
        assert Frontier() == f[..p];
        return -1;
      }
      states[p] := states[p].(value := v);
      assert Frontier() == f[..p] + [v];
      return v;
    }

    method SkipFiltered(kids: seq<Option<Tree>>, start: nat) returns (v: nat)
      requires start <= |kids|
      ensures v == NextOk(kids, start)
    {
      v := start;
      while v < |kids| && kids[v].None?
        invariant v <= |kids| && NextOk(kids, start) == NextOk(kids, v)
      {
        v := v + 1;
      }
    }

    /** Initialises the state of a node that is reached for the first time. */
    method FirstNumber(kids: seq<Option<Tree>>) returns (v: nat)
      requires Valid() && 0 <= currentPos == decisionDepth + 1 < states.Length
      modifies this`decisionDepth, states
      ensures Valid() && decisionDepth == currentPos && v == NextOk(kids, 0)
      ensures forall i :: 0 <= i < currentPos ==> states[i] == old(states[i])
    {
      decisionDepth := decisionDepth + 1;
      states[currentPos] := SearchState(true, 0, |kids|);
      v := 0;
      while v < |kids| && kids[v].None?
        invariant Valid() && decisionDepth == currentPos
        invariant forall i :: 0 <= i < currentPos ==> states[i] == old(states[i])
        invariant v <= |kids| && NextOk(kids, 0) == NextOk(kids, v)
      {
        ClearValues(decisionDepth);
        decisionDepth := currentPos;
        v := v + 1;
      }
      decisionDepth := currentPos;
    }

    method ClearValues(p: nat)
      requires Valid() && p <= decisionDepth
      modifies states
      ensures Valid() && forall i :: 0 <= i < p ==> states[i] == old(states[i])
    {
      for i := p to states.Length
        invariant Valid() && forall k :: 0 <= k < p ==> states[k] == old(states[k])
      {
        states[i] := states[i].(value := 0);
      }
    }

    /** No number is left at position `p`. */
    method GiveUp(p: nat)
      requires Valid() && p == decisionDepth
      modifies this`decisionDepth, this`error, this`allDone, states
      ensures Valid() && decisionDepth == p - 1 && error == BacktrackingError
      ensures forall i :: 0 <= i < p ==> states[i] == old(states[i])
      ensures allDone <==> old(allDone) || p == 0
    {
      for i := p to states.Length
        invariant forall k :: 0 <= k < p ==> states[k] == old(states[k])
        invariant forall k :: p <= k < i ==> !states[k].init
        invariant forall k :: i <= k < states.Length ==> states[k] == old(states[k])
        modifies states
      {
        states[i] := states[i].(init := false);
      }
      decisionDepth := decisionDepth - 1;
      if decisionDepth < 0 { allDone := true; }
      error := BacktrackingError;
    }

    /** Gives up the walks below the current prefix if too few choices are left. */
    method EagerBacktracking(need: int) returns (fires: bool)
      requires Valid() && error == Success && -1 <= currentPos < states.Length
      modifies this`decisionDepth, this`error, states
      ensures Valid() && fires == Fires(need, currentPos + 1, states.Length)
      ensures fires <==> currentPos >= 1 && states.Length - currentPos < need
      ensures error == if fires then BacktrackingError else Success
      ensures Frontier() == if fires && currentPos < old(decisionDepth) then old(Frontier())[..currentPos + 1] else old(Frontier())
    {
      if currentPos <= 0 || states.Length - currentPos >= need { return false; }
      if currentPos <= decisionDepth {
        for i := currentPos + 1 to states.Length
          invariant forall k :: 0 <= k <= currentPos ==> states[k] == old(states[k])
          invariant forall k :: currentPos < k < i ==> !states[k].init
          invariant forall k :: i <= k < states.Length ==> states[k] == old(states[k])
          modifies states
        {
          states[i] := states[i].(init := false);
        }
        decisionDepth := currentPos;
      }
      error := BacktrackingError;
      return true;
    }

    method ResetState()
      modifies this
      ensures currentPos == -1 && trace == []
      ensures decisionDepth == old(decisionDepth) && allDone == old(allDone) && error == old(error)
    {
      currentPos, trace := -1, [];
    }

    /** The rest of one run. It stops at the first error. */
    method Walk(t: Tree) returns (accepted: bool)
      requires Valid() && error == Success && -1 <= currentPos <= decisionDepth
      requires CanWalk(t, currentPos + 1, states.Length, Frontier())
      modifies this, states
      ensures Valid()
      ensures Walked(t, old(currentPos) + 1, states.Length, old(Frontier()), old(trace), Frontier(), trace, error, accepted)
      ensures allDone <==> old(allDone) || (error == BacktrackingError && Frontier() == [])
      decreases t, 1
    {
      ghost var pos, f := currentPos + 1, Frontier();
      match t
      case Leaf(ok) =>
        LeafDone(ok, pos, states.Length, f, trace);
        accepted := ok;
      case Guard(need, sub) =>
        GuardDone(need, sub, pos, states.Length, f, trace);
        var fires := EagerBacktracking(need);
        if fires { return false; }
        accepted := Walk(sub);
      case Node(_) =>
        accepted := WalkNode(t);
    }

    method WalkNode(t: Tree) returns (accepted: bool)
      requires t.Node? && Valid() && error == Success && -1 <= currentPos <= decisionDepth
      requires CanWalk(t, currentPos + 1, states.Length, Frontier())
      modifies this, states
      ensures Valid()
      ensures Walked(t, old(currentPos) + 1, states.Length, old(Frontier()), old(trace), Frontier(), trace, error, accepted)
      ensures allDone <==> old(allDone) || (error == BacktrackingError && Frontier() == [])
      decreases t, 0
    {
      ghost var pos, f, trace0 := currentPos + 1, Frontier(), trace;
      var v := MakeChoice(t);
      if error != Success { return false; }
      ghost var f1 := Frontier();
      accepted := Walk(t.kids[v].value);
      NodeDone(t.kids, pos, states.Length, f, f1, v, trace0, Frontier(), trace, error, accepted);
    }

    /** The choice at a node, and where the run stands after it. */
    method MakeChoice(t: Tree) returns (v: int)
      requires t.Node? && Valid() && error == Success && -1 <= currentPos <= decisionDepth
      requires CanWalk(t, currentPos + 1, states.Length, Frontier())
      modifies this, states
      ensures Valid() && currentPos == old(currentPos) + 1
      ensures error != Success ==> Walked(t, currentPos, states.Length, old(Frontier()), old(trace), Frontier(), trace, error, false)
      ensures error == Success ==> 0 <= v < |t.kids| && t.kids[v].Some? && currentPos <= decisionDepth && trace == old(trace) + [v]
      ensures error == Success ==> CanWalk(t.kids[v].value, currentPos + 1, states.Length, Frontier())
      ensures error == Success ==> Chosen(t.kids, currentPos, old(Frontier()), states.Length) == Choice(v, Frontier(), Success)
      ensures allDone <==> old(allDone) || (error == BacktrackingError && Frontier() == [])
    {
      NodeStart(t.kids, currentPos + 1, states.Length, Frontier(), trace);
      v := RandomChoice(t.kids);
    }
  }

  /** One iteration of the main loop moves one walk from the walks to come to the output, or drops a
      dead end, and leaves strictly less to do. */
  lemma OneRun(t: Tree, max: nat, f: seq<nat>, first: bool, output: seq<Walk>)
    requires AsksFirst(t) && max >= 1 && OnPath(t, 0, max, f)
    requires if first then f == [] && output == []
             else f != [] && output + After(t, 0, max, f) == All(t, 0, max, true)
    ensures var r := RunOf(t, 0, max, f);
      && OnPath(t, 0, max, r.frontier)
      && output + r.Output() + After(t, 0, max, r.frontier) == All(t, 0, max, true)
      && Remaining(t, 0, max, r.frontier) < (if first then Weight(t) else Remaining(t, 0, max, f))
      && (r.frontier == [] ==> r.end == Backtrack)
  {
    var r := RunOf(t, 0, max, f);
    if first {
      FreshIsFirst(t, 0, max);
      FreshProgress(t, 0, max);
      if r.frontier == [] { FirstRunEnds(t, max); }
      assert output + r.Output() == r.Output();
    } else {
      ResumeIsNext(t, 0, max, f);
      ResumeProgress(t, 0, max, f);
      if r.frontier == [] { LastRunEnds(t, 0, max, f); }
      Reassociate(output, r.Output(), After(t, 0, max, r.frontier));
    }
  }

  /** The main loop: one run after the other until the generator reports the end of the search.
      The output is every accepted walk, in lexicographic order, each exactly once. */
  method GoGenerator(t: Tree, impl: Generator) returns (output: seq<Walk>)
    requires impl.Valid() && impl.Frontier() == [] && impl.currentPos == -1 && !impl.allDone && impl.trace == []
    requires AsksFirst(t) && impl.states.Length >= 1
    modifies impl, impl.states
    ensures output == All(t, 0, impl.states.Length, true) && impl.allDone
  {
    output := [];
    ghost var first, max := true, impl.states.Length;
    EmptyOnPath(t, 0, max);
    while !impl.allDone
      invariant impl.Valid() && impl.currentPos == -1 && impl.trace == []
      invariant first ==> impl.Frontier() == [] && output == [] && !impl.allDone
      invariant OnPath(t, 0, max, impl.Frontier())
      invariant !first ==> output + After(t, 0, max, impl.Frontier()) == All(t, 0, max, true)
      invariant !first ==> (impl.allDone <==> impl.Frontier() == [])
      decreases if first then Weight(t) else Remaining(t, 0, max, impl.Frontier())
    {
      OneRun(t, max, impl.Frontier(), first, output);
      var produced := RunOnce(t, impl);
      output := output + produced;
      first := false;
    }
  }

  /** The body of the main loop: one run of the program generator. */
  method RunOnce(t: Tree, impl: Generator) returns (produced: seq<Walk>)
    requires impl.Valid() && impl.currentPos == -1 && impl.trace == [] && OnPath(t, 0, impl.states.Length, impl.Frontier())
    modifies impl, impl.states
    ensures impl.Valid() && impl.currentPos == -1 && impl.trace == []
    ensures var r := RunOf(t, 0, impl.states.Length, old(impl.Frontier()));
      && impl.Frontier() == r.frontier && produced == r.Output()
      && (impl.allDone <==> old(impl.allDone) || (r.end == Backtrack && r.frontier == []))
  {
    impl.error := Success;
    ghost var f := impl.Frontier();
    assert f[0..] == f && f[..0] == [];
    var accepted := impl.Walk(t);
    ghost var r := RunOf(t, 0, impl.states.Length, f);
    assert impl.Frontier() == r.frontier && impl.trace == r.walk;
    produced := [];
    if impl.error == Success && accepted { produced := [impl.trace]; }
    impl.ResetState();
  }
}
