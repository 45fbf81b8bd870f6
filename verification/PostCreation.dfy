/** The repair of a new block: `post_creation_analysis` alternates the fixed-point analysis with the
    deletion of the statement that fails and everything behind it, until the analysis succeeds. */
module PostCreations {
  import opened Collections
  import opened Variables
  import opened Facts
  import opened CGContexts
  import opened Scopes
  import opened Statements
  import opened Analysis
  import opened FactMgrs
  import opened AnalysisRuns

  // ---------- cutting a block ----------

  /** The block with its first `n` statements. The language has no `goto`, so nothing else goes. */
  function Cut(b: Block, n: nat): Block
    requires n <= |b.stms|
  {
    Block(b.id, b.locals, b.stms[..n])
  }

  function Gone(b: Block, n: nat): set<nat>
    requires n <= |b.stms|
  {
    SeqIds(b.stms[n..])
  }

  /** An edge stays if neither end is gone. */
  function Apart(gone: set<nat>): Edge -> bool { (e: Edge) => e.src !in gone && e.dest !in gone }

  lemma ToSetConcat<T(!new)>(xs: seq<T>, ys: seq<T>)
    ensures ToSet(xs + ys) == ToSet(xs) + ToSet(ys)
  {}

  lemma EmptyToSet<T(!new)>(xs: seq<T>)
    ensures xs == [] <==> ToSet(xs) == {}
  {
    if xs != [] { assert xs[0] in ToSet(xs); }
  }

  lemma {:induction false} SourcesCut(edges: seq<Edge>, gone: set<nat>, dest: nat, postDest: bool, backLink: bool)
    requires dest !in gone
    ensures ToSet(Sources(Filter(edges, Apart(gone)), dest, postDest, backLink)) == ToSet(Sources(edges, dest, postDest, backLink)) - gone
  {
    if edges != [] {
      var rest := Filter(edges[1..], Apart(gone));
      SourcesCut(edges[1..], gone, dest, postDest, backLink);
      var e := edges[0];
      assert ([e] + rest)[1..] == rest;
      var here := if e.dest == dest && e.postDest == postDest && e.backLink == backLink then [e.src] else [];
      assert Filter(edges, Apart(gone)) == if Apart(gone)(e) then [e] + rest else rest;
      ToSetConcat(here, Sources(edges[1..], dest, postDest, backLink));
      ToSetConcat(here, Sources(rest, dest, postDest, backLink));
      assert ToSet(here) <= {e.src};
      assert Apart(gone)(e) ==> Sources([e] + rest, dest, postDest, backLink) == here + Sources(rest, dest, postDest, backLink);
    }
  }

  lemma NoSources(edges: seq<Edge>, gone: set<nat>, dest: nat, postDest: bool, backLink: bool)
    requires dest !in gone && Sources(edges, dest, postDest, backLink) == []
    ensures Sources(Filter(edges, Apart(gone)), dest, postDest, backLink) == []
  {
    SourcesCut(edges, gone, dest, postDest, backLink);
    EmptyToSet(Sources(Filter(edges, Apart(gone)), dest, postDest, backLink));
  }

  /** Statements apart from what is gone keep all their edges. */
  lemma {:induction false} EdgesStayOk(x: Stmt, edges: seq<Edge>, gone: set<nat>)
    requires EdgesOk(x, edges) && Ids(x) !! gone
    ensures EdgesOk(x, Filter(edges, Apart(gone)))
    decreases x, 1
  {
    match x
    case If(_, _, thn, els) =>
      assert thn.id in BlockIds(thn) && els.id in BlockIds(els);
      BlockEdgesStayOk(thn, edges, gone);
      BlockEdgesStayOk(els, edges, gone);
      NoSources(edges, gone, thn.id, false, true);
      NoSources(edges, gone, els.id, false, true);
    case For(id, _, _, _, _, body) =>
      assert body.id in BlockIds(body);
      BlockEdgesStayOk(body, edges, gone);
      SourcesCut(edges, gone, body.id, false, true);
      SourcesCut(edges, gone, id, true, false);
    case _ =>
  }

  lemma {:induction false} BlockEdgesStayOk(b: Block, edges: seq<Edge>, gone: set<nat>)
    requires BlockEdgesOk(b, edges) && BlockIds(b) !! gone
    ensures BlockEdgesOk(b, Filter(edges, Apart(gone)))
    decreases b, 0
  {
    assert b.id in BlockIds(b);
    SourcesCut(edges, gone, b.id, false, true);
    forall i | 0 <= i < |b.stms| ensures EdgesOk(b.stms[i], Filter(edges, Apart(gone))) {
      IdsInSeq(b.stms, i);
      EdgesStayOk(b.stms[i], edges, gone);
    }
  }

  lemma CutIds(b: Block, n: nat)
    requires BlockDistinct(b) && n <= |b.stms|
    ensures BlockDistinct(Cut(b, n)) && BlockIds(Cut(b, n)) <= BlockIds(b) && BlockIds(Cut(b, n)) !! Gone(b, n)
    ensures forall sig :: SeqJumps(b.stms, sig) - Gone(b, n) == SeqJumps(b.stms[..n], sig)
  {
    var front, back := b.stms[..n], b.stms[n..];
    forall id | id in SeqIds(front) ensures id in SeqIds(b.stms) && id !in SeqIds(back) {
      var i :| 0 <= i < n && id in Ids(front[i]);
      assert id in Ids(b.stms[i]);
      forall j | 0 <= j < |back| ensures id !in Ids(back[j]) { assert back[j] == b.stms[n + j]; }
    }
    forall id | id in SeqIds(back) ensures id in SeqIds(b.stms) {
      var j :| 0 <= j < |back| && id in Ids(back[j]);
      assert id in Ids(b.stms[n + j]);
    }
    forall sig ensures SeqJumps(b.stms, sig) - Gone(b, n) == SeqJumps(front, sig) { CutJumps(b, n, sig); }
  }

  lemma CutJumps(b: Block, n: nat, sig: Signal)
    requires n <= |b.stms| && SeqIds(b.stms[..n]) !! Gone(b, n)
    ensures SeqJumps(b.stms, sig) - Gone(b, n) == SeqJumps(b.stms[..n], sig)
  {
    var front, back := b.stms[..n], b.stms[n..];
    forall i | n <= i < |b.stms| ensures Jumps(b.stms[i], sig) <= Gone(b, n) { IdsInSeq(back, i - n); }
    forall id | id in SeqJumps(b.stms, sig) - Gone(b, n) ensures id in SeqJumps(front, sig) {
      var i :| 0 <= i < |b.stms| && id in Jumps(b.stms[i], sig);
      assert i < n && id in Jumps(front[i], sig);
    }
    forall id | id in SeqJumps(front, sig) ensures id in SeqJumps(b.stms, sig) {
      var i :| 0 <= i < n && id in Jumps(front[i], sig);
      assert id in Jumps(b.stms[i], sig);
    }
  }

  // ---------- the back edge of a loop body ----------

  /** `from_tail_to_head`: the end of the body can be reached. */
  predicate TailToHead(b: Block) { b.stms != [] && !BlockMustJump(b) }

  function TailEdge(b: Block): Edge { Edge(b.id, b.id, false, true) }

  function SourceOf(e: Edge, dest: nat, postDest: bool, backLink: bool): seq<nat> {
    if e.dest == dest && e.postDest == postDest && e.backLink == backLink then [e.src] else []
  }

  lemma {:induction false} SourcesSnoc(edges: seq<Edge>, e: Edge, dest: nat, postDest: bool, backLink: bool)
    ensures Sources(edges + [e], dest, postDest, backLink) == Sources(edges, dest, postDest, backLink) + SourceOf(e, dest, postDest, backLink)
  {
    if edges == [] {
      assert edges + [e] == [e] && [e][1..] == [];
    } else {
      var front, rest := SourceOf(edges[0], dest, postDest, backLink), Sources(edges[1..], dest, postDest, backLink);
      assert (edges + [e])[1..] == edges[1..] + [e] && (edges + [e])[0] == edges[0];
      SourcesSnoc(edges[1..], e, dest, postDest, backLink);
      assert Sources(edges, dest, postDest, backLink) == front + rest;
      Reassociate(front, rest, SourceOf(e, dest, postDest, backLink));
    }
  }

  /** An edge into a block changes nothing for the statements inside. */
  lemma {:induction false} EdgesIgnoreOuter(x: Stmt, edges: seq<Edge>, e: Edge)
    requires EdgesOk(x, edges) && e.dest !in Ids(x)
    ensures EdgesOk(x, edges + [e])
    decreases x, 1
  {
    match x
    case If(_, _, thn, els) =>
      assert thn.id in BlockIds(thn) && els.id in BlockIds(els);
      BlockEdgesIgnoreOuter(thn, edges, e);
      BlockEdgesIgnoreOuter(els, edges, e);
      SourcesSnoc(edges, e, thn.id, false, true);
      SourcesSnoc(edges, e, els.id, false, true);
    case For(id, _, _, _, _, body) =>
      assert body.id in BlockIds(body);
      BlockEdgesIgnoreOuter(body, edges, e);
      SourcesSnoc(edges, e, body.id, false, true);
      SourcesSnoc(edges, e, id, true, false);
    case _ =>
  }

  lemma {:induction false} BlockEdgesIgnoreOuter(b: Block, edges: seq<Edge>, e: Edge)
    requires BlockEdgesOk(b, edges) && e.dest !in BlockIds(b)
    ensures BlockEdgesOk(b, edges + [e])
    decreases b, 0
  {
    assert b.id in BlockIds(b);
    SourcesSnoc(edges, e, b.id, false, true);
    forall i | 0 <= i < |b.stms| ensures EdgesOk(b.stms[i], edges + [e]) {
      IdsInSeq(b.stms, i);
      EdgesIgnoreOuter(b.stms[i], edges, e);
    }
  }

  lemma TailEdgeOk(b: Block, edges: seq<Edge>)
    requires BlockEdgesOk(b, edges) && BlockDistinct(b)
    ensures BlockEdgesOk(b, edges + [TailEdge(b)]) && b.id in Sources(edges + [TailEdge(b)], b.id, false, true)
  {
    SourcesSnoc(edges, TailEdge(b), b.id, false, true);
    forall i | 0 <= i < |b.stms| ensures EdgesOk(b.stms[i], edges + [TailEdge(b)]) {
      IdsInSeq(b.stms, i);
      EdgesIgnoreOuter(b.stms[i], edges, TailEdge(b));
    }
  }

  // ---------- one round of the repair ----------

  /** The edges of the loop `id` whose body `b` is under construction: everything but the back edge
      from its end. */
  predicate BodyEdges(id: nat, b: Block, edges: seq<Edge>) {
    var back := ToSet(Sources(edges, b.id, false, true));
    && back <= {b.id} + SeqJumps(b.stms, Continued) && SeqJumps(b.stms, Continued) <= back
    && ToSet(Sources(edges, id, true, false)) == SeqJumps(b.stms, Broke)
  }

  /** `r` is a front part of `b`, and if `b` was the body of a loop then so is `r`, with its edges. */
  ghost predicate FrontOf(b: Block, edges: seq<Edge>, r: Block, edges': seq<Edge>) {
    && r.id == b.id && r.locals == b.locals && r.stms <= b.stms && BlockIds(r) <= BlockIds(b)
    && forall id {:trigger BodyEdges(id, b, edges)} :: id !in BlockIds(b) && BodyEdges(id, b, edges) ==> BodyEdges(id, r, edges')
  }

  lemma FrontOfFront(b: Block, edges: seq<Edge>, r: Block, edges': seq<Edge>, q: Block, edges'': seq<Edge>)
    requires FrontOf(b, edges, r, edges') && FrontOf(r, edges', q, edges'')
    ensures FrontOf(b, edges, q, edges'')
  {
    assert q.stms == r.stms[..|q.stms|] == b.stms[..|q.stms|];
    forall id | id !in BlockIds(b) && BodyEdges(id, b, edges) ensures BodyEdges(id, q, edges'') {
      assert BodyEdges(id, r, edges');
    }
  }

  lemma CutIsFront(b: Block, edges: seq<Edge>, n: nat)
    requires BlockDistinct(b) && n <= |b.stms|
    ensures FrontOf(b, edges, Cut(b, n), Filter(edges, Apart(Gone(b, n))))
  {
    var gone := Gone(b, n);
    CutIds(b, n);
    assert b.id in BlockIds(Cut(b, n));
    assert gone <= BlockIds(b) by { GoneInside(b, n); }
    SourcesCut(edges, gone, b.id, false, true);
    forall id | id !in BlockIds(b) && BodyEdges(id, b, edges) ensures BodyEdges(id, Cut(b, n), Filter(edges, Apart(gone))) {
      SourcesCut(edges, gone, id, true, false);
    }
  }

  lemma GoneInside(b: Block, n: nat)
    requires n <= |b.stms|
    ensures Gone(b, n) <= BlockIds(b)
  {
    forall id | id in Gone(b, n) ensures id in SeqIds(b.stms) {
      var j :| 0 <= j < |b.stms| - n && id in Ids(b.stms[n..][j]);
      assert id in Ids(b.stms[n + j]);
    }
  }

  lemma TailIsFront(b: Block, edges: seq<Edge>)
    ensures FrontOf(b, edges, b, edges + [TailEdge(b)])
  {
    assert b.id in BlockIds(b);
    SourcesSnoc(edges, TailEdge(b), b.id, false, true);
    forall id | id !in BlockIds(b) && BodyEdges(id, b, edges) ensures BodyEdges(id, b, edges + [TailEdge(b)]) {
      SourcesSnoc(edges, TailEdge(b), id, true, false);
    }
  }

  /** With the back edge from the end, if that can be reached, these are the edges of the loop. */
  lemma LoopHasEdges(x: Stmt, r: Block, edges: seq<Edge>)
    requires x.For? && BodyEdges(x.id, r, edges) && (TailToHead(r) ==> r.id in Sources(edges, r.id, false, true))
    ensures LoopEdges(x.(body := r), edges)
  {}

  /** `reset_stm_fact_maps`. */
  function Forgetting(r: Records, ids: set<nat>): Records {
    r.(factsIn := map id | id in r.factsIn && id !in ids :: r.factsIn[id],
       factsOut := map id | id in r.factsOut && id !in ids :: r.factsOut[id])
  }

  /** What an analysis of `b` needs, including the records of an earlier one. */
  ghost predicate Startable(b: Block, fs: FactVec, scope: set<Variable>, lp: seq<Variable>, inLoop: bool, r: Records) {
    BlockVisitable(b, fs, scope, lp, inLoop, r) && BlockStarted(b, scope, lp, r)
  }

  /** After the failing statement and those behind it are gone, the block can be analysed afresh. */
  lemma CutReady(b: Block, n: nat, fs: FactVec, scope: set<Variable>, lp: seq<Variable>, inLoop: bool, r: Records, r': Records)
    requires BlockVisitable(b, fs, scope, lp, inLoop, r) && n <= |b.stms| && r'.cfgEdges == r.cfgEdges && PtrVars(scope) != {}
    ensures var q := Forgetting(r', BlockIds(Cut(b, n))).(cfgEdges := Filter(r.cfgEdges, Apart(Gone(b, n))));
      Startable(Cut(b, n), fs, scope, lp, inLoop, q)
  {
    var cut, edges := Cut(b, n), Filter(r.cfgEdges, Apart(Gone(b, n)));
    var q := Forgetting(r', BlockIds(cut)).(cfgEdges := edges);
    CutIds(b, n);
    CutEdgesOk(b, n, r.cfgEdges);
    FreshBlockMemo(cut, scope, lp, q.factsIn, q.factsOut, edges);
    CutOk(b, n, scope, inLoop);
    if lp != [] { NoSources(r.cfgEdges, Gone(b, n), b.id, false, true) by { assert b.id in BlockIds(cut); } }
    MemoVisitable(cut, fs, scope, lp, inLoop, q);
  }

  lemma CutOk(b: Block, n: nat, scope: set<Variable>, inLoop: bool)
    requires BlockOk(b, scope, inLoop) && n <= |b.stms|
    ensures BlockOk(Cut(b, n), scope, inLoop)
  {
    assert DeclVars(Cut(b, n).locals) == DeclVars(b.locals);
  }

  lemma CutEdgesOk(b: Block, n: nat, edges: seq<Edge>)
    requires BlockEdgesOk(b, edges) && BlockDistinct(b) && n <= |b.stms|
    ensures BlockEdgesOk(Cut(b, n), Filter(edges, Apart(Gone(b, n))))
  {
    var cut, gone := Cut(b, n), Gone(b, n);
    CutIds(b, n);
    assert b.id in BlockIds(cut);
    SourcesCut(edges, gone, b.id, false, true);
    forall i | 0 <= i < n ensures EdgesOk(cut.stms[i], Filter(edges, Apart(gone))) {
      IdsInSeq(cut.stms, i);
      EdgesStayOk(b.stms[i], edges, gone);
    }
  }

  /** An edge into a block does not matter for the records inside. */
  lemma {:induction false} MemoIgnoresOuter(x: Stmt, scope: set<Variable>, lp: seq<Variable>, fi: FactMap, fo: FactMap, edges: seq<Edge>, e: Edge)
    requires Memo(x, scope, lp, fi, fo, edges) && e.dest !in Ids(x)
    ensures Memo(x, scope, lp, fi, fo, edges + [e])
    decreases x, 1
  {
    match x
    case If(_, _, thn, els) =>
      BlockMemoIgnoresOuter(thn, scope, lp, fi, fo, edges, e);
      BlockMemoIgnoresOuter(els, scope, lp, fi, fo, edges, e);
    case For(_, _, _, _, _, body) => BlockMemoIgnoresOuter(body, scope, [], fi, fo, edges, e);
    case _ =>
  }

  lemma {:induction false} BlockMemoIgnoresOuter(b: Block, scope: set<Variable>, lp: seq<Variable>, fi: FactMap, fo: FactMap, edges: seq<Edge>, e: Edge)
    requires BlockMemo(b, scope, lp, fi, fo, edges) && e.dest !in BlockIds(b)
    ensures BlockMemo(b, scope, lp, fi, fo, edges + [e])
    decreases b, 0
  {
    assert b.id in BlockIds(b);
    SourcesSnoc(edges, e, b.id, false, true);
    forall i | 0 <= i < |b.stms|
      ensures Memo(b.stms[i], scope + LocalCells(b), DeclVars(b.locals) + lp, fi, fo, edges + [e])
    {
      IdsInSeq(b.stms, i);
      MemoIgnoresOuter(b.stms[i], scope + LocalCells(b), DeclVars(b.locals) + lp, fi, fo, edges, e);
    }
  }

  /** A loop body that has been visited may get its back edge. */
  lemma TailStartable(b: Block, fs: FactVec, scope: set<Variable>, inLoop: bool, r: Records)
    requires Startable(b, fs, scope, [], inLoop, r) && (b.id in r.visited || b.id !in r.factsIn)
    ensures Startable(b, fs, scope, [], inLoop, r.(cfgEdges := r.cfgEdges + [TailEdge(b)]))
  {
    TailEdgeOk(b, r.cfgEdges);
    forall i | 0 <= i < |b.stms|
      ensures Memo(b.stms[i], scope + LocalCells(b), DeclVars(b.locals) + [], r.factsIn, r.factsOut, r.cfgEdges + [TailEdge(b)])
    {
      IdsInSeq(b.stms, i);
      MemoIgnoresOuter(b.stms[i], scope + LocalCells(b), DeclVars(b.locals) + [], r.factsIn, r.factsOut, r.cfgEdges, TailEdge(b));
    }
  }

  // ---------- the repair ----------

  /** What every round keeps. */
  ghost predicate Repairing(b: Block, edges: seq<Edge>, cur: Block, fs: FactVec, scope: set<Variable>, lp: seq<Variable>, inLoop: bool, loopBody: bool, r: Records) {
    && Startable(cur, fs, scope, lp, inLoop, r) && (b.id in r.visited || b.id !in r.factsIn)
    && FrontOf(b, edges, cur, r.cfgEdges)
    && (loopBody && TailToHead(cur) ==> cur.id in Sources(r.cfgEdges, cur.id, false, true))
  }

  lemma TailRepairing(b: Block, edges: seq<Edge>, cur: Block, fs: FactVec, scope: set<Variable>, inLoop: bool, r: Records)
    requires Repairing(b, edges, cur, fs, scope, [], inLoop, false, r)
    ensures Repairing(b, edges, cur, fs, scope, [], inLoop, true, r.(cfgEdges := r.cfgEdges + [TailEdge(cur)]))
  {
    TailStartable(cur, fs, scope, inLoop, r);
    TailIsFront(cur, r.cfgEdges);
    FrontOfFront(b, edges, cur, r.cfgEdges, cur, r.cfgEdges + [TailEdge(cur)]);
    TailEdgeOk(cur, r.cfgEdges);
  }

  lemma CutRepairing(b: Block, edges: seq<Edge>, cur: Block, n: nat, fs: FactVec, scope: set<Variable>, lp: seq<Variable>, inLoop: bool, loopBody: bool, r: Records, r': Records)
    requires Repairing(b, edges, cur, fs, scope, lp, inLoop, loopBody, r) && n <= |cur.stms| && r'.cfgEdges == r.cfgEdges && PtrVars(scope) != {}
    ensures var q := Forgetting(r', BlockIds(Cut(cur, n))).(cfgEdges := Filter(r.cfgEdges, Apart(Gone(cur, n))));
      && Repairing(b, edges, Cut(cur, n), fs, scope, lp, inLoop, false, q)
      && (cur.id in Sources(r.cfgEdges, cur.id, false, true) ==> cur.id in Sources(q.cfgEdges, cur.id, false, true))
  {
    CutReady(cur, n, fs, scope, lp, inLoop, r, r');
    CutIds(cur, n);
    CutIsFront(cur, r.cfgEdges, n);
    FrontOfFront(b, edges, cur, r.cfgEdges, Cut(cur, n), Filter(r.cfgEdges, Apart(Gone(cur, n))));
    assert cur.id in BlockIds(Cut(cur, n));
    SourcesCut(r.cfgEdges, Gone(cur, n), cur.id, false, true);
    var kept := Filter(r.cfgEdges, Apart(Gone(cur, n)));
    if cur.id in Sources(r.cfgEdges, cur.id, false, true) {
      assert cur.id in ToSet(Sources(r.cfgEdges, cur.id, false, true));
      assert cur.id in ToSet(Sources(kept, cur.id, false, true));
    }
  }

  // ---------- the repair as a relation ----------

  /** The records after the statements of `b` from `n` on have been deleted. */
  function Deleted(r: Records, b: Block, n: nat): Records
    requires n <= |b.stms|
  {
    Forgetting(r, BlockIds(Cut(b, n))).(cfgEdges := Filter(r.cfgEdges, Apart(Gone(b, n))))
  }

  /** A loop body gets its back edge once, as soon as its end can be reached. */
  function Closing(b: Block, loopBody: bool, selfEdge: bool, r: Records): (bool, Records) {
    if loopBody && !selfEdge && TailToHead(b) then (true, r.(cfgEdges := r.cfgEdges + [TailEdge(b)])) else (selfEdge, r)
  }

  /** Either the analysis of `b` succeeds, or it fails at some statement and the repair goes on with
      what is left. */
  ghost predicate RepairRan(b: Block, lp: seq<Variable>, loopBody: bool, selfEdge: bool, once: bool, fs: FactVec, r: Records, b': Block, q: Records, around: Effect, noWrite: set<Variable>)
    decreases |b.stms|
  {
    || (b' == b && SearchRan(b, lp, once, fs, r, q, around, noWrite))
    || exists n: nat, m :: n < |b.stms| && SearchFailed(b, lp, once, n, fs, r, m, around, noWrite)
         && var (selfEdge', r') := Closing(Cut(b, n), loopBody, selfEdge, Deleted(m, b, n));
            RepairRan(Cut(b, n), lp, loopBody, selfEdge', true, fs, r', b', q, around, noWrite)
  }

  /** The repair has one result. */
  lemma {:induction false} RepairRanOnce(b: Block, lp: seq<Variable>, loopBody: bool, selfEdge: bool, once: bool, fs: FactVec, r: Records, around: Effect, noWrite: set<Variable>, b1: Block, q1: Records, b2: Block, q2: Records)
    requires RepairRan(b, lp, loopBody, selfEdge, once, fs, r, b1, q1, around, noWrite) && RepairRan(b, lp, loopBody, selfEdge, once, fs, r, b2, q2, around, noWrite)
    ensures b1 == b2 && q1 == q2
    decreases |b.stms|
  {
    if q :| SearchRan(b, lp, once, fs, r, q, around, noWrite) {
      forall n: nat, m ensures !SearchFailed(b, lp, once, n, fs, r, m, around, noWrite) {
        SearchRanNotFailed(b, lp, once, n, fs, r, around, noWrite, q, m);
      }
      SearchRanOnce(b, lp, once, fs, r, around, noWrite, q1, q2);
    } else {
      var n1: nat, m1 :| n1 < |b.stms| && SearchFailed(b, lp, once, n1, fs, r, m1, around, noWrite)
        && var (s', r') := Closing(Cut(b, n1), loopBody, selfEdge, Deleted(m1, b, n1));
           RepairRan(Cut(b, n1), lp, loopBody, s', true, fs, r', b1, q1, around, noWrite);
      var n2: nat, m2 :| n2 < |b.stms| && SearchFailed(b, lp, once, n2, fs, r, m2, around, noWrite)
        && var (s', r') := Closing(Cut(b, n2), loopBody, selfEdge, Deleted(m2, b, n2));
           RepairRan(Cut(b, n2), lp, loopBody, s', true, fs, r', b2, q2, around, noWrite);
      SearchFailedOnce(b, lp, once, fs, r, around, noWrite, n1, m1, n2, m2);
      var (s', r') := Closing(Cut(b, n1), loopBody, selfEdge, Deleted(m1, b, n1));
      RepairRanOnce(Cut(b, n1), lp, loopBody, s', true, fs, r', around, noWrite, b1, q1, b2, q2);
    }
  }

  /** Deletes the edges of what is gone and resets the records of what is left. */
  method RemoveStatements(fm: FactMgr, rest: Block, gone: set<nat>)
    modifies fm
    ensures fm.View() == Forgetting(old(fm.View()), BlockIds(rest)).(cfgEdges := Filter(old(fm.cfgEdges), Apart(gone)))
  {
    var i := 0;
    while i < |fm.cfgEdges|
      invariant 0 <= i <= |fm.cfgEdges| && forall k :: 0 <= k < i ==> Apart(gone)(fm.cfgEdges[k])
      invariant fm.View() == old(fm.View()).(cfgEdges := fm.cfgEdges)
      invariant Filter(fm.cfgEdges, Apart(gone)) == Filter(old(fm.cfgEdges), Apart(gone))
      decreases |fm.cfgEdges| - i
      modifies fm`cfgEdges
    {
      if Apart(gone)(fm.cfgEdges[i]) {
        i := i + 1;
      } else {
        FilterErase(fm.cfgEdges, Apart(gone), i);
        fm.cfgEdges := Without(fm.cfgEdges, i);
      }
    }
    FilterAll(fm.cfgEdges, Apart(gone));
    var ids := BlockIds(rest);
    fm.factsIn := map id | id in fm.factsIn && id !in ids :: fm.factsIn[id];
    fm.factsOut := map id | id in fm.factsOut && id !in ids :: fm.factsOut[id];
  }

  /** The end of the repair that began with `b` is the end of the one that goes on with `cur`. */
  ghost predicate GoesOn(b: Block, cur: Block, lp: seq<Variable>, loopBody: bool, selfEdge0: bool, selfEdge: bool, once0: bool, once: bool, fs: FactVec, r0: Records, r: Records, around: Effect, noWrite: set<Variable>) {
    forall b', q :: RepairRan(cur, lp, loopBody, selfEdge, once, fs, r, b', q, around, noWrite) ==>
      RepairRan(b, lp, loopBody, selfEdge0, once0, fs, r0, b', q, around, noWrite)
  }

  lemma RoundGoesOn(b: Block, cur: Block, n: nat, lp: seq<Variable>, loopBody: bool, selfEdge0: bool, selfEdge: bool, once0: bool, once: bool, fs: FactVec, r0: Records, r: Records, m: Records, around: Effect, noWrite: set<Variable>)
    requires GoesOn(b, cur, lp, loopBody, selfEdge0, selfEdge, once0, once, fs, r0, r, around, noWrite)
    requires n < |cur.stms| && SearchFailed(cur, lp, once, n, fs, r, m, around, noWrite)
    ensures var (selfEdge', r') := Closing(Cut(cur, n), loopBody, selfEdge, Deleted(m, cur, n));
      GoesOn(b, Cut(cur, n), lp, loopBody, selfEdge0, selfEdge', once0, true, fs, r0, r', around, noWrite)
  {
    var (selfEdge', r') := Closing(Cut(cur, n), loopBody, selfEdge, Deleted(m, cur, n));
    forall b', q | RepairRan(Cut(cur, n), lp, loopBody, selfEdge', true, fs, r', b', q, around, noWrite)
      ensures RepairRan(b, lp, loopBody, selfEdge0, once0, fs, r0, b', q, around, noWrite)
    {
      assert RepairRan(cur, lp, loopBody, selfEdge, once, fs, r, b', q, around, noWrite);
    }
  }

  /** Deletes the statements of `cur` from `index` on, and closes the loop if its end can now be
      reached. */
  method CutAt(fm: FactMgr, ghost b: Block, ghost edges: seq<Edge>, cur: Block, index: nat, selfEdge0: bool, ghost inputs: FactVec, lp: seq<Variable>, loopBody: bool, ghost before: Records, ghost scope: set<Variable>, ghost inLoop: bool)
    returns (r: Block, selfEdge: bool)
    requires Repairing(b, edges, cur, inputs, scope, lp, inLoop, loopBody, before) && index < |cur.stms|
    requires fm.cfgEdges == before.cfgEdges && b.id in fm.visited && PtrVars(scope) != {} && (loopBody ==> lp == [])
    requires selfEdge0 ==> cur.id in Sources(fm.cfgEdges, cur.id, false, true)
    modifies fm
    ensures Repairing(b, edges, r, inputs, scope, lp, inLoop, loopBody, fm.View()) && b.id in fm.visited
    ensures r == Cut(cur, index) && (selfEdge ==> r.id in Sources(fm.cfgEdges, r.id, false, true))
    ensures (selfEdge, fm.View()) == Closing(r, loopBody, selfEdge0, Deleted(old(fm.View()), cur, index))
  {
    selfEdge := selfEdge0;
    CutRepairing(b, edges, cur, index, inputs, scope, lp, inLoop, loopBody, before, fm.View());
    r := Cut(cur, index);
    RemoveStatements(fm, r, Gone(cur, index));
    if loopBody && !selfEdge && TailToHead(r) {
      TailRepairing(b, edges, r, inputs, scope, inLoop, fm.View());
      selfEdge := true;
      fm.AddEdge(TailEdge(r));
    }
  }

  /** `post_creation_analysis`, for a block that needs the fixed-point search: analysis and deletion
      alternate until the analysis succeeds. What is left is a front part of the block; every run of
      it from a covered store is accounted for, and if it is the body of a loop, the loop has all its
      edges. */
  method PostCreationAnalysis(fm: FactMgr, b: Block, inputs: FactVec, cg: CGContext, lp: seq<Variable>, needRevisit: bool, loopBody: bool, ghost scope: set<Variable>, ghost inLoop: bool)
    returns (r: Block, postFacts: FactVec)
    requires Startable(b, inputs, scope, lp, inLoop, fm.View()) && b.id in fm.visited
    requires PtrVars(scope) != {} && (loopBody ==> lp == [])
    modifies fm, cg
    ensures cg.effectContext == old(cg.effectContext) && cg.noWrite == old(cg.noWrite)
    ensures FrontOf(b, old(fm.cfgEdges), r, fm.cfgEdges)
    ensures BlockDone(r, inputs, At(fm.factsOut, r.id), scope, lp, fm.View(), cg.effectContext, cg.noWrite)
    ensures loopBody && TailToHead(r) ==> r.id in Sources(fm.cfgEdges, r.id, false, true)
    ensures var (selfEdge, r0) := Closing(b, loopBody, false, old(fm.View()));
      RepairRan(b, lp, loopBody, selfEdge, needRevisit, inputs, r0, r, fm.View(), cg.effectContext, cg.noWrite)
  {
    ghost var edges := fm.cfgEdges;
    var pre, revisit, selfEdge := cg.effectAccum, needRevisit, false;
    r := b;
    if loopBody && TailToHead(r) {
      TailRepairing(b, edges, r, inputs, scope, inLoop, fm.View());
      selfEdge := true;
      fm.AddEdge(TailEdge(r));
    }
    ghost var r0, selfEdge0 := fm.View(), selfEdge;
    while true
      invariant cg.effectContext == old(cg.effectContext) && cg.noWrite == old(cg.noWrite)
      invariant Repairing(b, edges, r, inputs, scope, lp, inLoop, loopBody, fm.View()) && b.id in fm.visited
      invariant GoesOn(b, r, lp, loopBody, selfEdge0, selfEdge, needRevisit, revisit, inputs, r0, fm.View(), cg.effectContext, cg.noWrite)
      invariant selfEdge ==> r.id in Sources(fm.cfgEdges, r.id, false, true)
      decreases |r.stms|
    {
      var ok;
      ok, r, selfEdge, postFacts := RepairRound(fm, b, edges, r, inputs, cg, lp, revisit, loopBody, selfEdge, selfEdge0, needRevisit, r0, scope, inLoop);
      if ok { return; }
      cg.effectAccum, revisit := pre, true;
    }
    assert false;
  }

  /** One analysis of what is left, and the deletion if it fails. */
  method RepairRound(fm: FactMgr, ghost b: Block, ghost edges: seq<Edge>, cur: Block, inputs: FactVec, cg: CGContext, lp: seq<Variable>, revisit: bool, loopBody: bool, selfEdge: bool,
                     ghost selfEdge0: bool, ghost needRevisit: bool, ghost r0: Records, ghost scope: set<Variable>, ghost inLoop: bool)
    returns (ok: bool, r: Block, selfEdge': bool, postFacts: FactVec)
    requires Repairing(b, edges, cur, inputs, scope, lp, inLoop, loopBody, fm.View()) && b.id in fm.visited
    requires GoesOn(b, cur, lp, loopBody, selfEdge0, selfEdge, needRevisit, revisit, inputs, r0, fm.View(), cg.effectContext, cg.noWrite)
    requires PtrVars(scope) != {} && (loopBody ==> lp == []) && (selfEdge ==> cur.id in Sources(fm.cfgEdges, cur.id, false, true))
    modifies fm, cg
    ensures cg.effectContext == old(cg.effectContext) && cg.noWrite == old(cg.noWrite)
    ensures ok ==> r == cur && fm.cfgEdges == old(fm.cfgEdges)
    ensures ok ==> BlockDone(r, inputs, At(fm.factsOut, r.id), scope, lp, fm.View(), cg.effectContext, cg.noWrite)
    ensures ok ==> RepairRan(b, lp, loopBody, selfEdge0, needRevisit, inputs, r0, r, fm.View(), cg.effectContext, cg.noWrite)
    ensures !ok ==> |r.stms| < |cur.stms| && Repairing(b, edges, r, inputs, scope, lp, inLoop, loopBody, fm.View()) && b.id in fm.visited
    ensures !ok ==> GoesOn(b, r, lp, loopBody, selfEdge0, selfEdge', needRevisit, true, inputs, r0, fm.View(), cg.effectContext, cg.noWrite)
    ensures !ok ==> (selfEdge' ==> r.id in Sources(fm.cfgEdges, r.id, false, true))
  {
    ghost var before := fm.View();
    r, selfEdge' := cur, selfEdge;
    var failIndex;
    ok, postFacts, failIndex := fm.FindFixedPoint(cur, inputs, cg, lp, revisit, scope, inLoop);
    if !ok {
      RoundGoesOn(b, cur, failIndex, lp, loopBody, selfEdge0, selfEdge, needRevisit, revisit, inputs, r0, before, fm.View(), cg.effectContext, cg.noWrite);
      r, selfEdge' := CutAt(fm, b, edges, cur, failIndex, selfEdge, inputs, lp, loopBody, before, scope, inLoop);
    }
  }
}
