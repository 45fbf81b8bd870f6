/** What the repair of a new block leaves behind. */
module Repairs {
  // The repair deletes no more than the statements that made the analysis fail, forgets exactly the
  // facts of what is left, and ends with a pass over it, so that the effects recorded are those of
  // the statements that stayed.

  import opened Collections
  import opened Variables
  import opened Facts
  import opened CGContexts
  import opened Statements
  import opened Analysis
  import opened AnalysisRuns
  import opened RecordedEffects
  import opened PostCreations

  /** Some analysis of `b` failed at statement `n`. */
  ghost predicate StoppedAt(b: Block, n: nat, lp: seq<Variable>, fs: FactVec, around: Effect, noWrite: set<Variable>) {
    exists once, r, m :: SearchFailed(b, lp, once, n, fs, r, m, around, noWrite)
  }

  /** What is left ends where the last analysis that failed did so. */
  ghost predicate LeftAt(b: Block, b': Block, lp: seq<Variable>, fs: FactVec, around: Effect, noWrite: set<Variable>) {
    b' == b || exists cur :: CutFrom(cur, b, b') && StoppedAt(cur, |b'.stms|, lp, fs, around, noWrite)
  }

  /** `cur` is a front part of `b`, and `b'` is a smaller one. */
  ghost predicate CutFrom(cur: Block, b: Block, b': Block) {
    cur.stms <= b.stms && |b'.stms| < |cur.stms| && b' == Cut(cur, |b'.stms|)
  }

  /** Nothing is deleted without a failure right behind what is left. */
  lemma {:induction false} NothingGoesInVain(b: Block, lp: seq<Variable>, loopBody: bool, selfEdge: bool, once: bool, fs: FactVec, r: Records, b': Block, q: Records, around: Effect, noWrite: set<Variable>)
    requires RepairRan(b, lp, loopBody, selfEdge, once, fs, r, b', q, around, noWrite)
    ensures LeftAt(b, b', lp, fs, around, noWrite)
    decreases |b.stms|
  {
    if b' != b {
      var n: nat, m :| n < |b.stms| && SearchFailed(b, lp, once, n, fs, r, m, around, noWrite)
        && var (s', r') := Closing(Cut(b, n), loopBody, selfEdge, Deleted(m, b, n));
           RepairRan(Cut(b, n), lp, loopBody, s', true, fs, r', b', q, around, noWrite);
      var (s', r') := Closing(Cut(b, n), loopBody, selfEdge, Deleted(m, b, n));
      NothingGoesInVain(Cut(b, n), lp, loopBody, s', true, fs, r', b', q, around, noWrite);
      if b' == Cut(b, n) {
        assert CutFrom(b, b, b') && StoppedAt(b, n, lp, fs, around, noWrite);
      } else {
        var cur :| CutFrom(cur, Cut(b, n), b') && StoppedAt(cur, |b'.stms|, lp, fs, around, noWrite);
        assert cur.stms == Cut(b, n).stms[..|cur.stms|] == b.stms[..|cur.stms|];
        assert CutFrom(cur, b, b');
      }
    }
  }

  /** If anything was deleted, the effect recorded for what is left is what its statements do. */
  lemma {:induction false} RepairedRecords(b: Block, lp: seq<Variable>, loopBody: bool, selfEdge: bool, once: bool, fs: FactVec, r: Records, b': Block, q: Records, around: Effect, noWrite: set<Variable>)
    requires BlockDistinct(b) && RepairRan(b, lp, loopBody, selfEdge, once, fs, r, b', q, around, noWrite)
    ensures once || b' != b ==> BlockAddsUp(b', q)
    decreases |b.stms|
  {
    if b' == b && SearchRan(b, lp, once, fs, r, q, around, noWrite) {
      SearchRecords(b, lp, once, fs, r, q, around, noWrite);
    } else {
      var n: nat, m :| n < |b.stms| && SearchFailed(b, lp, once, n, fs, r, m, around, noWrite)
        && var (s', r') := Closing(Cut(b, n), loopBody, selfEdge, Deleted(m, b, n));
           RepairRan(Cut(b, n), lp, loopBody, s', true, fs, r', b', q, around, noWrite);
      var (s', r') := Closing(Cut(b, n), loopBody, selfEdge, Deleted(m, b, n));
      CutIds(b, n);
      RepairedRecords(Cut(b, n), lp, loopBody, s', true, fs, r', b', q, around, noWrite);
    }
  }

  /** A deletion takes exactly the edges with an end in what is gone, and exactly the facts recorded for
      what is left; effects and marks stay. */
  lemma DeletedExactly(r: Records, b: Block, n: nat, e: Edge, id: nat)
    requires n <= |b.stms|
    ensures e in Deleted(r, b, n).cfgEdges <==>
      e in r.cfgEdges && forall k :: n <= k < |b.stms| ==> e.src !in Ids(b.stms[k]) && e.dest !in Ids(b.stms[k])
    ensures At(Deleted(r, b, n).factsIn, id) ==
      if id == b.id || exists k :: 0 <= k < n && id in Ids(b.stms[k]) then [] else At(r.factsIn, id)
    ensures At(Deleted(r, b, n).factsOut, id) ==
      if id == b.id || exists k :: 0 <= k < n && id in Ids(b.stms[k]) then [] else At(r.factsOut, id)
    ensures Deleted(r, b, n).Effect(id) == r.Effect(id) && (id in Deleted(r, b, n).visited <==> id in r.visited)
  {
    FilterMembers(r.cfgEdges, Apart(Gone(b, n)));
    GoneMeans(b, n, e.src);
    GoneMeans(b, n, e.dest);
    var cut := Cut(b, n);
    if k :| 0 <= k < n && id in Ids(b.stms[k]) { assert cut.stms[k] == b.stms[k] && id in SeqIds(cut.stms); }
    if id in SeqIds(cut.stms) {
      var k :| 0 <= k < n && id in Ids(cut.stms[k]);
      assert cut.stms[k] == b.stms[k];
    }
  }

  lemma GoneMeans(b: Block, n: nat, id: nat)
    requires n <= |b.stms|
    ensures id in Gone(b, n) <==> exists k :: n <= k < |b.stms| && id in Ids(b.stms[k])
  {
    var back := b.stms[n..];
    if id in Gone(b, n) {
      var j :| 0 <= j < |back| && id in Ids(back[j]);
      assert id in Ids(b.stms[n + j]);
    }
    if k :| n <= k < |b.stms| && id in Ids(b.stms[k]) { assert back[k - n] == b.stms[k]; }
  }

  /** A loop body has one back edge from its end added, if it has none yet and its last statement can
      complete normally; nothing else changes. */
  lemma ClosedExactly(b: Block, loopBody: bool, selfEdge: bool, r: Records, e: Edge)
    ensures var (selfEdge', q) := Closing(b, loopBody, selfEdge, r);
      && (e in q.cfgEdges <==> e in r.cfgEdges || (e == Edge(b.id, b.id, false, true) && loopBody && !selfEdge && b.stms != [] && !BlockMustJump(b)))
      && (selfEdge' <==> selfEdge || (loopBody && b.stms != [] && !BlockMustJump(b)))
      && q.factsIn == r.factsIn && q.factsOut == r.factsOut && q.visited == r.visited && q.stmEffect == r.stmEffect
  {}
}
