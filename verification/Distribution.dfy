/** Weighted choice: a table of keys and weights from which a random number picks a key. */
module Distribution {
  /** The key that the number `rnd` falls on; entries follow one another, each as wide as its weight.
      -1 if the number lies beyond the last entry. */
  function KeyAt(keys: seq<int>, probs: seq<int>, rnd: int): int
    requires |keys| == |probs|
  {
    if probs == [] then -1
    else if rnd < probs[0] then keys[0]
    else KeyAt(keys[1..], probs[1..], rnd - probs[0])
  }

  function Total(probs: seq<int>): int {
    if probs == [] then 0 else probs[0] + Total(probs[1..])
  }

  /** The sum of all weights entered for `key`. */
  function Weight(keys: seq<int>, probs: seq<int>, key: int): int
    requires |keys| == |probs|
  {
    if probs == [] then 0
    else (if keys[0] == key then probs[0] else 0) + Weight(keys[1..], probs[1..], key)
  }

  /** How many of the numbers from `lo` to `hi` fall on `key`. */
  function Draws(keys: seq<int>, probs: seq<int>, key: int, lo: int, hi: int): nat
    requires |keys| == |probs|
    decreases hi - lo
  {
    if lo >= hi then 0
    else (if KeyAt(keys, probs, lo) == key then 1 else 0) + Draws(keys, probs, key, lo + 1, hi)
  }

  predicate NonNegative(probs: seq<int>) {
    forall i :: 0 <= i < |probs| ==> probs[i] >= 0
  }

  lemma {:induction false} TotalNonNegative(probs: seq<int>)
    requires NonNegative(probs)
    ensures Total(probs) >= 0
  {
    if probs != [] { TotalNonNegative(probs[1..]); }
  }

  lemma {:induction false} DrawsSplit(keys: seq<int>, probs: seq<int>, key: int, lo: int, mid: int, hi: int)
    requires |keys| == |probs| && lo <= mid <= hi
    ensures Draws(keys, probs, key, lo, hi) == Draws(keys, probs, key, lo, mid) + Draws(keys, probs, key, mid, hi)
    decreases mid - lo
  {
    if lo < mid { DrawsSplit(keys, probs, key, lo + 1, mid, hi); }
  }

  lemma {:induction false} DrawsFirst(keys: seq<int>, probs: seq<int>, key: int, lo: int)
    requires |keys| == |probs| > 0 && 0 <= lo <= probs[0]
    ensures Draws(keys, probs, key, lo, probs[0]) == if keys[0] == key then probs[0] - lo else 0
    decreases probs[0] - lo
  {
    if lo < probs[0] { DrawsFirst(keys, probs, key, lo + 1); }
  }

  lemma {:induction false} DrawsRest(keys: seq<int>, probs: seq<int>, key: int, lo: int, hi: int)
    requires |keys| == |probs| > 0 && probs[0] <= lo
    ensures Draws(keys, probs, key, lo, hi) == Draws(keys[1..], probs[1..], key, lo - probs[0], hi - probs[0])
    decreases hi - lo
  {
    if lo < hi { DrawsRest(keys, probs, key, lo + 1, hi); }
  }

  /** Of all numbers below the sum of the weights, exactly as many fall on a key as it has weight. */
  lemma {:induction false} DrawsMatchWeight(keys: seq<int>, probs: seq<int>, key: int)
    requires |keys| == |probs| && NonNegative(probs)
    ensures Draws(keys, probs, key, 0, Total(probs)) == Weight(keys, probs, key)
  {
    if probs != [] {
      TotalNonNegative(probs[1..]);
      DrawsSplit(keys, probs, key, 0, probs[0], Total(probs));
      DrawsFirst(keys, probs, key, 0);
      DrawsRest(keys, probs, key, probs[0], Total(probs));
      DrawsMatchWeight(keys[1..], probs[1..], key);
    }
  }

  /** Only the first entry of a key is looked up. */
  function FirstEntry(keys: seq<int>, probs: seq<int>, key: int): int
    requires |keys| == |probs|
  {
    if probs == [] then 0
    else if keys[0] == key then probs[0]
    else FirstEntry(keys[1..], probs[1..], key)
  }

  /** What the entries after the first one of `key` add to its weight. */
  function LaterEntries(keys: seq<int>, probs: seq<int>, key: int): int
    requires |keys| == |probs|
  {
    if probs == [] then 0
    else if keys[0] == key then Weight(keys[1..], probs[1..], key)
    else LaterEntries(keys[1..], probs[1..], key)
  }

  /** The looked-up weight is how often the key is drawn exactly if no later entry of the same key
      has weight. */
  lemma LookupMatchesDraws(keys: seq<int>, probs: seq<int>, key: int)
    requires |keys| == |probs| && NonNegative(probs)
    ensures FirstEntry(keys, probs, key) == Draws(keys, probs, key, 0, Total(probs)) <==> LaterEntries(keys, probs, key) == 0
  {
    DrawsMatchWeight(keys, probs, key);
    WeightSplit(keys, probs, key);
  }

  lemma {:induction false} WeightSplit(keys: seq<int>, probs: seq<int>, key: int)
    requires |keys| == |probs|
    ensures Weight(keys, probs, key) == FirstEntry(keys, probs, key) + LaterEntries(keys, probs, key)
  {
    if probs != [] && keys[0] != key { WeightSplit(keys[1..], probs[1..], key); }
  }

  lemma {:induction false} TotalSnoc(probs: seq<int>, p: int)
    ensures Total(probs + [p]) == Total(probs) + p
  {
    if probs == [] {
      assert [] + [p] == [p];
    } else {
      assert (probs + [p])[1..] == probs[1..] + [p];
      TotalSnoc(probs[1..], p);
    }
  }

  class DistributionTable {
    var keys: seq<int>
    var probs: seq<int>
    var maxProb: int

    ghost predicate Valid()
      reads this
    {
      |keys| == |probs| && maxProb == Total(probs)
    }

    constructor ()
      ensures Valid() && keys == [] && probs == []
    {
      keys, probs, maxProb := [], [], 0;
    }

    method AddEntry(key: int, prob: int)
      requires Valid()
      modifies this
      ensures Valid() && keys == old(keys) + [key] && probs == old(probs) + [prob]
    {
      TotalSnoc(probs, prob);
      keys, probs := keys + [key], probs + [prob];
      maxProb := maxProb + prob;
    }

    method KeyToProb(key: int) returns (prob: int)
      requires Valid()
      ensures prob == FirstEntry(keys, probs, key)
    {
      var i := 0;
      while i < |keys|
        invariant 0 <= i <= |keys|
        invariant FirstEntry(keys, probs, key) == FirstEntry(keys[i..], probs[i..], key)
      {
        if keys[i] == key { return probs[i]; }
        assert keys[i..][1..] == keys[i + 1..] && probs[i..][1..] == probs[i + 1..];
        i := i + 1;
      }
      return 0;
    }

    /** A number below the sum of the weights always finds a key: the one it falls on. */
    method RndNumToKey(rnd0: int) returns (key: int)
      requires Valid() && 0 <= rnd0 < maxProb
      ensures key == KeyAt(keys, probs, rnd0) && key in keys
    {
      var rnd, i := rnd0, 0;
      while rnd >= probs[i]
        invariant 0 <= i < |probs|
        invariant KeyAt(keys, probs, rnd0) == KeyAt(keys[i..], probs[i..], rnd)
        invariant rnd < Total(probs[i..])
        decreases |probs| - i
      {
        assert keys[i..][1..] == keys[i + 1..] && probs[i..][1..] == probs[i + 1..];
        rnd := rnd - probs[i];
        i := i + 1;
      }
      key := keys[i];
    }
  }
}
