/** Optional values, and facts about sequences and sets that several modules need. */
module Collections {
  datatype Option<+T> = None | Some(value: T)
  {
    function GetOr(default: T): T {
      match this
      case None => default
      case Some(x) => x
    }
  }

  function Map<A, B>(xs: seq<A>, f: A -> B): (r: seq<B>)
    ensures |r| == |xs| && forall i :: 0 <= i < |r| ==> r[i] == f(xs[i])
  {
    seq(|xs|, i requires 0 <= i < |xs| => f(xs[i]))
  }

  predicate NoDup<T(==)>(xs: seq<T>) {
    forall i, j :: 0 <= i < j < |xs| ==> xs[i] != xs[j]
  }

  function ToSet<T>(xs: seq<T>): set<T> {
    set x | x in xs
  }

  lemma {:induction false} NoDupCard<T>(xs: seq<T>)
    requires NoDup(xs)
    ensures |ToSet(xs)| == |xs|
  {
    if xs != [] {
      var last := |xs| - 1;
      NoDupCard(xs[..last]);
      assert ToSet(xs) == ToSet(xs[..last]) + {xs[last]};
      assert xs[last] !in xs[..last];
    }
  }

  lemma SubsetCard<T>(a: set<T>, b: set<T>)
    requires a <= b
    ensures |a| <= |b|
    ensures |a| == |b| ==> a == b
  {
    assert b == a + (b - a);
    assert |b| == |a| + |b - a|;
  }

  lemma AnyOf<T>(s: set<T>) returns (x: T)
    requires s != {}
    ensures x in s
  {
    x :| x in s;
  }

  /** The sequence with the element at `i` erased. */
  function Without<T>(xs: seq<T>, i: nat): seq<T>
    requires i < |xs|
  {
    xs[..i] + xs[i + 1..]
  }

  lemma Reassociate<T>(a: seq<T>, b: seq<T>, c: seq<T>)
    ensures (a + b) + c == a + (b + c)
  {}

  function Filter<T>(xs: seq<T>, p: T -> bool): seq<T> {
    if xs == [] then [] else (if p(xs[0]) then [xs[0]] else []) + Filter(xs[1..], p)
  }

  lemma {:induction false} FilterMembers<T(!new)>(xs: seq<T>, p: T -> bool)
    ensures forall x :: x in Filter(xs, p) <==> x in xs && p(x)
  {
    if xs != [] {
      assert xs == [xs[0]] + xs[1..];
      FilterMembers(xs[1..], p);
    }
  }

  /** `xs` is what is left of `ys` when some elements are dropped, in the same order. */
  predicate Subsequence<T(==)>(xs: seq<T>, ys: seq<T>)
    decreases |ys|
  {
    xs == [] || (ys != [] && if xs[0] == ys[0] then Subsequence(xs[1..], ys[1..]) else Subsequence(xs, ys[1..]))
  }

  lemma {:induction false} WholeSubsequence<T(!new)>(xs: seq<T>)
    ensures Subsequence(xs, xs)
  {
    if xs != [] { WholeSubsequence(xs[1..]); }
  }

  /** A filtered sequence keeps the order, and every element it keeps as often as it was there. */
  lemma {:induction false} FilterKeeps<T(!new)>(xs: seq<T>, p: T -> bool, x: T)
    ensures Subsequence(Filter(xs, p), xs)
    ensures multiset(Filter(xs, p))[x] == if p(x) then multiset(xs)[x] else 0
  {
    if xs != [] {
      var rest := Filter(xs[1..], p);
      assert xs == [xs[0]] + xs[1..];
      FilterKeeps(xs[1..], p, x);
      if p(xs[0]) {
        assert ([xs[0]] + rest)[1..] == rest;
      } else {
        FewerAhead(rest, xs[0], xs[1..]);
        assert Filter(xs, p) == rest;
      }
    }
  }

  lemma {:induction false} FewerAhead<T>(xs: seq<T>, y: T, ys: seq<T>)
    requires Subsequence(xs, ys)
    ensures Subsequence(xs, [y] + ys)
    decreases |ys|, 1
  {
    assert ([y] + ys)[1..] == ys;
    if xs != [] && xs[0] == y {
      TailToo(xs, ys);
    }
  }

  lemma {:induction false} TailToo<T>(xs: seq<T>, ys: seq<T>)
    requires xs != [] && Subsequence(xs, ys)
    ensures Subsequence(xs[1..], ys)
    decreases |ys|, 0
  {
    assert ys == [ys[0]] + ys[1..];
    if xs[0] == ys[0] {
      FewerAhead(xs[1..], ys[0], ys[1..]);
    } else {
      TailToo(xs, ys[1..]);
      FewerAhead(xs[1..], ys[0], ys[1..]);
    }
  }

  lemma {:induction false} FilterLength<T(!new)>(xs: seq<T>, p: T -> bool)
    ensures |Filter(xs, p)| <= |xs| && (|Filter(xs, p)| == |xs| ==> Filter(xs, p) == xs)
  {
    if xs != [] {
      assert xs == [xs[0]] + xs[1..];
      FilterLength(xs[1..], p);
    }
  }

  lemma {:induction false} FilterNoDup<T(!new)>(xs: seq<T>, p: T -> bool)
    requires NoDup(xs)
    ensures NoDup(Filter(xs, p))
  {
    if xs != [] {
      FilterNoDup(xs[1..], p);
      FilterMembers(xs[1..], p);
      assert xs[0] !in xs[1..];
    }
  }

  lemma {:induction false} FilterAgrees<T(!new)>(xs: seq<T>, p: T -> bool, q: T -> bool)
    requires forall x :: x in xs ==> p(x) == q(x)
    ensures Filter(xs, p) == Filter(xs, q)
  {
    if xs != [] { FilterAgrees(xs[1..], p, q); }
  }

  lemma {:induction false} FilterAll<T(!new)>(xs: seq<T>, p: T -> bool)
    requires forall x :: x in xs ==> p(x)
    ensures Filter(xs, p) == xs
  {
    if xs != [] { FilterAll(xs[1..], p); }
  }

  lemma {:induction false} FilterErase<T(!new)>(xs: seq<T>, p: T -> bool, i: nat)
    requires i < |xs| && !p(xs[i])
    ensures Filter(Without(xs, i), p) == Filter(xs, p)
  {
    if i == 0 {
      assert Without(xs, 0) == xs[1..];
    } else {
      assert Without(xs, i)[1..] == Without(xs[1..], i - 1) && Without(xs, i)[0] == xs[0];
      FilterErase(xs[1..], p, i - 1);
    }
  }

  lemma {:induction false} FilterTwice<T(!new)>(xs: seq<T>, p: T -> bool, q: T -> bool)
    requires forall x :: x in xs && q(x) ==> p(x)
    ensures Filter(Filter(xs, p), q) == Filter(xs, q)
  {
    if xs != [] {
      FilterTwice(xs[1..], p, q);
      var x, rest := xs[0], Filter(xs[1..], p);
      assert ([x] + rest)[1..] == rest;
      if p(x) {
        assert Filter(xs, p) == [x] + rest;
        assert Filter([x] + rest, q) == (if q(x) then [x] else []) + Filter(rest, q);
      } else {
        assert Filter(xs, p) == rest;
      }
    }
  }

  lemma WithoutMembers<T(!new)>(xs: seq<T>, i: nat)
    requires i < |xs|
    ensures forall x :: x in Without(xs, i) ==> x in xs
    ensures forall x :: x in xs ==> x == xs[i] || x in Without(xs, i)
  {
    assert xs == xs[..i] + [xs[i]] + xs[i + 1..];
  }

  lemma {:induction false} FilterSplit<T(!new)>(xs: seq<T>, p: T -> bool, i: nat)
    requires i <= |xs|
    ensures Filter(xs, p) == Filter(xs[..i], p) + Filter(xs[i..], p)
    ensures |Filter(xs[..i], p)| <= i
  {
    if i == 0 {
      assert xs[..0] == [] && xs[0..] == xs;
    } else {
      assert xs[..i][0] == xs[0];
      FilterSplit(xs[1..], p, i - 1);
      assert xs[..i][1..] == xs[1..][..i - 1] && xs[1..][i - 1..] == xs[i..];
    }
  }

  lemma FilterTail<T(!new)>(xs: seq<T>, p: T -> bool, i: nat)
    requires i < |Filter(xs, p)|
    ensures i < |xs| && forall x :: x in Filter(xs, p)[i..] ==> x in xs[i..]
  {
    FilterLength(xs, p);
    var all, ys := Filter(xs, p), xs[i..];
    var front, back := Filter(xs[..i], p), Filter(ys, p);
    assert all == front + back && |front| <= i by { FilterSplit(xs, p, i); }
    SuffixMembers(front, back, i);
    FilterMembers(ys, p);
    forall x | x in all[i..] ensures x in ys { assert x in back; }
  }

  lemma SuffixMembers<T(!new)>(front: seq<T>, back: seq<T>, i: nat)
    requires |front| <= i <= |front| + |back|
    ensures forall x :: x in (front + back)[i..] ==> x in back
  {
    assert (front + back)[i..] == back[i - |front|..];
  }

  lemma {:induction false} FilterPrefix<T(!new)>(xs: seq<T>, p: T -> bool, i: nat)
    requires i <= |xs| && (forall x :: x in xs[..i] ==> p(x)) && forall x :: x in xs[i..] ==> !p(x)
    ensures Filter(xs, p) == xs[..i]
  {
    if i > 0 {
      assert xs[..i] == [xs[0]] + xs[1..][..i - 1] && xs[1..][i - 1..] == xs[i..];
      FilterPrefix(xs[1..], p, i - 1);
    } else if xs != [] {
      assert xs[0] in xs[0..] && forall x :: x in xs[1..][0..] ==> x in xs[0..];
      FilterPrefix(xs[1..], p, 0);
    }
  }

  lemma NotLater<T(!new)>(xs: seq<T>, i: nat, x: T)
    requires NoDup(xs) && i <= |xs| && x in xs[..i]
    ensures x !in xs[i..]
  {
    var k :| 0 <= k < i && xs[k] == x;
    forall j | 0 <= j < |xs| - i ensures xs[i..][j] != x { assert xs[i..][j] == xs[i + j]; }
  }
}
