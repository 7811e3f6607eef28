/** How many elements of a sequence satisfy a predicate, and how a single update changes that. */
module Counting {
  import opened Basics

  function Count<T>(xs: seq<T>, f: T -> bool): (n: nat)
    ensures n <= |xs|
  {
    if xs == [] then 0 else Count(xs[..|xs| - 1], f) + Bit(f(xs[|xs| - 1]))
  }

  lemma {:induction false} CountUpdate<T>(xs: seq<T>, i: nat, x: T, f: T -> bool)
    requires i < |xs|
    ensures Count(xs[i := x], f) == Count(xs, f) - Bit(f(xs[i])) + Bit(f(x))
  {
    var last := |xs| - 1;
    if i == last {
      assert xs[i := x][..last] == xs[..last];
    } else {
      assert xs[i := x][..last] == xs[..last][i := x];
      CountUpdate(xs[..last], i, x, f);
    }
  }

  lemma {:induction false} CountNone<T>(xs: seq<T>, f: T -> bool)
    requires forall i :: 0 <= i < |xs| ==> !f(xs[i])
    ensures Count(xs, f) == 0
  {
    if xs != [] {
      CountNone(xs[..|xs| - 1], f);
    }
  }

  lemma {:induction false} CountSome<T>(xs: seq<T>, f: T -> bool, i: nat)
    requires i < |xs| && f(xs[i])
    ensures Count(xs, f) >= 1
  {
    if i < |xs| - 1 {
      CountSome(xs[..|xs| - 1], f, i);
    }
  }

  /** Two different places make a count of two. */
  lemma {:induction false} CountPair<T>(xs: seq<T>, f: T -> bool, i: nat, j: nat)
    requires i < j < |xs| && f(xs[i]) && f(xs[j])
    ensures Count(xs, f) >= 2
  {
    if j < |xs| - 1 {
      CountPair(xs[..|xs| - 1], f, i, j);
    } else {
      CountSome(xs[..|xs| - 1], f, i);
    }
  }

  lemma {:induction false} CountMonotone<T>(xs: seq<T>, f: T -> bool, g: T -> bool)
    requires forall i :: 0 <= i < |xs| && f(xs[i]) ==> g(xs[i])
    ensures Count(xs, f) <= Count(xs, g)
  {
    if xs != [] {
      CountMonotone(xs[..|xs| - 1], f, g);
    }
  }

  lemma {:induction false} CountAll<T>(xs: seq<T>, f: T -> bool)
    requires forall i :: 0 <= i < |xs| ==> f(xs[i])
    ensures Count(xs, f) == |xs|
  {
    if xs != [] {
      CountAll(xs[..|xs| - 1], f);
    }
  }

  /** A count of at least one has a witness. */
  lemma {:induction false} CountWitness<T>(xs: seq<T>, f: T -> bool) returns (i: nat)
    requires Count(xs, f) >= 1
    ensures i < |xs| && f(xs[i])
  {
    i := |xs| - 1;
    if !f(xs[i]) {
      i := CountWitness(xs[..|xs| - 1], f);
    }
  }

  /** A weighted sum, for termination measures. */
  function Sum<T>(xs: seq<T>, f: T -> nat): nat {
    if xs == [] then 0 else Sum(xs[..|xs| - 1], f) + f(xs[|xs| - 1])
  }

  lemma {:induction false} SumUpdate<T>(xs: seq<T>, i: nat, x: T, f: T -> nat)
    requires i < |xs|
    ensures Sum(xs[i := x], f) == Sum(xs, f) - f(xs[i]) + f(x)
  {
    var last := |xs| - 1;
    if i == last {
      assert xs[i := x][..last] == xs[..last];
    } else {
      assert xs[i := x][..last] == xs[..last][i := x];
      SumUpdate(xs[..last], i, x, f);
    }
  }

  // ---------------------------------------------------------------- numbers without repeats

  ghost function Below(n: nat): (u: set<nat>)
    ensures |u| == n && forall v: nat :: v in u <==> v < n
  {
    if n == 0 then {} else {n - 1} + Below(n - 1)
  }

  ghost function Elements(a: seq<nat>): (u: set<nat>)
    ensures forall v :: v in u <==> v in a
  {
    set v | v in a
  }

  lemma {:induction false} InjectiveCard(a: seq<nat>)
    requires NoRepeats(a)
    ensures |Elements(a)| == |a|
  {
    if a == [] {
      assert Elements(a) == {};
    } else {
      var b, x := a[..|a| - 1], a[|a| - 1];
      InjectiveCard(b);
      assert a == b + [x];
      assert Elements(a) == Elements(b) + {x};
      assert x !in b;
    }
  }

  lemma {:induction false} SmallerCard<T>(u: set<T>, w: set<T>)
    requires u <= w
    ensures |u| <= |w|
  {
    if u != {} {
      var x :| x in u;
      SmallerCard(u - {x}, w - {x});
    }
  }

  ghost function Image<T(!new), U>(s: set<T>, f: T -> U): set<U> {
    set x | x in s :: f(x)
  }

  lemma {:induction false} ImageCard<T(!new), U>(s: set<T>, f: T -> U)
    requires forall a, b :: a in s && b in s && a != b ==> f(a) != f(b)
    ensures |Image(s, f)| == |s|
  {
    if s != {} {
      var x :| x in s;
      ImageCard(s - {x}, f);
      assert Image(s, f) == Image(s - {x}, f) + {f(x)};
    } else {
      assert Image(s, f) == {};
    }
  }
}
