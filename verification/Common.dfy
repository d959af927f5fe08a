/** Small vocabulary shared by the models. */
module Common {

  datatype Option<+T> = None | Some(value: T)

  type byte = b: int | 0 <= b < 256

  /** The range of an unsigned int. */
  const UINT := 0x1_0000_0000

  /** How often the programs look whether somebody else has finished an initialisation. */
  const MAX_TRIES := 10

  function One(b: bool): nat {
    if b then 1 else 0
  }

  function Max(a: int, b: int): int {
    if a < b then b else a
  }

  /** Total weight of a population of threads: the way the models count threads by state. */
  function Total<T>(w: T -> int, xs: seq<T>): int {
    if xs == [] then 0 else w(xs[0]) + Total(w, xs[1..])
  }

  /** When one thread moves, the total changes by the difference of its two weights. */
  lemma {:induction false} TotalUpdate<T>(w: T -> int, xs: seq<T>, i: nat, v: T)
    requires i < |xs|
    ensures Total(w, xs[i := v]) == Total(w, xs) - w(xs[i]) + w(v)
  {
    var ys := xs[i := v];
    if i == 0 {
      assert ys[1..] == xs[1..];
    } else {
      assert ys[1..] == xs[1..][i - 1 := v];
      TotalUpdate(w, xs[1..], i - 1, v);
    }
  }

  lemma {:induction false} TotalUniform<T>(w: T -> int, xs: seq<T>, k: int)
    requires forall i :: 0 <= i < |xs| ==> w(xs[i]) == k
    ensures Total(w, xs) == k * |xs|
  {
    if xs != [] {
      TotalUniform(w, xs[1..], k);
    }
  }

  lemma {:induction false} TotalAgree<T>(w: T -> int, v: T -> int, xs: seq<T>)
    requires forall i :: 0 <= i < |xs| ==> w(xs[i]) == v(xs[i])
    ensures Total(w, xs) == Total(v, xs)
  {
    if xs != [] {
      TotalAgree(w, v, xs[1..]);
    }
  }

  /** Moves that change no weight change no total. */
  lemma {:induction false} TotalSame<T>(w: T -> int, xs: seq<T>, ys: seq<T>)
    requires |xs| == |ys| && forall i :: 0 <= i < |xs| ==> w(xs[i]) == w(ys[i])
    ensures Total(w, xs) == Total(w, ys)
  {
    if xs != [] {
      TotalSame(w, xs[1..], ys[1..]);
    }
  }

  /** A positive total has a thread of positive weight behind it. */
  lemma {:induction false} TotalPositive<T>(w: T -> int, xs: seq<T>)
    requires Total(w, xs) > 0
    ensures exists i :: 0 <= i < |xs| && w(xs[i]) > 0
  {
    if w(xs[0]) <= 0 {
      TotalPositive(w, xs[1..]);
      var i :| 0 <= i < |xs[1..]| && w(xs[1..][i]) > 0;
      assert w(xs[i + 1]) > 0;
    }
  }

  lemma {:induction false} TotalConcat<T>(w: T -> int, xs: seq<T>, ys: seq<T>)
    ensures Total(w, xs + ys) == Total(w, xs) + Total(w, ys)
  {
    if xs == [] {
      assert xs + ys == ys;
    } else {
      assert (xs + ys)[1..] == xs[1..] + ys;
      TotalConcat(w, xs[1..], ys);
    }
  }

  /** With no negative weight, the total is at least the weight of any one thread. */
  lemma {:induction false} TotalAtLeast<T>(w: T -> int, xs: seq<T>, j: nat)
    requires forall i :: 0 <= i < |xs| ==> w(xs[i]) >= 0
    ensures Total(w, xs) >= 0
    ensures j < |xs| ==> Total(w, xs) >= w(xs[j])
  {
    if xs != [] {
      TotalAtLeast(w, xs[1..], if j == 0 then 0 else j - 1);
    }
  }

  /** Two item numbers less than a buffer apart never share a slot of a circular buffer. */
  lemma SlotsDiffer(n: nat, j: nat, k: nat)
    requires 0 < n && j < k < j + n
    ensures j % n != k % n
  {
    var d := k / n - j / n;
    assert k - j == n * d + (k % n - j % n);
    if d >= 1 {
      assert n * d >= n;
    } else {
      assert n * d <= 0;
    }
  }

  lemma {:induction false} SubsetSize<T>(a: set<T>, b: set<T>)
    requires a <= b
    ensures |a| <= |b|
  {
    if a != {} {
      var x :| x in a;
      SubsetSize(a - {x}, b - {x});
    }
  }

  lemma {:induction false} TwoMembers<T>(a: set<T>, x: T, y: T)
    requires x in a && y in a && x != y
    ensures |a| >= 2
  {
    SubsetSize({x, y}, a);
  }

  lemma {:induction false} PickTwo<T>(a: set<T>) returns (x: T, y: T)
    requires |a| >= 2
    ensures x in a && y in a && x != y
  {
    x :| x in a;
    var rest := a - {x};
    assert |rest| >= 1;
    y :| y in rest;
  }

  lemma {:induction false} OnlyTwo<T>(a: set<T>, x: T, y: T)
    requires |a| == 2 && x in a && y in a && x != y
    ensures a == {x, y}
  {
    var rest := a - {x} - {y};
    assert |rest| == 0;
    assert a == rest + {x, y};
  }

  lemma {:induction false} PickAnother<T>(a: set<T>, x: T, y: T) returns (z: T)
    requires |a| >= 3
    ensures z in a && z != x && z != y
  {
    if forall e :: e in a ==> e == x || e == y {
      SubsetSize(a, {x, y});
    }
    z :| z in a && z != x && z != y;
  }

  /** A number below 3 other than i and j. */
  function Third(i: nat, j: nat): (k: nat)
    ensures k < 3 && k != i && k != j
  {
    if i != 0 && j != 0 then 0 else if i != 1 && j != 1 then 1 else 2
  }
}
