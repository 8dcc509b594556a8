/**
 * The RC4 generator of arc4random.c, and the choice of a uniform number below a bound.
 */
module Arc4 {
  import opened Wrappers

  /** The state holds each of 0 to 255 exactly once. */
  ghost predicate Perm(s: seq<nat>) {
    |s| == 256 && (forall k :: 0 <= k < 256 ==> s[k] < 256) && (forall a, b :: 0 <= a < b < 256 ==> s[a] != s[b])
  }

  function Swap(s: seq<nat>, a: nat, b: nat): (r: seq<nat>)
    requires a < |s| && b < |s|
    ensures |r| == |s| && r[a] == s[b] && r[b] == s[a] && forall k :: 0 <= k < |s| && k != a && k != b ==> r[k] == s[k]
  {
    s[a := s[b]][b := s[a]]
  }

  lemma SwapPerm(s: seq<nat>, a: nat, b: nat)
    requires Perm(s) && a < 256 && b < 256
    ensures Perm(Swap(s, a, b))
  {
    var r := Swap(s, a, b);
    forall x, y | 0 <= x < y < 256 ensures r[x] != r[y] {
      var x' := if x == a then b else if x == b then a else x;
      var y' := if y == a then b else if y == b then a else y;
      assert r[x] == s[x'] && r[y] == s[y'];
    }
  }

  lemma PermSize(s: seq<nat>)
    requires Perm(s)
    ensures |s| == 256 && forall k :: 0 <= k < 256 ==> s[k] < 256
  {
  }

  datatype State = State(i: nat, j: nat, s: seq<nat>)

  ghost predicate StateOk(t: State) {
    t.i < 256 && t.j < 256 && Perm(t.s)
  }

  /** One step of the generator, mixing `d` into it: i moves on, j by what i points at and `d`. */
  ghost function Step(t: State, d: nat): (r: State)
    requires StateOk(t)
    ensures StateOk(r) && r.i == (t.i + 1) % 256
  {
    var i := (t.i + 1) % 256;
    var j := (t.j + t.s[i] + d) % 256;
    SwapPerm(t.s, i, j);
    State(i, j, Swap(t.s, i, j))
  }

  /** No step loses anything: the state before it can be told from the state after. */
  lemma StepInjective(t: State, u: State, d: nat)
    requires StateOk(t) && StateOk(u) && Step(t, d) == Step(u, d)
    ensures t == u
  {
    var r := Step(t, d);
    assert t.s == Swap(r.s, r.i, r.j);
    assert u.s == Swap(r.s, r.i, r.j);
    assert t.s[r.i] == u.s[r.i];
    SameSum(t.j, u.j, t.s[r.i] + d);
  }

  lemma SameSum(a: nat, b: nat, c: nat)
    requires a < 256 && b < 256 && (a + c) % 256 == (b + c) % 256
    ensures a == b
  {
  }

  class Stream {
    const s: array<nat>
    var i: nat
    var j: nat

    ghost function Now(): (t: State)
      reads this, s
    {
      State(i, j, s[..])
    }

    ghost predicate Valid()
      reads this, s
    {
      StateOk(Now())
    }

    /** arc4_init. */
    constructor ()
      ensures Valid() && fresh(s) && i == 0 && j == 0 && forall k :: 0 <= k < s.Length ==> s[k] == k
    {
      s := new nat[256](k => if k < 0 then 0 else k);
      i, j := 0, 0;
    }

    /** One turn of arc4_addrandom's loop, with the index already moved back. */
    method Mix(d: nat)
      requires Valid()
      modifies this`i, this`j, s
      ensures Valid() && Now() == Step(old(Now()), d)
      ensures i == (old(i) + 1) % 256 && j == (old(j) + old(s[..])[i] + d) % 256
      ensures s[i] == old(s[..])[j] && s[j] == old(s[..])[i] && forall k :: 0 <= k < s.Length && k != i && k != j ==> s[k] == old(s[k])
    {
      hide Perm;
      ghost var t := Now();
      PermSize(t.s);
      i := (i + 1) % 256;
      var si := s[i];
      j := (j + si + d) % 256;
      s[i] := s[j];
      s[j] := si;
      assert s[..] == Swap(t.s, i, j);
      SwapPerm(t.s, i, j);
    }

    method StepWith(d: nat)
      requires Valid()
      modifies this`i, this`j, s
      ensures Valid() && Now() == Step(old(Now()), d)
    {
      hide Perm, Step;
      Mix(d);
    }

    /** arc4_addrandom. */
    method AddRandom(dat: seq<nat>)
      requires Valid() && |dat| > 0
      modifies this`i, this`j, s
      ensures Valid() && j == i == old((i + 255) % 256)
      ensures s[..] == Mixed(State(old((i + 255) % 256), old(j), old(s[..])), dat, 256).s
    {
      hide Perm, Step;
      i := (i + 255) % 256;
      ghost var t := Now();
      for n := 0 to 256
        invariant Valid() && Now() == Mixed(t, dat, n) && i == (t.i + n) % 256
      {
        NextIndex(t.i + n);
        StepWith(Around(dat, n));
      }
      j := i;
    }

    /** arc4_getbyte. */
    method GetByte() returns (b: nat)
      requires Valid()
      modifies this`i, this`j, s
      ensures Valid() && Now() == Step(old(Now()), 0) && b < 256
      ensures i == (old(i) + 1) % 256 && j == (old(j) + old(s[..])[i]) % 256
      ensures s[i] == old(s[..])[j] && s[j] == old(s[..])[i] && forall k :: 0 <= k < s.Length && k != i && k != j ==> s[k] == old(s[k])
      ensures b == s[(s[i] + s[j]) % 256]
    {
      hide Perm, Step;
      PermSize(s[..]);
      Mix(0);
      PermSize(s[..]);
      b := s[(s[i] + s[j]) % 256];
    }
  }

  lemma NextIndex(a: nat)
    ensures (a % 256 + 1) % 256 == (a + 1) % 256
  {
  }

  /** The data, over and over. */
  function Around(dat: seq<nat>, n: nat): (d: nat)
    requires |dat| > 0
  {
    dat[n % |dat|]
  }

  /** From the first byte on, and again from the first after the last. */
  lemma AroundAndAround(dat: seq<nat>, n: nat)
    requires |dat| > 0
    ensures n < |dat| ==> Around(dat, n) == dat[n]
    ensures Around(dat, n + |dat|) == Around(dat, n)
  {
    var m := |dat|;
    assert n + m == (n / m + 1) * m + n % m;
    DivUnique(n / m + 1, n % m, m);
  }

  /** Each step mixes in the next byte. */
  lemma MixedNext(t: State, dat: seq<nat>, n: nat)
    requires StateOk(t) && |dat| > 0
    ensures Mixed(t, dat, 0) == t && Mixed(t, dat, n + 1) == Step(Mixed(t, dat, n), dat[n % |dat|])
  {
  }

  ghost function Mixed(t: State, dat: seq<nat>, n: nat): (r: State)
    requires StateOk(t) && |dat| > 0
    ensures StateOk(r)
  {
    hide Step, Perm;
    if n == 0 then t else Step(Mixed(t, dat, n - 1), Around(dat, n - 1))
  }

  // ---- a uniform number ----

  /** The words below this are rejected; in wrapping 32-bit arithmetic. */
  function Least(bound: nat): (min: nat)
    requires 2 <= bound < WORD
  {
    if bound > 0x8000_0000 then (1 + (WORD - 1 - bound)) % WORD
    else Wrapped(bound) % bound
  }

  /** Twice the bound taken from 2 to the 32, without a wider word. */
  function Wrapped(bound: nat): (w: nat)
    requires 2 <= bound <= 0x8000_0000
    ensures w == WORD - 2 * bound
  {
    assert bound < 0x8000_0000 ==> (bound * 2) % WORD == bound * 2;
    ((0xffff_ffff - (bound * 2) % WORD) + 1) % WORD
  }

  lemma LeastIs(bound: nat)
    requires 2 <= bound < WORD
    ensures Least(bound) == WORD % bound
  {
    if bound > 0x8000_0000 {
      DivUnique(1, WORD - bound, bound);
    } else {
      TakeTwo(bound);
    }
  }

  lemma TakeTwo(x: nat)
    requires 2 <= x <= 0x8000_0000
    ensures (WORD - 2 * x) % x == WORD % x
  {
    var q, r := WORD / x, WORD % x;
    assert WORD == q * x + r;
    assert (q - 2) * x == q * x - 2 * x;
    DivUnique(q - 2, r, x);
  }

  /** Two numbers with the same remainder are the same or at least `x` apart. */
  lemma SameRemainder(a: nat, b: nat, x: nat)
    requires x > 0 && a % x == b % x && -(x as int) < a - b < x
    ensures a == b
  {
    assert a == (a / x) * x + a % x && b == (b / x) * x + b % x;
    assert (a / x - b / x) * x == a - b;
    MulBound(a / x - b / x, x);
  }

  /** The words from `lo` on, below `hi`, that give `v`. */
  ghost function Words(lo: nat, hi: nat, bound: nat, v: nat): (s: set<nat>)
    requires bound > 0
  {
    set w: nat | lo <= w < hi && w % bound == v
  }

  lemma OneInEach(lo: nat, bound: nat, v: nat)
    requires v < bound
    ensures |Words(lo, lo + bound, bound, v)| == 1
  {
    var w := NextWord(lo, bound, v);
    forall x: nat | lo <= x < lo + bound && x % bound == v ensures x == w { SameRemainder(x, w, bound); }
    assert Words(lo, lo + bound, bound, v) == {w};
  }

  lemma NextWord(lo: nat, bound: nat, v: nat) returns (w: nat)
    requires v < bound
    ensures lo <= w < lo + bound && w % bound == v
  {
    var q, r := lo / bound, lo % bound;
    assert lo == q * bound + r;
    if v >= r {
      w := q * bound + v;
      DivUnique(q, v, bound);
    } else {
      w := (q + 1) * bound + v;
      assert w == q * bound + bound + v;
      DivUnique(q + 1, v, bound);
    }
  }

  lemma WordsSplit(lo: nat, mid: nat, hi: nat, bound: nat, v: nat)
    requires bound > 0 && lo <= mid <= hi
    ensures |Words(lo, hi, bound, v)| == |Words(lo, mid, bound, v)| + |Words(mid, hi, bound, v)|
  {
    assert Words(lo, hi, bound, v) == Words(lo, mid, bound, v) + Words(mid, hi, bound, v);
  }

  lemma {:induction false} SameInAll(lo: nat, k: nat, bound: nat, v: nat)
    requires v < bound
    ensures |Words(lo, lo + k * bound, bound, v)| == k
  {
    if k == 0 {
      assert Words(lo, lo, bound, v) == {};
    } else {
      SameInAll(lo, k - 1, bound, v);
      var mid := lo + (k - 1) * bound;
      OneInEach(mid, bound, v);
      assert k * bound == (k - 1) * bound + bound;
      WordsSplit(lo, mid, mid + bound, bound, v);
    }
  }

  /** Of the words that are not rejected, every number below the bound gets the same share. */
  lemma Unbiased(bound: nat, v: nat)
    requires 2 <= bound < WORD && v < bound
    ensures |Words(Least(bound), WORD, bound, v)| == WORD / bound
  {
    LeastIs(bound);
    var min := Least(bound);
    assert WORD == min + (WORD / bound) * bound;
    SameInAll(min, WORD / bound, bound, v);
  }

  /** arc4random_uniform, on the words that arc4random returns. */
  method Uniform(bound: nat, words: seq<nat>) returns (r: nat, used: nat)
    requires bound < WORD && forall k :: 0 <= k < |words| ==> words[k] < WORD
    requires bound >= 2 ==> exists k :: 0 <= k < |words| && words[k] >= WORD % bound
    ensures bound < 2 ==> r == 0 && used == 0
    ensures bound >= 2 ==> 0 < used <= |words| && r == words[used - 1] % bound < bound && words[used - 1] >= WORD % bound
    ensures bound >= 2 ==> forall k :: 0 <= k < used - 1 ==> words[k] < WORD % bound
  {
    if bound < 2 { return 0, 0; }
    LeastIs(bound);
    var min := Least(bound);
    used := 0;
    while words[used] < min
      invariant used < |words| && forall k :: 0 <= k < used ==> words[k] < min
      decreases |words| - used
    {
      used := used + 1;
    }
    used := used + 1;
    r := words[used - 1] % bound;
  }
}
