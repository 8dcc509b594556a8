/** Bytes, and the flat byte string that a list of segments stands for. */
module Flat {
  newtype Byte = x: int | 0 <= x < 256

  type Bytes = seq<Byte>

  type Segs = seq<Bytes>

  /** The bytes of all segments, in order. */
  ghost function Join(s: Segs): (r: seq<Byte>) {
    if s == [] then [] else s[0] + Join(s[1..])
  }

  lemma {:induction false} JoinConcat(a: Segs, b: Segs)
    ensures Join(a + b) == Join(a) + Join(b)
  {
    if a == [] {
      assert a + b == b;
    } else {
      assert (a + b)[1..] == a[1..] + b;
      JoinConcat(a[1..], b);
    }
  }

  lemma JoinNil()
    ensures Join([]) == []
  {
  }

  lemma JoinOne(x: seq<Byte>)
    ensures Join([x]) == x
  {
    assert [x][1..] == [];
  }

  lemma JoinSplit(s: Segs, k: nat)
    requires k <= |s|
    ensures Join(s) == Join(s[..k]) + Join(s[k..])
  {
    assert s == s[..k] + s[k..];
    JoinConcat(s[..k], s[k..]);
  }

  lemma JoinTake(s: Segs, k: nat)
    requires k < |s|
    ensures Join(s[..k + 1]) == Join(s[..k]) + s[k]
  {
    assert s[..k + 1] == s[..k] + [s[k]];
    JoinConcat(s[..k], [s[k]]);
    JoinOne(s[k]);
  }

  lemma JoinDrop(s: Segs, k: nat)
    requires k < |s|
    ensures Join(s[k..]) == s[k] + Join(s[k + 1..])
  {
    assert s[k..][1..] == s[k + 1..];
  }

  /** Splitting around one segment. */
  lemma JoinAt(s: Segs, k: nat)
    requires k < |s|
    ensures Join(s) == Join(s[..k]) + s[k] + Join(s[k + 1..])
  {
    JoinSplit(s, k);
    JoinDrop(s, k);
  }

  lemma JoinPrefix(s: Segs, k: nat)
    requires k <= |s|
    ensures |Join(s[..k])| <= |Join(s)| && Join(s)[..|Join(s[..k])|] == Join(s[..k])
  {
    JoinSplit(s, k);
  }

  /** A prefix that ends inside segment k. */
  lemma JoinInto(s: Segs, k: nat, n: nat)
    requires k < |s| && n <= |s[k]|
    ensures |Join(s[..k])| + n <= |Join(s)|
    ensures Join(s)[..|Join(s[..k])| + n] == Join(s[..k]) + s[k][..n]
  {
    JoinAt(s, k);
    var a, b, c := Join(s[..k]), s[k], Join(s[k + 1..]);
    assert (a + b + c)[..|a| + n] == a + b[..n];
  }

  lemma JoinUpdate(s: Segs, k: nat, x: seq<Byte>)
    requires k < |s|
    ensures Join(s[k := x]) == Join(s[..k]) + x + Join(s[k + 1..])
  {
    var t := s[k := x];
    assert t[..k] == s[..k] && t[k + 1..] == s[k + 1..];
    JoinAt(t, k);
  }

  lemma {:induction false} JoinEmpties(s: Segs)
    requires forall i :: 0 <= i < |s| ==> s[i] == []
    ensures Join(s) == []
  {
    if s != [] { JoinEmpties(s[1..]); }
  }

  /** Segments past `cut` are empty, so dropping them loses nothing. */
  lemma JoinTrim(s: Segs, cut: nat)
    requires cut <= |s|
    requires forall i :: cut <= i < |s| ==> s[i] == []
    ensures Join(s) == Join(s[..cut])
  {
    JoinSplit(s, cut);
    JoinEmpties(s[cut..]);
  }

  // ---- slices of slices ----

  lemma TakeSlice<T>(s: seq<T>, j: nat, a: nat, b: nat)
    requires a <= b <= j <= |s|
    ensures s[..j][a..b] == s[a..b]
  {
    var u, v := s[..j][a..b], s[a..b];
    forall k | 0 <= k < |u| ensures u[k] == v[k] {}
  }

  lemma SliceSlice<T>(s: seq<T>, i: nat, j: nat, a: nat, b: nat)
    requires i <= j <= |s| && a <= b <= j - i
    ensures s[i..j][a..b] == s[i + a..i + b]
  {
    var u, v := s[i..j][a..b], s[i + a..i + b];
    assert |u| == |v|;
    forall k | 0 <= k < |u| ensures u[k] == v[k] {}
  }

  lemma DropDrop<T>(s: seq<T>, i: nat, a: nat)
    requires i + a <= |s|
    ensures s[i..][a..] == s[i + a..]
  {
    var u, v := s[i..][a..], s[i + a..];
    forall k | 0 <= k < |u| ensures u[k] == v[k] {}
  }

  lemma Assoc<T>(a: seq<T>, b: seq<T>, c: seq<T>)
    ensures (a + b) + c == a + (b + c)
  {
  }

  lemma ToEnd<T>(s: seq<T>, a: nat)
    requires a <= |s|
    ensures s[a..|s|] == s[a..]
  {
    var u, v := s[a..|s|], s[a..];
    forall k | 0 <= k < |u| ensures u[k] == v[k] {}
  }

  /** What stands in the middle of three pieces and a bit of the third. */
  lemma Splice<T>(a: seq<T>, x: seq<T>, y: seq<T>, n: nat)
    requires n <= |y|
    ensures (a + x + y)[|a|..|a| + |x| + n] == x + y[..n]
  {
    var u, v := (a + x + y)[|a|..|a| + |x| + n], x + y[..n];
    forall k | 0 <= k < |u| ensures u[k] == v[k] {}
  }

  /** A bit of the first of three pieces and what stands in the middle. */
  lemma SpliceBack<T>(y: seq<T>, x: seq<T>, z: seq<T>, m: nat)
    requires m <= |y|
    ensures (y + x + z)[m..|y| + |x|] == y[m..] + x
  {
    var u, v := (y + x + z)[m..|y| + |x|], y[m..] + x;
    forall k | 0 <= k < |u| ensures u[k] == v[k] {}
  }

  lemma JoinFirst(s: Segs)
    requires s != []
    ensures Join(s) == s[0] + Join(s[1..])
  {
  }
}
