/**
 * The nodes of an evbuffer and the facts about a list of them.
 *
 * A chain is one allocation: a header and, behind it, a block of bytes. The
 * stored bytes are buffer[misalign..misalign + off].
 */
module Chains {
  import opened Flat

  const MIN_BUFFER_SIZE: nat := 512
  const CHAIN_SIZE: nat := 32
  const CHAIN_MAX: nat := 0x7fff_ffff

  /** The most bytes evbuffer_chain_new makes room for. */
  const LARGEST: nat := CHAIN_MAX - CHAIN_SIZE

  class Chain {
    var next: Chain?
    var buffer: seq<Byte>
    var misalign: nat
    var off: nat
    const immutable: bool

    /** evbuffer_chain_new: room for at least `size` bytes, rounded up with the header unless it is huge. */
    constructor (size: nat)
      ensures !immutable && next == null && misalign == off == 0
      ensures |buffer| >= size && Holds([])
      ensures size <= LARGEST ==> |buffer| <= LARGEST
      ensures |buffer| + CHAIN_SIZE == MIN_BUFFER_SIZE || |buffer| + CHAIN_SIZE < 2 * (size + CHAIN_SIZE)
    {
      var toAlloc := size + CHAIN_SIZE;
      if size + CHAIN_SIZE < CHAIN_MAX / 2 {
        toAlloc := MIN_BUFFER_SIZE;
        while toAlloc < size + CHAIN_SIZE
          invariant toAlloc >= MIN_BUFFER_SIZE
          invariant toAlloc == MIN_BUFFER_SIZE || toAlloc < 2 * (size + CHAIN_SIZE)
          decreases size + CHAIN_SIZE - toAlloc
        {
          toAlloc := toAlloc * 2;
        }
      }
      buffer := seq(toAlloc - CHAIN_SIZE, _ => 0);
      misalign, off, next, immutable := 0, 0, null, false;
    }

    /** A read-only chain over memory that the caller keeps. */
    constructor Reference(data: seq<Byte>)
      requires data != []
      ensures immutable && next == null && Holds(data)
    {
      buffer := data;
      misalign, off, next, immutable := 0, |data|, null, true;
    }

    /** The chain stores exactly `d`. A read-only chain has no spare room at its end. */
    ghost predicate Holds(d: seq<Byte>)
      reads this`misalign, this`off, this`buffer
    {
      && misalign + off <= |buffer|
      && (if immutable then misalign + off == |buffer| && off > 0 else |buffer| > 0)
      && buffer[misalign..misalign + off] == d
    }

    function SpaceLen(): (n: int)
      reads this`misalign, this`off, this`buffer
    {
      if immutable then 0 else |buffer| - (misalign + off)
    }

    /** Copies `data` behind the stored bytes. */
    method Put(data: seq<Byte>, ghost d: seq<Byte>)
      requires Holds(d) && !immutable && |data| <= SpaceLen()
      modifies this`off, this`buffer
      ensures Holds(d + data) && |buffer| == old(|buffer|)
      ensures SpaceLen() == old(SpaceLen()) - |data|
    {
      var at := misalign + off;
      SpliceBack(buffer[..at], data, buffer[at + |data|..], misalign);
      TakeSlice(buffer, at, misalign, at);
      buffer := buffer[..at] + data + buffer[at + |data|..];
      off := off + |data|;
    }

    /** Copies `data` in front of the stored bytes. */
    method PutFront(data: seq<Byte>, ghost d: seq<Byte>)
      requires Holds(d) && !immutable && |data| <= misalign
      modifies this`off, this`misalign, this`buffer
      ensures Holds(data + d) && misalign == old(misalign) - |data| && |buffer| == old(|buffer|)
    {
      var at := misalign - |data|;
      Splice(buffer[..at], data, buffer[misalign..], off);
      buffer := buffer[..at] + data + buffer[misalign..];
      off := off + |data|;
      misalign := at;
    }

    /** An empty chain may count its room as lying in front of the data. */
    method RoomInFront()
      requires Holds([]) && !immutable
      modifies this`misalign
      ensures Holds([]) && misalign == |buffer|
    {
      misalign := |buffer|;
    }

    /** evbuffer_chain_align */
    method Align(ghost d: seq<Byte>)
      requires Holds(d) && !immutable
      modifies this`misalign, this`buffer
      ensures Holds(d) && misalign == 0 && |buffer| == old(|buffer|)
    {
      buffer := buffer[misalign..misalign + off] + buffer[off..];
      misalign := 0;
    }

    /** Forgets the first `n` stored bytes. */
    method Skip(n: nat, ghost d: seq<Byte>)
      requires Holds(d) && n < |d|
      modifies this`misalign, this`off
      ensures Holds(d[n..])
    {
      misalign, off := misalign + n, off - n;
    }

    /** `p` has been written behind the stored bytes but is not counted yet. */
    ghost predicate Staged(p: seq<Byte>)
      reads this`misalign, this`off, this`buffer
    {
      && !immutable && misalign + off + |p| <= |buffer|
      && buffer[misalign + off..misalign + off + |p|] == p
    }

    method Stage(p: seq<Byte>, ghost d: seq<Byte>)
      requires Holds(d) && !immutable && |p| <= SpaceLen()
      modifies this`buffer
      ensures Holds(d) && Staged(p) && |buffer| == old(|buffer|)
    {
      var at := misalign + off;
      buffer := buffer[..at] + p + buffer[at + |p|..];
    }

    /** Counts the staged bytes as stored. */
    method CommitStaged(n: nat, ghost p: seq<Byte>, ghost d: seq<Byte>)
      requires Holds(d) && Staged(p) && n == |p|
      modifies this`off
      ensures Holds(d + p)
    {
      off := off + n;
    }

    /** evbuffer_chain_should_realign */
    predicate ShouldRealign(datlen: nat)
      reads this`off, this`buffer
    {
      |buffer| - off >= datlen && off < |buffer| / 2 && off <= 2048
    }
  }

  ghost predicate Distinct(cs: seq<Chain>) {
    forall i, j :: 0 <= i < j < |cs| ==> cs[i] != cs[j]
  }

  /** `cs` is a complete null-terminated list. */
  ghost predicate Link(cs: seq<Chain>)
    reads cs`next
  {
    forall i {:trigger cs[i].next} :: 0 <= i < |cs| ==> cs[i].next == if i + 1 < |cs| then cs[i + 1] else null
  }

  /** Chain i stores segment i. */
  ghost predicate Data(cs: seq<Chain>, segs: Segs)
    reads cs`misalign, cs`off, cs`buffer
  {
    && |segs| == |cs|
    && (forall i {:trigger cs[i]} {:trigger segs[i]} :: 0 <= i < |cs| ==> cs[i].Holds(segs[i]))
  }

  ghost predicate Apart(a: seq<Chain>, b: seq<Chain>) {
    forall i, j :: 0 <= i < |a| && 0 <= j < |b| ==> a[i] != b[j]
  }

  lemma HoldsByte(c: Chain, d: seq<Byte>, k: nat)
    requires c.Holds(d) && k < |d|
    ensures c.off == |d| && c.misalign + k < |c.buffer| && c.buffer[c.misalign + k] == d[k]
  {
  }

  lemma DistinctConcat(a: seq<Chain>, b: seq<Chain>)
    requires Distinct(a) && Distinct(b) && Apart(a, b)
    ensures Distinct(a + b)
  {
    forall i, j | 0 <= i < j < |a + b| ensures (a + b)[i] != (a + b)[j] {
      if i < |a| <= j { assert a[i] != b[j - |a|]; }
    }
  }

  lemma DistinctTake(cs: seq<Chain>, cut: nat, b: seq<Chain>)
    requires Distinct(cs) && Distinct(b) && Apart(cs, b) && cut <= |cs|
    ensures Distinct(cs[..cut] + b)
  {
    DistinctConcat(cs[..cut], b);
  }

  lemma ApartSym(a: seq<Chain>, b: seq<Chain>)
    requires Apart(a, b)
    ensures Apart(b, a)
  {
  }

  lemma PrefixApart(a: seq<Chain>, b: seq<Chain>, i: nat)
    requires Apart(a, b) && Distinct(b) && i <= |b|
    ensures Apart(a, b[..i]) && Distinct(b[..i])
  {
  }

  /** `b` is made of chains that two given lists held before. */
  ghost predicate MovedChains(a1: seq<Chain>, a2: seq<Chain>, b: seq<Chain>) {
    forall i :: 0 <= i < |b| ==> b[i] in a1 || b[i] in a2
  }

  lemma MovedInto(a1: seq<Chain>, a2: seq<Chain>, b: seq<Chain>)
    requires MovedChains(a1, a2, b)
    ensures forall i :: 0 <= i < |b| ==> b[i] in a1 + a2
  {
  }

  lemma Regrouped(d: seq<Chain>, cut: nat, cs: seq<Chain>, i: nat)
    requires Distinct(cs) && Apart(d, cs) && cut <= |d| && i <= |cs|
    ensures Apart(d[..cut] + cs[..i], cs[i..])
    ensures MovedChains(d, cs, d[..cut] + cs[..i]) && MovedChains([], cs, cs[i..])
    ensures MovedChains(d, cs, d) && MovedChains([], cs, cs)
  {
  }

  lemma ListOfOne(c: Chain, cs: seq<Chain>)
    requires c.next == null && c !in cs
    ensures Link([c]) && Distinct([c]) && Apart(cs, [c])
  {
  }

  lemma DataAppend(cs: seq<Chain>, segs: Segs, cut: nat, c: Chain, d: seq<Byte>)
    requires Data(cs, segs) && c.Holds(d) && cut <= |cs|
    ensures Data(cs[..cut] + [c], segs[..cut] + [d])
  {
  }

  lemma DistinctCons(c: Chain, cs: seq<Chain>)
    requires Distinct(cs) && c !in cs
    ensures Distinct([c] + cs)
  {
  }

  lemma LinkCons(c: Chain, cs: seq<Chain>)
    requires Link(cs) && cs != [] && c.next == cs[0]
    ensures Link([c] + cs)
  {
  }

  /** A chain in front of a list's tail: what is where. */
  lemma ConsTail(c: Chain, cs: seq<Chain>, i: nat)
    requires i <= |cs|
    ensures var l := [c] + cs[i..];
      && |l| == 1 + |cs| - i && l[0] == c && (forall k :: 1 <= k < |l| ==> l[k] == cs[i + k - 1])
      && (forall k :: 1 <= k < |l| ==> l[k] in cs)
  {
  }

  lemma DataCons(c: Chain, d: seq<Byte>, cs: seq<Chain>, segs: Segs)
    requires c.Holds(d) && Data(cs, segs)
    ensures Data([c] + cs, [d] + segs)
  {
  }

  /** Setting chain i aside, so that it can be written... */
  lemma DataApart(cs: seq<Chain>, segs: Segs, i: nat)
    requires i < |cs| && Distinct(cs) && Data(cs, segs)
    ensures Data(cs[..i], segs[..i]) && Data(cs[i + 1..], segs[i + 1..])
    ensures cs[i] !in cs[..i] && cs[i] !in cs[i + 1..] && cs[i].Holds(segs[i])
  {
  }

  /** ... and putting it back with what it now stores. */
  lemma DataUpdate(cs: seq<Chain>, segs: Segs, i: nat, d: seq<Byte>)
    requires i < |cs| == |segs| && Data(cs[..i], segs[..i]) && Data(cs[i + 1..], segs[i + 1..]) && cs[i].Holds(d)
    ensures Data(cs, segs[i := d])
  {
    forall k | 0 <= k < |cs| ensures cs[k].Holds(segs[i := d][k]) {
      if k < i {
        assert cs[..i][k] == cs[k] && segs[..i][k] == segs[k];
      } else if k > i {
        assert cs[i + 1..][k - i - 1] == cs[k] && segs[i + 1..][k - i - 1] == segs[k];
      }
    }
  }

  lemma DataAt(cs: seq<Chain>, segs: Segs, i: nat)
    requires Data(cs, segs) && i < |cs|
    ensures cs[i].Holds(segs[i])
  {
  }

  lemma DataSlice(cs: seq<Chain>, segs: Segs, i: nat, j: nat)
    requires Data(cs, segs) && i <= j <= |cs|
    ensures Data(cs[i..j], segs[i..j])
  {
  }

  lemma DataConcat(a: seq<Chain>, sa: Segs, b: seq<Chain>, sb: Segs)
    requires Data(a, sa) && Data(b, sb)
    ensures Data(a + b, sa + sb)
  {
  }

  lemma DataTakeConcat(a: seq<Chain>, sa: Segs, cut: nat, b: seq<Chain>, sb: Segs)
    requires Data(a, sa) && Data(b, sb) && cut <= |a|
    ensures Data(a[..cut] + b, sa[..cut] + sb)
  {
  }

  lemma LinkNil(cs: seq<Chain>)
    requires cs == []
    ensures Link(cs)
  {
  }

  lemma LinkAt(cs: seq<Chain>, i: nat)
    requires Link(cs) && i < |cs|
    ensures cs[i].next == if i + 1 < |cs| then cs[i + 1] else null
  {
  }

  /** Any tail of a list is a list. */
  lemma LinkDrop(cs: seq<Chain>, i: nat)
    requires Link(cs) && i <= |cs|
    ensures Link(cs[i..])
  {
    forall k {:trigger cs[i..][k].next} | 0 <= k < |cs[i..]|
      ensures cs[i..][k].next == if k + 1 < |cs[i..]| then cs[i..][k + 1] else null
    {
      assert cs[i..][k] == cs[i + k];
    }
  }

  // ---- which segments hold data ----

  /** `lwd` is the index of the last segment with data, or 0 if there is none. */
  ghost predicate LastData(segs: Segs, lwd: nat) {
    && (if segs == [] then lwd == 0 else lwd < |segs|)
    && (lwd > 0 ==> segs[lwd] != [])
    && (forall i :: lwd < i < |segs| ==> segs[i] == [])
  }

  /** No empty segment comes before the last one with data. */
  ghost predicate Packed(segs: Segs, lwd: nat) {
    forall i :: 0 <= i < lwd && i < |segs| ==> segs[i] != []
  }

  lemma PackedNil()
    ensures Packed([], 0)
  {
  }

  lemma PackedOne(d: seq<Byte>)
    ensures Packed([d], 0)
  {
  }

  /** How many segments remain once the trailing empty ones are dropped. */
  ghost function Cut(segs: Segs, lwd: nat): (n: nat)
    requires LastData(segs, lwd)
    ensures n <= |segs|
  {
    if segs == [] || segs[lwd] == [] then 0 else lwd + 1
  }

  lemma CutJoin(segs: Segs, lwd: nat)
    requires LastData(segs, lwd)
    ensures Join(segs[..Cut(segs, lwd)]) == Join(segs)
  {
    JoinTrim(segs, Cut(segs, lwd));
  }

  lemma AppendSeg(segs: Segs, lwd: nat, d: seq<Byte>) returns (lwd': nat)
    requires LastData(segs, lwd)
    ensures lwd' == if d != [] then Cut(segs, lwd) else lwd
    ensures LastData(segs[..Cut(segs, lwd)] + [d], lwd')
    ensures Packed(segs, lwd) ==> Packed(segs[..Cut(segs, lwd)] + [d], lwd')
    ensures Join(segs[..Cut(segs, lwd)] + [d]) == Join(segs) + d
  {
    var cut := Cut(segs, lwd);
    lwd' := if d != [] then cut else lwd;
    CutJoin(segs, lwd);
    JoinConcat(segs[..cut], [d]);
    JoinOne(d);
  }

  /** Growing the last segment with data appends to the whole. */
  lemma ExtendLast(segs: Segs, lwd: nat, d: seq<Byte>)
    requires LastData(segs, lwd) && segs != []
    ensures LastData(segs[lwd := segs[lwd] + d], lwd)
    ensures Join(segs[lwd := segs[lwd] + d]) == Join(segs) + d
  {
    JoinUpdate(segs, lwd, segs[lwd] + d);
    JoinAt(segs, lwd);
    JoinEmpties(segs[lwd + 1..]);
  }

  /** Growing the first segment at its front prepends to the whole. */
  lemma ExtendFirst(segs: Segs, lwd: nat, d: seq<Byte>)
    requires LastData(segs, lwd) && segs != []
    ensures LastData(segs[0 := d + segs[0]], lwd)
    ensures Join(segs[0 := d + segs[0]]) == d + Join(segs)
  {
    JoinUpdate(segs, 0, d + segs[0]);
    JoinAt(segs, 0);
    assert segs[..0] == [];
  }

  /** A new front segment, in front of one with data. */
  lemma PrependSeg(segs: Segs, lwd: nat, d: seq<Byte>)
    requires LastData(segs, lwd) && segs != [] && segs[lwd] != []
    ensures LastData([d] + segs, lwd + 1)
    ensures Join([d] + segs) == d + Join(segs)
    ensures Packed([d] + segs, lwd + 1) <==> d != [] && Packed(segs, lwd)
  {
    var t := [d] + segs;
    assert t[1..] == segs;
    if Packed(t, lwd + 1) {
      forall i | 0 <= i < lwd && i < |segs| ensures segs[i] != [] { assert t[i + 1] == segs[i]; }
      assert t[0] != [];
    }
  }

  /** Dropping the first `i` segments and `n` bytes of the next. */
  lemma DropSegs(segs: Segs, lwd: nat, i: nat, n: nat)
    requires LastData(segs, lwd) && i < |segs| && n < |segs[i]|
    ensures i <= lwd < |segs|
    ensures LastData(segs[i..][0 := segs[i][n..]], lwd - i)
    ensures Packed(segs, lwd) ==> Packed(segs[i..][0 := segs[i][n..]], lwd - i)
    ensures |Join(segs[..i])| + n < |Join(segs)|
    ensures Join(segs[i..][0 := segs[i][n..]]) == Join(segs)[|Join(segs[..i])| + n..]
  {
    var t := segs[i..][0 := segs[i][n..]];
    assert t[1..] == segs[i + 1..];
    JoinAt(segs, i);
    var a, b, c := Join(segs[..i]), segs[i], Join(segs[i + 1..]);
    assert (a + b + c)[|a| + n..] == b[n..] + c;
  }

  /** With more than `len` bytes in all, the first `i + 1` segments cannot be the last ones with data. */
  lemma StillInside(segs: Segs, lwd: nat, i: nat, len: nat)
    requires LastData(segs, lwd) && i < |segs|
    requires |Join(segs[..i + 1])| <= len < |Join(segs)|
    ensures i < lwd
  {
    if i >= lwd { JoinTrim(segs, i + 1); }
  }

  lemma DistinctAt(cs: seq<Chain>, i: nat, j: nat)
    requires Distinct(cs) && i < |cs| && j < |cs|
    ensures cs[i] == cs[j] <==> i == j
  {
  }

  lemma DistinctDrop(cs: seq<Chain>, i: nat)
    requires Distinct(cs) && i <= |cs|
    ensures Distinct(cs[i..])
  {
  }

  /** Forgets the first `n` bytes of chain i. */
  method SkipAt(ghost cs: seq<Chain>, chain: Chain, n: nat, ghost segs: Segs, ghost i: nat)
    requires i < |cs| == |segs| && cs[i] == chain && Distinct(cs) && Data(cs, segs) && n < |segs[i]|
    modifies chain`misalign, chain`off
    ensures Data(cs, segs[i := segs[i][n..]])
  {
    hide Distinct, Data;
    DataApart(cs, segs, i);
    chain.Skip(n, segs[i]);
    DataUpdate(cs, segs, i, segs[i][n..]);
  }

  /** Puts `tmp` in front of a list whose first `left` bytes it holds a copy of. */
  method LinkBefore(tmp: Chain, chain: Chain, left: nat, ghost d: seq<Byte>, ghost cs: seq<Chain>, ghost segs: Segs)
    requires |segs| == |cs| > 0 && chain == cs[0] && Distinct(cs) && Link(cs) && Data(cs, segs) && left < |segs[0]|
    requires tmp !in cs && tmp.Holds(d)
    modifies tmp`next, chain`misalign, chain`off
    ensures Link([tmp] + cs) && Data([tmp] + cs, [d] + segs[0 := segs[0][left..]])
  {
    hide Distinct, Data, Link;
    SkipAt(cs, chain, left, segs, 0);
    assert Link(cs);
    tmp.next := chain;
    assert Link(cs) && Data(cs, segs[0 := segs[0][left..]]);
    LinkCons(tmp, cs);
    DataCons(tmp, d, cs, segs[0 := segs[0][left..]]);
  }

  /** What remains valid when a list is cut before chain i. */
  lemma TailOf(cs: seq<Chain>, segs: Segs, i: nat, x: seq<Byte>)
    requires i < |cs| && Distinct(cs) && Link(cs) && |segs| == |cs| && Data(cs, segs[i := x])
    ensures Distinct(cs[i..]) && Link(cs[i..]) && Data(cs[i..], segs[i..][0 := x])
  {
    hide Distinct, Data, Link;
    DistinctDrop(cs, i);
    LinkDrop(cs, i);
    DataSlice(cs, segs[i := x], i, |cs|);
    assert cs[i..|cs|] == cs[i..];
    assert segs[i := x][i..|cs|] == segs[i..][0 := x];
  }

  lemma LastHasData(segs: Segs, lwd: nat)
    requires LastData(segs, lwd) && Join(segs) != []
    ensures segs != [] && segs[lwd] != []
  {
    if segs == [] || segs[lwd] == [] { JoinEmpties(segs); }
  }

  /** `b` behind the data of `a`. */
  lemma AppendSegs(a: Segs, la: nat, b: Segs, lb: nat)
    requires LastData(a, la) && LastData(b, lb) && b != [] && b[lb] != []
    ensures LastData(a[..Cut(a, la)] + b, Cut(a, la) + lb)
    ensures Packed(a, la) && Packed(b, lb) ==> Packed(a[..Cut(a, la)] + b, Cut(a, la) + lb)
    ensures Join(a[..Cut(a, la)] + b) == Join(a) + Join(b)
  {
    var cut := Cut(a, la);
    CutJoin(a, la);
    JoinConcat(a[..cut], b);
    var ab := a[..cut] + b;
    assert forall i :: cut <= i < |ab| ==> ab[i] == b[i - cut];
  }

  /** `b` in front of `a`, both with data. */
  lemma PrependSegs(b: Segs, lb: nat, a: Segs, la: nat)
    requires LastData(a, la) && a != [] && a[la] != []
    requires LastData(b, lb) && b != [] && b[lb] != []
    ensures LastData(b + a, |b| + la)
    ensures Packed(a, la) && Packed(b, lb) ==> (Packed(b + a, |b| + la) <==> lb == |b| - 1)
    ensures Join(b + a) == Join(b) + Join(a)
  {
    hide Join, Packed;
    JoinConcat(b, a);
    assert forall i :: |b| <= i < |b + a| ==> (b + a)[i] == a[i - |b|];
    if Packed(a, la) && Packed(b, lb) {
      if lb < |b| - 1 { HoleBetween(b, lb, a, la); } else { NoneBetween(b, a, la); }
    }
  }

  lemma HoleBetween(b: Segs, lb: nat, a: Segs, la: nat)
    requires LastData(b, lb) && lb < |b| - 1
    ensures !Packed(b + a, |b| + la)
  {
    assert (b + a)[lb + 1] == b[lb + 1] == [];
  }

  lemma NoneBetween(b: Segs, a: Segs, la: nat)
    requires b != [] && b[|b| - 1] != [] && Packed(b, |b| - 1) && Packed(a, la)
    ensures Packed(b + a, |b| + la)
  {
    var ba := b + a;
    forall i | 0 <= i < |b| + la && i < |ba| ensures ba[i] != [] {
      if i < |b| { assert ba[i] == b[i]; } else { assert ba[i] == a[i - |b|]; }
    }
  }

  /** Ends the list behind its first `i` chains. */
  method Terminate(previous: Chain, ghost cs: seq<Chain>, ghost i: nat)
    requires Link(cs) && Distinct(cs) && 0 < i <= |cs| && previous == cs[i - 1]
    modifies previous`next
    ensures Link(cs[..i]) && Link(cs[i..])
  {
    LinkDrop(cs, i);
    previous.next := null;
    assert forall k :: 0 <= k < |cs| - i ==> cs[i..][k] == cs[i + k] && cs[i + k] != previous;
  }

  /** The first `i` segments of a packed list, put behind the data of `a`, end in data. */
  lemma MoveSegs(a: Segs, la: nat, b: Segs, lb: nat, i: nat)
    requires LastData(a, la) && LastData(b, lb) && Packed(b, lb) && 0 < i <= lb
    ensures LastData(a[..Cut(a, la)] + b[..i], Cut(a, la) + i - 1)
    ensures Packed(a, la) ==> Packed(a[..Cut(a, la)] + b[..i], Cut(a, la) + i - 1)
    ensures Join(a[..Cut(a, la)] + b[..i]) == Join(a) + Join(b[..i])
  {
    assert b[..i][i - 1] == b[i - 1];
    AppendSegs(a, la, b[..i], i - 1);
  }

  lemma BehindHasData(a: Segs, la: nat, b: Segs, lb: nat, i: nat)
    requires LastData(a, la) && LastData(b, lb) && Packed(b, lb) && 0 < i <= lb
    ensures forall k :: la < k < Cut(a, la) + i ==> (a[..Cut(a, la)] + b[..i])[k] != []
  {
    var cut := Cut(a, la);
    var ab := a[..cut] + b[..i];
    assert forall k :: cut <= k < |ab| ==> ab[k] == b[k - cut];
  }

  /** Chains i and up, with their data, once nothing is linked in front of them. */
  lemma DropFront(cs: seq<Chain>, segs: Segs, lwd: nat, i: nat)
    requires Distinct(cs) && Data(cs, segs) && LastData(segs, lwd) && Packed(segs, lwd) && 0 < i <= lwd
    ensures Distinct(cs[i..]) && Data(cs[i..], segs[i..])
    ensures LastData(segs[i..], lwd - i) && Packed(segs[i..], lwd - i)
    ensures |Join(segs)| == |Join(segs[..i])| + |Join(segs[i..])|
  {
    JoinSplit(segs, i);
    assert forall k :: 0 <= k < |segs| - i ==> segs[i..][k] == segs[i + k];
  }

  lemma MoveData(a: seq<Chain>, sa: Segs, cut: nat, b: seq<Chain>, sb: Segs, i: nat)
    requires Data(a, sa) && Data(b, sb) && cut <= |a| && i <= |b|
    ensures Data(a[..cut] + b[..i], sa[..cut] + sb[..i])
  {
    assert b[..i] == b[0..i] && sb[..i] == sb[0..i];
    DataSlice(b, sb, 0, i);
    DataTakeConcat(a, sa, cut, b[..i], sb[..i]);
  }

  /** Where advance_last_with_data stops when started at chain k: before the first empty chain. */
  ghost function Advanced(segs: Segs, k: nat): (j: nat)
    requires k < |segs|
    ensures k <= j < |segs|
    ensures forall i :: k < i <= j ==> segs[i] != []
    ensures j + 1 < |segs| ==> segs[j + 1] == []
    decreases |segs| - k
  {
    if k + 1 < |segs| && segs[k + 1] != [] then Advanced(segs, k + 1) else k
  }

  lemma DataSize(cs: seq<Chain>, segs: Segs)
    requires Data(cs, segs)
    ensures |cs| == |segs|
  {
  }

  /** One step of the walk, seen from chain j. */
  lemma AdvancedStep(cs: seq<Chain>, segs: Segs, j: nat)
    requires Link(cs) && Data(cs, segs) && j < |cs|
    ensures if cs[j].next != null && cs[j].next.off != 0
            then j + 1 < |cs| && cs[j].next == cs[j + 1] && Advanced(segs, j + 1) == Advanced(segs, j)
            else Advanced(segs, j) == j
  {
    if j + 1 < |cs| { assert cs[j + 1].Holds(segs[j + 1]); }
  }

  /** It finds the last chain with data exactly when no empty chain lies on the way. */
  lemma AdvancedFindsLast(segs: Segs, k: nat, lwd: nat)
    requires LastData(segs, lwd) && k <= lwd < |segs|
    ensures Advanced(segs, k) == lwd <==> forall i :: k < i <= lwd ==> segs[i] != []
  {
    var j := Advanced(segs, k);
    assert j == k || segs[j] != [];
    assert j >= lwd || segs[j + 1] == [];
  }

  /** A hole between two chains with data hides the second one. */
  lemma HoleHidesData(a: seq<Byte>, b: seq<Byte>)
    requires a != [] && b != []
    ensures LastData([a, [], b], 2) && !Packed([a, [], b], 2) && Advanced([a, [], b], 0) == 0
  {
    assert [a, [], b][1] == [];
  }

  /**
   * A chain with bytes put in front leaves the slot one further on: right exactly when the buffer
   * held data, so an empty read-only chain alone in its buffer would make the slot wrong.
   */
  lemma PrependedSlot(segs: Segs, lwd: nat, d: seq<Byte>)
    requires LastData(segs, lwd) && segs != []
    ensures LastData([d] + segs, lwd + 1) <==> segs[lwd] != []
  {
    var t := [d] + segs;
    assert t[lwd + 1] == segs[lwd];
    forall i | lwd + 1 < i < |t| ensures t[i] == [] { assert t[i] == segs[i - 1]; }
  }

  // ---- evbuffer_pullup ----

  /** The first `i` segments and `n` bytes of the next gathered into one of `size` bytes. */
  lemma GatherSegs(segs: Segs, lwd: nat, i: nat, n: nat, size: nat)
    requires LastData(segs, lwd) && i < |segs| && n < |segs[i]|
    requires 0 < size == |Join(segs[..i])| + n <= |Join(segs)|
    ensures i <= lwd < |segs| && Join(segs)[..size] == Join(segs[..i]) + segs[i][..n]
    ensures var t := [Join(segs)[..size]] + segs[i..][0 := segs[i][n..]];
      && LastData(t, lwd - i + 1) && Join(t) == Join(segs)
      && (Packed(segs, lwd) ==> Packed(t, lwd - i + 1))
  {
    DropSegs(segs, lwd, i, n);
    JoinInto(segs, i, n);
    var d, u := Join(segs)[..size], segs[i..][0 := segs[i][n..]];
    assert u[lwd - i] != [];
    PrependSeg(u, lwd - i, d);
    assert Join(segs)[..size] + Join(segs)[size..] == Join(segs);
  }

  lemma DropData(cs: seq<Chain>, segs: Segs, i: nat)
    requires Data(cs, segs) && i <= |cs|
    ensures |segs| == |cs| && Data(cs[i..], segs[i..])
  {
  }

  lemma TailData(cs: seq<Chain>, segs: Segs, i: nat)
    requires i < |cs| == |segs| && Data(cs[i..], segs[i..])
    ensures cs[i].Holds(segs[i]) && Data(cs[i + 1..], segs[i + 1..])
  {
    assert cs[i..][0].Holds(segs[i..][0]);
    assert cs[i..][1..] == cs[i + 1..] && segs[i..][1..] == segs[i + 1..];
    DropData(cs[i..], segs[i..], 1);
  }

  /** The chain being filled is not among those still to be copied. */
  lemma NotAhead(cs: seq<Chain>, tmp: Chain, s: nat, i: nat)
    requires Distinct(cs) && s <= i < |cs| && s <= 1 && (if s == 0 then tmp !in cs else tmp == cs[0])
    ensures tmp != cs[i] && tmp !in cs[i..] && tmp !in cs[i + 1..]
  {
  }

  /** Copies chain i behind what `tmp` gathered so far and returns the chain after it. */
  method PullOne(tmp: Chain, chain: Chain, ghost cs: seq<Chain>, ghost segs: Segs, ghost s: nat, ghost i: nat)
    returns (next: Chain?)
    requires s <= i < |cs| == |segs| && s <= 1 && chain == cs[i]
    requires Data(cs[i..], segs[i..]) && Distinct(cs) && Link(cs)
    requires if s == 0 then tmp !in cs else tmp == cs[0]
    requires !tmp.immutable && tmp.Holds(Join(segs[..i])) && chain.off <= tmp.SpaceLen()
    modifies tmp`off, tmp`buffer
    ensures next == if i + 1 < |cs| then cs[i + 1] else null
    ensures old(chain.off) == |segs[i]| && |Join(segs[..i + 1])| == |Join(segs[..i])| + |segs[i]|
    ensures tmp.Holds(Join(segs[..i + 1])) && |tmp.buffer| == old(|tmp.buffer|)
    ensures Data(cs[i + 1..], segs[i + 1..])
  {
    hide Join, Data, Distinct, Link;
    TailData(cs, segs, i);
    NotAhead(cs, tmp, s, i);
    LinkAt(cs, i);
    JoinTake(segs, i);
    tmp.Put(chain.buffer[chain.misalign..chain.misalign + chain.off], Join(segs[..i]));
    next := chain.next;
  }

  lemma LastInside(segs: Segs, lwd: nat)
    requires LastData(segs, lwd) && 0 < lwd
    ensures lwd < |segs|
  {
  }

  /**
   * The copying loop of evbuffer_pullup: takes whole chains, from chain s on, into
   * `tmp` until at most a part of one more is needed, and notes whether the last
   * chain with data, or the one before it, was among them.
   */
  method PullWhole(tmp: Chain, start: Chain?, size: nat, owner: Chain, lastWithData: Chain,
                   ghost cs: seq<Chain>, ghost segs: Segs, ghost lwd: nat, ghost s: nat)
    returns (chain: Chain?, left: nat, removedLast: bool, removedOwner: bool, ghost i: nat)
    requires s <= 1 && s <= |cs| == |segs| && |Join(segs[..s])| <= size
    requires Data(cs[s..], segs[s..]) && Distinct(cs) && Link(cs)
    requires 0 < lwd < |cs| && owner == cs[lwd - 1] && lastWithData == cs[lwd]
    requires start == if s < |cs| then cs[s] else null
    requires if s == 0 then tmp !in cs else tmp == cs[0]
    requires !tmp.immutable && tmp.Holds(Join(segs[..s])) && |tmp.buffer| - tmp.misalign >= size
    modifies tmp`off, tmp`buffer
    ensures s <= i <= |cs| && chain == (if i < |cs| then cs[i] else null)
    ensures left + |Join(segs[..i])| == size && (i < |cs| ==> left < |segs[i]|)
    ensures tmp.Holds(Join(segs[..i])) && |tmp.buffer| - tmp.misalign >= size
    ensures Data(cs[i..], segs[i..])
    ensures (removedLast <==> lwd < i) && (removedOwner <==> s <= lwd - 1 < i)
  {
    hide Join, Distinct, Data, Link;
    i, chain, removedLast, removedOwner := s, start, false, false;
    left := size - tmp.off;
    while chain != null && left >= chain.off
      invariant s <= i <= |cs| && chain == if i < |cs| then cs[i] else null
      invariant left + |Join(segs[..i])| == size
      invariant tmp.Holds(Join(segs[..i])) && |tmp.buffer| - tmp.misalign >= size
      invariant Data(cs[i..], segs[i..])
      invariant (removedLast <==> lwd < i) && (removedOwner <==> s <= lwd - 1 < i)
      decreases |cs| - i
    {
      DistinctAt(cs, i, lwd);
      DistinctAt(cs, i, lwd - 1);
      removedLast := removedLast || chain == lastWithData;
      removedOwner := removedOwner || chain == owner;
      left := left - chain.off;
      chain := PullOne(tmp, chain, cs, segs, s, i);
      i := i + 1;
    }
    if i < |cs| { TailData(cs, segs, i); }
  }

  lemma UpToLast(segs: Segs, lwd: nat, i: nat)
    requires LastData(segs, lwd) && i < |segs| && segs[i] != []
    ensures i <= lwd
  {
  }

  /** More data than the first segment holds: there is a later one. */
  lemma BeyondFirst(segs: Segs, lwd: nat)
    requires LastData(segs, lwd) && segs != [] && |segs[0]| < |Join(segs)|
    ensures 0 < lwd < |segs|
  {
    JoinDrop(segs, 0);
    if lwd == 0 { JoinEmpties(segs[1..]); }
  }
}
