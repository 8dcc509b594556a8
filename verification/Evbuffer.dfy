/**
 * The evbuffer of buffer.c: a byte queue kept as a linked list of chains, with
 * cached pointers to its last chain and to the slot holding the last chain
 * with data, and a cached length.
 */
module Evbuffers {
  import opened Wrappers
  import opened Flat
  import opened Chains

  const MAX_AUTO_SIZE: nat := 4096

  /** The list as values: its nodes, their bytes, and which is the last with data. */
  datatype View = View(chains: seq<Chain>, segs: Segs, lwd: nat)

  class Evbuffer {
    var first: Chain?
    var last: Chain?
    /** The chain whose `next` field `last_with_datap` points at; null stands for `&first`. */
    var lastWithDataOwner: Chain?
    var totalLen: nat
    var freezeStart: bool
    var freezeEnd: bool
    ghost var view: View

    /** The pointers cached in the header agree with `v`. */
    ghost predicate Ends(v: View)
      reads this`first, this`last, this`lastWithDataOwner
    {
      && |v.segs| == |v.chains|
      && first == (if v.chains == [] then null else v.chains[0])
      && last == (if v.chains == [] then null else v.chains[|v.chains| - 1])
      && LastData(v.segs, v.lwd)
      && lastWithDataOwner == (if v.lwd == 0 then null else v.chains[v.lwd - 1])
    }

    /** The invariant stated in evbuffer-internal.h, but for the cached length. */
    ghost predicate Shape()
      reads this, view.chains
    {
      Ends(view) && Distinct(view.chains) && Link(view.chains) && Data(view.chains, view.segs)
    }

    /** The cached length, a 32-bit number, is the number of bytes. */
    ghost predicate Counted()
      reads this`totalLen, this`view
    {
      totalLen == |Join(view.segs)| <= SIZE_MAX
    }

    /** The invariant stated in evbuffer-internal.h. */
    ghost predicate Valid()
      reads this, view.chains
    {
      Shape() && Counted()
    }

    /** The byte string the buffer stands for. */
    ghost function Contents(): (s: seq<Byte>)
      reads this`view
    {
      Join(view.segs)
    }

    /** No empty chain comes before the last chain with data. */
    ghost predicate NoHoles()
      reads this`view
    {
      Packed(view.segs, view.lwd)
    }

    constructor ()
      ensures Valid() && Contents() == [] && view == View([], [], 0)
      ensures !freezeStart && !freezeEnd
    {
      first, last, lastWithDataOwner, totalLen := null, null, null, 0;
      freezeStart, freezeEnd := false, false;
      view := View([], [], 0);
    }

    // ---- pointer plumbing ----

    /** Sets all cached fields at once. */
    method Install(f: Chain?, l: Chain?, owner: Chain?, total: nat, ghost v: View)
      modifies this`first, this`last, this`lastWithDataOwner, this`totalLen, this`view
      ensures first == f && last == l && lastWithDataOwner == owner && totalLen == total && view == v
    {
      first, last, lastWithDataOwner, totalLen, view := f, l, owner, total, v;
    }

    /** The same for a view that is in order. */
    method Adopt(f: Chain?, l: Chain?, owner: Chain?, total: nat, ghost v: View)
      requires |v.segs| == |v.chains| && v.chains != [] && f == v.chains[0] && l == v.chains[|v.chains| - 1]
      requires LastData(v.segs, v.lwd) && owner == if v.lwd == 0 then null else v.chains[v.lwd - 1]
      requires Distinct(v.chains) && Link(v.chains) && Data(v.chains, v.segs)
      modifies this`first, this`last, this`lastWithDataOwner, this`totalLen, this`view
      ensures Shape() && view == v && totalLen == total
    {
      hide Link, Data, Distinct, LastData;
      Install(f, l, owner, total, v);
    }

    /** `*slot = c`, where the slot is `owner.next` or `first`: the list `a` is continued by `b`. */
    method SetSlot(owner: Chain?, c: Chain?, ghost a: seq<Chain>, ghost b: seq<Chain>)
      requires Link(a) && Link(b) && Distinct(a + b)
      requires owner == if a == [] then null else a[|a| - 1]
      requires c == if b == [] then null else b[0]
      modifies this`first, (if owner == null then {} else {owner})`next
      ensures Link(a + b)
      ensures first == if a == [] then c else old(first)
    {
      ghost var ab := a + b;
      assert forall i :: 0 <= i < |a| ==> ab[i] == a[i];
      assert forall i :: 0 <= i < |b| ==> ab[|a| + i] == b[i];
      if owner == null { first := c; } else { owner.next := c; }
    }

    /** `*last_with_datap` */
    method LastWithData() returns (c: Chain?)
      requires Shape()
      ensures c == if view.chains == [] then null else view.chains[view.lwd]
    {
      hide Join, Distinct, Data;
      c := if lastWithDataOwner == null then first else lastWithDataOwner.next;
    }

    /** evbuffer_free_trailing_empty_chains: returns the owner of the slot where the next chain goes. */
    method FreeTrailingEmptyChains() returns (owner: Chain?)
      requires Shape()
      modifies this`first, view.chains`next
      ensures var cut := Cut(view.segs, view.lwd);
        && owner == (if cut == 0 then null else view.chains[cut - 1])
        && Link(view.chains[..cut])
        && first == if cut == 0 then null else old(first)
    {
      hide Join, Distinct, Data, Link;
      ghost var cs, cut := view.chains, Cut(view.segs, view.lwd);
      var c;
      owner, c := TrailingSlot();
      if c == null {
        assert cs[..cut] == cs;
      } else if owner == null {
        first := null;
        LinkNil(cs[..0]);
      } else {
        Terminate(owner, cs, cut);
      }
    }

    /** The slot behind the last data, and the first of the empty chains there. */
    method TrailingSlot() returns (owner: Chain?, c: Chain?)
      requires Shape()
      ensures var cut := Cut(view.segs, view.lwd);
        && owner == (if cut == 0 then null else view.chains[cut - 1])
        && c == (if cut < |view.chains| then view.chains[cut] else null)
    {
      hide Join, Distinct, Data, Link;
      ghost var cs, segs, cut := view.chains, view.segs, view.lwd;
      owner := lastWithDataOwner;
      c := LastWithData();
      if cs != [] { DataAt(cs, segs, cut); }
      while c != null && c.off != 0
        invariant cut <= |cs| && (cut == view.lwd || (cut == view.lwd + 1 && segs[view.lwd] != []))
        invariant owner == if cut == 0 then null else cs[cut - 1]
        invariant c == if cut < |cs| then cs[cut] else null
        invariant c != null ==> c.Holds(segs[cut])
        decreases |cs| - cut
      {
        LinkAt(cs, cut);
        owner, c, cut := c, c.next, cut + 1;
        if cut < |cs| { DataAt(cs, segs, cut); }
      }
    }

    /** Puts the list `b`, whose head is `c`, where the trailing empty chains were. */
    method ReplaceTrailing(c: Chain?, ghost b: seq<Chain>) returns (owner: Chain?)
      requires Shape() && Link(b) && Distinct(b) && Apart(view.chains, b)
      requires c == if b == [] then null else b[0]
      modifies this`first, view.chains`next
      ensures var cut := Cut(view.segs, view.lwd);
        && owner == (if cut == 0 then null else view.chains[cut - 1])
        && Link(view.chains[..cut] + b) && Distinct(view.chains[..cut] + b)
        && first == if cut == 0 then c else old(first)
    {
      hide Join, Link, Data, Distinct;
      ghost var cs, cut := view.chains, Cut(view.segs, view.lwd);
      DistinctTake(cs, cut, b);
      owner := FreeTrailingEmptyChains();
      SetSlot(owner, c, cs[..cut], b);
    }

    /** evbuffer_chain_insert: `chain` replaces the trailing empty chains. */
    method ChainInsert(chain: Chain, ghost d: seq<Byte>)
      requires Shape()
      requires chain.next == null && chain !in view.chains && chain.Holds(d)
      modifies this`first, this`last, this`lastWithDataOwner, this`totalLen, this`view, view.chains`next
      ensures Shape() && totalLen == Mod32(old(totalLen) + |d|)
      ensures var cut := old(Cut(view.segs, view.lwd));
        && view.chains == old(view.chains)[..cut] + [chain]
        && view.segs == old(view.segs)[..cut] + [d]
        && view.lwd == if d != [] then cut else old(view.lwd)
      ensures Contents() == old(Contents()) + d
      ensures old(NoHoles()) ==> NoHoles()
    {
      hide Distinct, Join, Link, Data, Packed, Apart, Mod32;
      ghost var cs, segs, cut := view.chains, view.segs, Cut(view.segs, view.lwd);
      ghost var lwd := AppendSeg(segs, view.lwd, d);
      ghost var v := View(cs[..cut] + [chain], segs[..cut] + [d], lwd);
      ListOfOne(chain, cs);
      var owner := ReplaceTrailing(chain, [chain]);
      Install(first, chain, if chain.off != 0 then owner else lastWithDataOwner, Mod32(totalLen + chain.off), v);
      DataAppend(cs, segs, cut, chain, d);
    }

    // ---- evbuffer_add ----

    /** Copies `data` into the room of the last chain with data. */
    method FillLast(chain: Chain, data: seq<Byte>)
      requires Shape() && view.chains != [] && chain == view.chains[view.lwd]
      requires !chain.immutable && |data| <= chain.SpaceLen()
      modifies this`totalLen, this`view, chain`off, chain`buffer
      ensures Shape() && totalLen == old(totalLen) + |data|
      ensures view == old(view.(segs := view.segs[view.lwd := view.segs[view.lwd] + data]))
      ensures Contents() == old(Contents()) + data
      ensures chain.SpaceLen() == old(chain.SpaceLen()) - |data| && |chain.buffer| == old(|chain.buffer|)
      ensures old(NoHoles()) ==> NoHoles()
    {
      hide Join, Link, Data, Distinct;
      ghost var segs, lwd := view.segs, view.lwd;
      ExtendLast(segs, lwd, data);
      DataApart(view.chains, segs, lwd);
      chain.Put(data, segs[lwd]);
      DataUpdate(view.chains, segs, lwd, segs[lwd] + data);
      totalLen := totalLen + |data|;
      view := view.(segs := segs[lwd := segs[lwd] + data]);
    }

    /** Moves the bytes of one chain to the start of its block; nothing visible changes. */
    method Realign(chain: Chain, ghost i: nat)
      requires Shape() && i < |view.chains| && chain == view.chains[i] && !chain.immutable
      modifies chain`misalign, chain`buffer
      ensures Shape() && chain.misalign == 0 && |chain.buffer| == old(|chain.buffer|)
    {
      hide Join, Link, LastData;
      chain.Align(view.segs[i]);
    }

    /** A first chain for an empty list. */
    method FirstChain(size: nat) returns (chain: Chain)
      requires Shape() && view.chains == [] && totalLen <= SIZE_MAX
      modifies this`first, this`last, this`lastWithDataOwner, this`totalLen, this`view
      ensures Shape() && totalLen == old(totalLen) && fresh(chain) && view == View([chain], [[]], 0)
      ensures Contents() == old(Contents()) && !chain.immutable && |chain.buffer| >= size && chain.SpaceLen() >= size
    {
      hide Mod32;
      chain := new Chain(size);
      ChainInsert(chain, []);
      JoinOne([]);
    }

    /** A new chain holding `data` behind everything else. */
    method AppendChain(data: seq<Byte>, capacity: nat)
      requires Shape() && |data| <= capacity && totalLen + |data| <= SIZE_MAX
      modifies this`first, this`last, this`lastWithDataOwner, this`totalLen, this`view, view.chains`next
      ensures Shape() && totalLen == old(totalLen) + |data| && Contents() == old(Contents()) + data
      ensures NewChains(old(view.chains), view.chains)
      ensures old(NoHoles()) ==> NoHoles()
    {
      hide Join, Link, Distinct, Data, Packed, LastData, Mod32;
      var tmp := new Chain(capacity);
      tmp.Put(data, []);
      assert [] + data == data;
      ChainInsert(tmp, data);
    }

    /** The rest of evbuffer_add once a chain to start with is known. */
    method AddFrom(chain: Chain, data: seq<Byte>)
      requires Shape() && totalLen + |data| <= SIZE_MAX && view.chains != [] && chain == view.chains[view.lwd]
      modifies this`first, this`last, this`lastWithDataOwner, this`totalLen, this`view, view.chains
      ensures Shape() && totalLen == old(totalLen) + |data| && NewChains(old(view.chains), view.chains)
      ensures Contents() == old(Contents()) + data
      ensures old(NoHoles()) ==> NoHoles()
    {
      hide Join, Link, Distinct, Data, Packed, Mod32;
      DataAt(view.chains, view.segs, view.lwd);
      var remain := 0;
      if !chain.immutable {
        remain := |chain.buffer| - chain.misalign - chain.off;
        if remain >= |data| {
          FillLast(chain, data);
          return;
        } else if chain.ShouldRealign(|data|) {
          Realign(chain, view.lwd);
          FillLast(chain, data);
          return;
        }
      }
      var toAlloc := |chain.buffer|;
      if toAlloc <= MAX_AUTO_SIZE / 2 { toAlloc := toAlloc * 2; }
      if |data| > toAlloc { toAlloc := |data|; }
      if remain > 0 {
        FillLast(chain, data[..remain]);
      }
      AppendChain(data[remain..], toAlloc);
      assert data == data[..remain] + data[remain..];
    }

    /** evbuffer_add */
    method Add(data: seq<Byte>) returns (result: int)
      requires Shape() && totalLen <= SIZE_MAX
      modifies this`first, this`last, this`lastWithDataOwner, this`totalLen, this`view, view.chains
      ensures Shape() && (old(Valid()) ==> Valid()) && NewChains(old(view.chains), view.chains)
      ensures result == if freezeEnd || old(totalLen) + |data| > SIZE_MAX then -1 else 0
      ensures totalLen == if result == 0 then old(totalLen) + |data| else old(totalLen)
      ensures Contents() == if result == 0 then old(Contents()) + data else old(Contents())
      ensures old(NoHoles()) ==> NoHoles()
    {
      hide Join, Link, Distinct, Data, Mod32;
      if freezeEnd || |data| + totalLen > SIZE_MAX {
        return -1;
      }
      var chain := LastWithData();
      if chain == null {
        chain := FirstChain(|data|);
      }
      AddFrom(chain, data);
      result := 0;
    }

    /** evbuffer_add_reference: a read-only chain over the caller's memory. */
    method AddReference(data: seq<Byte>) returns (result: int)
      requires Valid() && data != []
      modifies this`first, this`last, this`lastWithDataOwner, this`totalLen, this`view, view.chains`next
      ensures Shape() && NewChains(old(view.chains), view.chains)
      ensures Valid() <==> result == -1 || old(totalLen) + |data| <= SIZE_MAX
      ensures totalLen == if result == 0 then Mod32(old(totalLen) + |data|) else old(totalLen)
      ensures result == if freezeEnd then -1 else 0
      ensures Contents() == if result == 0 then old(Contents()) + data else old(Contents())
      ensures result == 0 ==> view.segs == old(view.segs[..Cut(view.segs, view.lwd)]) + [data]
      ensures old(NoHoles()) ==> NoHoles()
    {
      hide Join, Link, Distinct, Data, Packed, LastData, Mod32;
      if freezeEnd {
        return -1;
      }
      var chain := new Chain.Reference(data);
      ChainInsert(chain, data);
      result := 0;
    }

    // ---- evbuffer_prepend ----

    /** Copies `data` into the room in front of the first chain's bytes. */
    method FillFirst(chain: Chain, data: seq<Byte>)
      requires Valid() && totalLen + |data| <= SIZE_MAX && view.chains != [] && chain == view.chains[0]
      requires !chain.immutable && |data| <= chain.misalign
      modifies this`totalLen, this`view, chain`off, chain`misalign, chain`buffer
      ensures Valid()
      ensures view == old(view.(segs := view.segs[0 := data + view.segs[0]]))
      ensures Contents() == data + old(Contents())
      ensures chain.misalign == old(chain.misalign) - |data|
      ensures old(NoHoles()) ==> NoHoles()
    {
      hide Join, Link, Data, Distinct;
      ghost var segs := view.segs;
      ExtendFirst(segs, view.lwd, data);
      DataApart(view.chains, segs, 0);
      chain.PutFront(data, segs[0]);
      DataUpdate(view.chains, segs, 0, data + segs[0]);
      totalLen := totalLen + |data|;
      view := view.(segs := segs[0 := data + segs[0]]);
    }

    /** An empty first chain is treated as empty at the beginning. */
    method RoomInFront(chain: Chain)
      requires Valid() && view.chains != [] && chain == view.chains[0] && !chain.immutable && chain.off == 0
      modifies chain`misalign
      ensures Valid() && chain.misalign == |chain.buffer| && chain.misalign > 0
    {
      hide Join, Link, LastData;
      DataAt(view.chains, view.segs, 0);
      chain.RoomInFront();
    }

    /** A new chain in front of a list that holds data. */
    method PushFront(tmp: Chain, ghost d: seq<Byte>)
      requires Valid() && totalLen + |d| <= SIZE_MAX && view.chains != [] && view.segs[view.lwd] != []
      requires tmp !in view.chains && tmp.Holds(d)
      modifies this`first, this`last, this`lastWithDataOwner, this`totalLen, this`view, tmp`next
      ensures Valid()
      ensures view == View([tmp] + old(view.chains), [d] + old(view.segs), old(view.lwd) + 1)
      ensures Contents() == d + old(Contents())
      ensures NoHoles() <==> d != [] && old(NoHoles())
    {
      hide Join, Data, Packed;
      ghost var cs, segs, lwd := view.chains, view.segs, view.lwd;
      PrependSeg(segs, lwd, d);
      DistinctCons(tmp, cs);
      tmp.next := first;
      assert Link([tmp] + cs);
      Install(tmp, last, if lastWithDataOwner == null then tmp else lastWithDataOwner, totalLen + tmp.off,
              View([tmp] + cs, [d] + segs, lwd + 1));
      DataCons(tmp, d, cs, segs);
    }

    method PrependChain(data: seq<Byte>)
      requires Valid() && totalLen + |data| <= SIZE_MAX && view.chains != [] && view.segs[view.lwd] != []
      modifies this`first, this`last, this`lastWithDataOwner, this`totalLen, this`view
      ensures Valid() && NewChains(old(view.chains), view.chains)
      ensures Contents() == data + old(Contents())
      ensures NoHoles() <==> data != [] && old(NoHoles())
    {
      hide Join, Link, Distinct, Data, Packed, LastData;
      var tmp := new Chain(|data|);
      tmp.RoomInFront();
      tmp.PutFront(data, []);
      assert data + [] == data;
      PushFront(tmp, data);
    }

    /** evbuffer_prepend */
    method Prepend(data: seq<Byte>) returns (result: int)
      requires Valid()
      modifies this`first, this`last, this`lastWithDataOwner, this`totalLen, this`view, view.chains
      ensures Valid() && NewChains(old(view.chains), view.chains)
      ensures result == if freezeStart || old(totalLen) + |data| > SIZE_MAX then -1 else 0
      ensures Contents() == if result == 0 then data + old(Contents()) else old(Contents())
      ensures old(NoHoles()) ==>
        (NoHoles() <==> result == -1 || data != [] || old(first) == null || !old(first).immutable)
    {
      hide Join, Link, Distinct, Data;
      if freezeStart || |data| + totalLen > SIZE_MAX {
        return -1;
      }
      var chain := first;
      if chain == null {
        chain := FirstChain(|data|);
      }
      PrependFrom(chain, data);
      result := 0;
    }

    method PrependFrom(chain: Chain, data: seq<Byte>)
      requires Valid() && totalLen + |data| <= SIZE_MAX && view.chains != [] && chain == view.chains[0]
      modifies this`first, this`last, this`lastWithDataOwner, this`totalLen, this`view, view.chains
      ensures Valid() && NewChains(old(view.chains), view.chains)
      ensures Contents() == data + old(Contents())
      ensures old(NoHoles()) ==> (NoHoles() <==> data != [] || !chain.immutable)
    {
      hide Join, Link, Distinct, Data, Packed;
      DataAt(view.chains, view.segs, 0);
      var datlen := |data|;
      if !chain.immutable {
        if chain.off == 0 {
          RoomInFront(chain);
        }
        if chain.misalign >= datlen {
          FillFirst(chain, data);
          return;
        } else if chain.misalign > 0 {
          datlen := datlen - chain.misalign;
          FillFirst(chain, data[datlen..]);
        }
      }
      PrependChain(data[..datlen]);
      assert data == data[..datlen] + data[datlen..];
    }

    // ---- evbuffer_drain, evbuffer_copyout, evbuffer_remove ----

    /** ZERO_CHAIN */
    method ZeroChain()
      modifies this`first, this`last, this`lastWithDataOwner, this`totalLen, this`view
      ensures Valid() && view == View([], [], 0) && Contents() == []
    {
      Install(null, null, null, 0, View([], [], 0));
    }

    /** The list now starts at chain i, without the first `n` bytes of that chain. */
    method StartAt(chain: Chain, n: nat, ghost i: nat)
      requires var v := view;
        && i < |v.chains| == |v.segs| && chain == v.chains[i] && n < |v.segs[i]|
        && Distinct(v.chains) && Link(v.chains) && Data(v.chains, v.segs) && LastData(v.segs, v.lwd)
        && last == v.chains[|v.chains| - 1]
        && lastWithDataOwner == (if v.lwd > i then v.chains[v.lwd - 1] else null)
        && totalLen == |Join(v.segs)| - |Join(v.segs[..i])| - n <= SIZE_MAX
      modifies this`first, this`view, chain`misalign, chain`off
      ensures Valid() && i <= old(view.lwd)
      ensures view == old(View(view.chains[i..], view.segs[i..][0 := view.segs[i][n..]], view.lwd - i))
      ensures Contents() == old(Contents()[|Join(view.segs[..i])| + n..])
      ensures old(NoHoles()) ==> NoHoles()
    {
      hide Join, Link, Distinct, Data, Packed, LastData;
      ghost var cs, segs := view.chains, view.segs;
      DropSegs(segs, view.lwd, i, n);
      SkipAt(cs, chain, n, segs, i);
      TailOf(cs, segs, i, segs[i][n..]);
      first := chain;
      view := View(cs[i..], segs[i..][0 := segs[i][n..]], view.lwd - i);
    }

    /** evbuffer_drain */
    method Drain(len: nat) returns (result: int)
      requires Valid()
      modifies this`first, this`last, this`lastWithDataOwner, this`totalLen, this`view, view.chains
      ensures Valid() && NewChains(old(view.chains), view.chains)
      ensures result == if old(totalLen) > 0 && freezeStart then -1 else 0
      ensures Contents() == if result == -1 then old(Contents())
                            else if len >= |old(Contents())| then [] else old(Contents())[len..]
      ensures old(NoHoles()) ==> NoHoles()
    {
      hide Join, Distinct, Data, Link;
      if totalLen == 0 {
        return 0;
      }
      if freezeStart {
        return -1;
      }
      if len >= totalLen {
        ZeroChain();
      } else {
        DrainSome(len);
      }
      result := 0;
    }

    method DrainSome(len: nat)
      requires Valid() && len < totalLen
      modifies this`first, this`last, this`lastWithDataOwner, this`totalLen, this`view, view.chains
      ensures Valid() && NewChains(old(view.chains), view.chains)
      ensures Contents() == old(Contents())[len..]
      ensures old(NoHoles()) ==> NoHoles()
    {
      hide Join, Distinct, Data, Packed, Link, LastData;
      var chain, remaining;
      ghost var i;
      chain, remaining, i := PassChains(len);
      totalLen := totalLen - len;
      StartAt(chain, remaining, i);
    }

    /** The loop of evbuffer_drain, which frees whole chains. */
    method PassChains(len: nat) returns (chain: Chain, remaining: nat, ghost i: nat)
      requires Valid() && len < totalLen
      modifies this`lastWithDataOwner
      ensures i < |view.chains| && chain == view.chains[i] && remaining < |view.segs[i]|
      ensures |Join(view.segs[..i])| + remaining == len
      ensures lastWithDataOwner == if view.lwd > i then view.chains[view.lwd - 1] else null
    {
      hide Join, Distinct, Data, Packed;
      ghost var cs, segs, lwd := view.chains, view.segs, view.lwd;
      JoinNil();
      remaining, chain, i := len, first, 0;
      assert segs[..0] == [];
      DataAt(cs, segs, 0);
      while remaining >= chain.off
        invariant i < |cs| && chain == cs[i] && chain.Holds(segs[i])
        invariant |Join(segs[..i])| + remaining == len
        invariant lastWithDataOwner == if lwd > i then cs[lwd - 1] else null
        decreases |cs| - i
      {
        JoinTake(segs, i);
        StillInside(segs, lwd, i, len);
        DistinctAt(cs, i, lwd);
        DistinctAt(cs, i, lwd - 1);
        var next := chain.next;
        remaining := remaining - chain.off;
        var withData := if lastWithDataOwner == null then first else lastWithDataOwner.next;
        lastWithDataOwner := if chain == withData || lastWithDataOwner == chain then null else lastWithDataOwner;
        chain := next;
        i := i + 1;
        DataAt(cs, segs, i);
      }
    }

    /** evbuffer_copyout: the first `datlen` bytes, or all there are. */
    method CopyOut(datlen: nat) returns (result: int, data: seq<Byte>)
      requires Valid()
      ensures var n := Min(datlen, totalLen);
        if n > 0 && freezeStart then result == -1 && data == []
        else result == Signed(n) && data == Contents()[..n]
    {
      hide Join, Shape;
      var left := if datlen > totalLen then totalLen else datlen;
      if left == 0 {
        return 0, [];
      }
      if freezeStart {
        return -1, [];
      }
      data := CopyFirst(left);
      result := Signed(left);
    }

    /** Its loop. */
    method CopyFirst(n: nat) returns (data: seq<Byte>)
      requires Valid() && n <= totalLen
      ensures data == Contents()[..n]
    {
      hide Join, Distinct, Data, LastData;
      ghost var cs, segs, i := view.chains, view.segs, 0;
      var chain, left := first, n;
      data := [];
      JoinNil();
      assert segs[..0] == [];
      while left > 0 && left >= chain.off
        invariant i <= |cs| && n <= |Join(segs)|
        invariant chain == if i < |cs| then cs[i] else null
        invariant data == Join(segs[..i]) && |data| + left == n && left >= 0
        invariant left > 0 ==> chain != null
        decreases |cs| - i
      {
        DataAt(cs, segs, i);
        JoinTake(segs, i);
        data := data + chain.buffer[chain.misalign..chain.misalign + chain.off];
        left := left - chain.off;
        chain := chain.next;
        i := i + 1;
        if i == |cs| { assert segs[..i] == segs; }
      }
      if left > 0 {
        DataAt(cs, segs, i);
        JoinInto(segs, i, left);
        SliceSlice(chain.buffer, chain.misalign, chain.misalign + chain.off, 0, left);
        data := data + chain.buffer[chain.misalign..chain.misalign + left];
      } else {
        JoinPrefix(segs, i);
      }
    }

    /** evbuffer_remove */
    method Remove(datlen: nat) returns (result: int, data: seq<Byte>)
      requires Valid()
      modifies this`first, this`last, this`lastWithDataOwner, this`totalLen, this`view, view.chains
      ensures Valid() && NewChains(old(view.chains), view.chains)
      ensures var c, n := old(Contents()), Min(datlen, old(totalLen));
        if n > 0 && freezeStart then result == -1 && data == [] && Contents() == c
        else result == Signed(n) && data == c[..n] && Contents() == if n <= SSIZE_MAX then c[n..] else c
      ensures old(NoHoles()) ==> NoHoles()
    {
      hide Join, Distinct, Data, Link, Packed;
      result, data := CopyOut(datlen);
      if result > 0 {
        var r := Drain(result);
      }
    }

    // ---- moving whole buffers ----

    /** COPY_CHAIN: an empty buffer gets the list of `src`. */
    method TakeOver(src: Evbuffer)
      requires Valid() && src.Valid() && totalLen == 0 && src != this
      modifies this`first, this`last, this`lastWithDataOwner, this`totalLen, this`view
      ensures Valid() && view == src.view && totalLen == src.totalLen && old(Contents()) == []
    {
      hide Join, Link, Data, Distinct, LastData;
      Install(src.first, src.last, src.lastWithDataOwner, src.totalLen, src.view);
    }

    /** APPEND_CHAIN: the list of `src` takes the place of the trailing empty chains. */
    method AppendList(src: Evbuffer)
      requires Valid() && src.Valid() && src != this && Apart(view.chains, src.view.chains)
      requires src.totalLen > 0
      modifies this`first, this`last, this`lastWithDataOwner, this`totalLen, this`view, view.chains`next
      ensures Shape() && totalLen == Mod32(old(totalLen) + src.totalLen) && Contents() == old(Contents()) + src.Contents()
      ensures view.chains == old(view.chains[..Cut(view.segs, view.lwd)]) + src.view.chains
      ensures old(NoHoles()) && src.NoHoles() ==> NoHoles()
    {
      hide Join, Link, Data, Distinct, Packed, Apart, LastData, Shape, Cut, Mod32;
      EndsOf(this);
      EndsOf(src);
      ShapeParts(src);
      JoinNil();
      ghost var v := AppendedView(view, src.view);
      var owner := ReplaceTrailing(src.first, src.view.chains);
      Adopt(first, src.last, if src.lastWithDataOwner == null then owner else src.lastWithDataOwner,
              Mod32(totalLen + src.totalLen), v);
    }

    /** evbuffer_add_buffer: moves everything from `inbuf` to the end of this buffer. */
    method AddBuffer(inbuf: Evbuffer) returns (result: int)
      requires Valid() && inbuf.Valid() && (inbuf != this ==> Apart(view.chains, inbuf.view.chains))
      modifies this`first, this`last, this`lastWithDataOwner, this`totalLen, this`view, view.chains`next
      modifies inbuf`first, inbuf`last, inbuf`lastWithDataOwner, inbuf`totalLen, inbuf`view
      ensures Shape() && inbuf.Valid() && (inbuf != this ==> Apart(view.chains, inbuf.view.chains))
      ensures MovedChains(old(view.chains), old(inbuf.view.chains), view.chains)
      ensures Valid() <==> result == -1 || inbuf == this || old(totalLen) + old(inbuf.totalLen) <= SIZE_MAX
      ensures var idle := old(inbuf.totalLen) == 0 || inbuf == this;
        && result == (if !idle && (freezeEnd || inbuf.freezeStart) then -1 else 0)
        && if idle || result == -1 then view == old(view) && inbuf.view == old(inbuf.view)
           else Contents() == old(Contents()) + old(inbuf.Contents()) && inbuf.Contents() == [] && inbuf.view.chains == []
                && totalLen == Mod32(old(totalLen) + old(inbuf.totalLen))
      ensures old(inbuf.NoHoles()) ==> inbuf.NoHoles() && (old(NoHoles()) ==> NoHoles())
    {
      hide Join, Shape, Packed, Mod32;
      ShapeParts(this);
      if inbuf.totalLen == 0 || inbuf == this {
        return 0;
      }
      if freezeEnd || inbuf.freezeStart {
        return -1;
      }
      if totalLen == 0 {
        TakeOver(inbuf);
      } else {
        AppendList(inbuf);
      }
      inbuf.ZeroChain();
      PackedNil();
      result := 0;
    }

    /** PREPEND_CHAIN */
    method PrependList(src: Evbuffer)
      requires Valid() && src.Valid() && src != this && Apart(view.chains, src.view.chains)
      requires src.totalLen > 0 && totalLen > 0
      modifies this`first, this`last, this`lastWithDataOwner, this`totalLen, this`view, src.view.chains`next
      ensures Shape() && totalLen == Mod32(old(totalLen) + src.totalLen) && Contents() == src.Contents() + old(Contents())
      ensures view.chains == src.view.chains + old(view.chains)
      ensures old(NoHoles()) && src.NoHoles() ==> (NoHoles() <==> src.view.lwd == |src.view.chains| - 1)
    {
      hide Join, Link, Data, Distinct, Packed, Apart, LastData, Shape, Mod32;
      EndsOf(this);
      EndsOf(src);
      ShapeParts(this);
      ShapeParts(src);
      JoinNil();
      ghost var v := PrependedView(src.view, view);
      ApartSym(view.chains, src.view.chains);
      DistinctConcat(src.view.chains, view.chains);
      SetSlot(src.last, first, src.view.chains, view.chains);
      if lastWithDataOwner != null { LinkAt(v.chains, v.lwd - 1); }
      var withData := if lastWithDataOwner == null then src.first else lastWithDataOwner.next;
      var srcOwner := src.lastWithDataOwner;
      var owner := if withData == null then srcOwner
                   else if lastWithDataOwner == null then src.last else lastWithDataOwner;
      Adopt(src.first, last, owner, Mod32(totalLen + src.totalLen), v);
    }

    /** evbuffer_prepend_buffer: moves everything from `inbuf` to the front of this buffer. */
    method PrependBuffer(inbuf: Evbuffer) returns (result: int)
      requires Valid() && inbuf.Valid() && (inbuf != this ==> Apart(view.chains, inbuf.view.chains))
      modifies this`first, this`last, this`lastWithDataOwner, this`totalLen, this`view
      modifies inbuf`first, inbuf`last, inbuf`lastWithDataOwner, inbuf`totalLen, inbuf`view, inbuf.view.chains`next
      ensures Shape() && inbuf.Valid() && (inbuf != this ==> Apart(view.chains, inbuf.view.chains))
      ensures MovedChains(old(view.chains), old(inbuf.view.chains), view.chains)
      ensures Valid() <==> result == -1 || inbuf == this || old(totalLen) + old(inbuf.totalLen) <= SIZE_MAX
      ensures var idle := old(inbuf.totalLen) == 0 || inbuf == this;
        && result == (if !idle && (freezeStart || inbuf.freezeStart) then -1 else 0)
        && (if idle || result == -1 then view == old(view) && inbuf.view == old(inbuf.view)
            else Contents() == old(inbuf.Contents()) + old(Contents()) && inbuf.Contents() == [] && inbuf.view.chains == [])
        && (old(NoHoles()) && old(inbuf.NoHoles()) ==>
              && inbuf.NoHoles()
              && (NoHoles() <==> idle || result == -1 || old(totalLen) == 0
                                 || old(inbuf.view.lwd == |inbuf.view.chains| - 1)))
    {
      hide Join, Shape, Packed, Mod32;
      if inbuf.totalLen == 0 || inbuf == this {
        return 0;
      }
      if freezeStart || inbuf.freezeStart {
        return -1;
      }
      if totalLen == 0 {
        TakeOver(inbuf);
      } else {
        PrependList(inbuf);
      }
      inbuf.ZeroChain();
      PackedNil();
      result := 0;
    }

    // ---- evbuffer_remove_buffer ----

    /** advance_last_with_data: from chain `k` on, up to the first empty chain. */
    method AdvanceLastWithData(ghost cs: seq<Chain>, ghost segs: Segs, ghost k: nat)
      requires Link(cs) && Data(cs, segs) && k < |cs| && first == cs[0]
      requires lastWithDataOwner == if k == 0 then null else cs[k - 1]
      modifies this`lastWithDataOwner
      ensures var j := Advanced(segs, k); lastWithDataOwner == if j == 0 then null else cs[j - 1]
    {
      hide Link, Data, Advanced;
      DataSize(cs, segs);
      if k > 0 { LinkAt(cs, k - 1); }
      var c := if lastWithDataOwner == null then first else lastWithDataOwner.next;
      ghost var j := k;
      AdvancedStep(cs, segs, j);
      while c.next != null && c.next.off != 0
        invariant k <= j < |cs| && c == cs[j] && Advanced(segs, j) == Advanced(segs, k)
        invariant lastWithDataOwner == if j == 0 then null else cs[j - 1]
        invariant c.next != null && c.next.off != 0 ==> j + 1 < |cs| && c.next == cs[j + 1] && Advanced(segs, j + 1) == Advanced(segs, j)
        invariant !(c.next != null && c.next.off != 0) ==> Advanced(segs, j) == j
        decreases |cs| - j
      {
        lastWithDataOwner := c;
        c := c.next;
        j := j + 1;
        AdvancedStep(cs, segs, j);
      }
    }

    /** Refreshes the cached fields of a list that was extended behind chain `k` by chains with data. */
    method Extended(l: Chain, added: nat, ghost v: View, ghost k: nat)
      requires 0 < |v.chains| == |v.segs| && k < |v.chains| && v.lwd == |v.chains| - 1
      requires Link(v.chains) && Distinct(v.chains) && Data(v.chains, v.segs) && LastData(v.segs, v.lwd)
      requires first == v.chains[0] && l == v.chains[|v.chains| - 1]
      requires lastWithDataOwner == if k == 0 then null else v.chains[k - 1]
      requires forall i :: k < i < |v.segs| ==> v.segs[i] != []
      modifies this`first, this`last, this`lastWithDataOwner, this`totalLen, this`view
      ensures Shape() && view == v && totalLen == Mod32(old(totalLen) + added)
    {
      hide Join, Link, Data, Distinct, Mod32;
      AdvancedFindsLast(v.segs, k, v.lwd);
      AdvanceLastWithData(v.chains, v.segs, k);
      Install(first, l, lastWithDataOwner, Mod32(totalLen + added), v);
    }

    /** The list without its first `i` chains, which have been counted off already. */
    ghost predicate CountedOff(i: nat)
      reads this, view.chains
    {
      && |view.segs| == |view.chains|
      && LastData(view.segs, view.lwd) && NoHoles() && i <= view.lwd && 0 < |view.chains|
      && Distinct(view.chains) && Link(view.chains) && Data(view.chains, view.segs)
      && first == view.chains[0] && last == view.chains[|view.chains| - 1]
      && lastWithDataOwner == (if view.lwd > i then view.chains[view.lwd - 1] else null)
      && Counted()
    }

    lemma CountedParts(i: nat)
      requires CountedOff(i)
      ensures |view.segs| == |view.chains| && LastData(view.segs, view.lwd) && NoHoles() && i <= view.lwd
      ensures Data(view.chains, view.segs) && 0 < |view.chains| && first == view.chains[0]
    {
    }

    /** Relinks the first `i` chains of this list behind the data of `dst`. */
    method LinkInto(dst: Evbuffer, previous: Chain, ghost i: nat)
      requires CountedOff(i) && 0 < i && previous == view.chains[i - 1]
      requires dst.Shape() && dst != this && Apart(dst.view.chains, view.chains)
      modifies dst`first, dst.view.chains`next, previous`next
      ensures var cut := Cut(dst.view.segs, dst.view.lwd);
        && dst.first == (if cut == 0 then first else old(dst.first))
        && Link(dst.view.chains[..cut] + view.chains[..i]) && Distinct(dst.view.chains[..cut] + view.chains[..i])
      ensures Link(view.chains[i..])
    {
      hide Join, Link, Data, Distinct;
      ghost var cs := view.chains;
      PrefixApart(dst.view.chains, cs, i);
      Terminate(previous, cs, i);
      var owner := dst.ReplaceTrailing(first, cs[..i]);
    }

    /** The destination's half of the chain-moving part of evbuffer_remove_buffer. */
    method AttachTo(dst: Evbuffer, previous: Chain, nread: nat, ghost i: nat)
      requires CountedOff(i) && 0 < i && previous == view.chains[i - 1]
      requires nread == |Join(view.segs[..i])|
      requires dst.Shape() && dst != this && Apart(dst.view.chains, view.chains)
      modifies dst`first, dst`last, dst`lastWithDataOwner, dst`totalLen, dst`view, dst.view.chains`next, previous`next
      ensures dst.Shape() && dst.totalLen == Mod32(old(dst.totalLen) + nread) && Link(view.chains[i..])
      ensures dst.view.chains == old(dst.view.chains[..Cut(dst.view.segs, dst.view.lwd)]) + view.chains[..i]
      ensures dst.Contents() == old(dst.Contents()) + Join(view.segs[..i])
      ensures old(dst.NoHoles()) ==> dst.NoHoles()
    {
      hide Join, Link, Data, Distinct, Apart, Packed, LastData, Cut, Shape, CountedOff, Mod32;
      CountedParts(i);
      EndsOf(dst);
      ghost var k := dst.view.lwd;
      ghost var v := MovedView(dst.view, view, i);
      LinkInto(dst, previous, i);
      dst.Extended(previous, nread, v, k);
    }

    /** The source's half: the list starts at chain i. */
    method Detach(chain: Chain, nread: nat, ghost i: nat)
      requires |view.segs| == |view.chains| && LastData(view.segs, view.lwd) && NoHoles() && 0 < i <= view.lwd
      requires Distinct(view.chains) && Link(view.chains[i..]) && Data(view.chains, view.segs)
      requires chain == view.chains[i] && last == view.chains[|view.chains| - 1]
      requires lastWithDataOwner == if view.lwd > i then view.chains[view.lwd - 1] else null
      requires Counted() && nread == |Join(view.segs[..i])|
      modifies this`first, this`last, this`lastWithDataOwner, this`totalLen, this`view
      ensures Valid() && NoHoles()
      ensures view == old(View(view.chains[i..], view.segs[i..], view.lwd - i))
    {
      hide Join, Link, Data, Distinct, Packed;
      ghost var cs, segs := view.chains, view.segs;
      DropFront(cs, segs, view.lwd, i);
      Install(chain, last, lastWithDataOwner, totalLen - nread, View(cs[i..], segs[i..], view.lwd - i));
    }

    /** Both halves. */
    method Transfer(dst: Evbuffer, chain: Chain, previous: Chain, nread: nat, ghost i: nat)
      requires CountedOff(i) && 0 < i && previous == view.chains[i - 1] && chain == view.chains[i]
      requires nread == |Join(view.segs[..i])|
      requires dst.Shape() && dst != this && Apart(dst.view.chains, view.chains)
      modifies dst`first, dst`last, dst`lastWithDataOwner, dst`totalLen, dst`view, dst.view.chains`next
      modifies this`first, this`last, this`lastWithDataOwner, this`totalLen, this`view, previous`next
      ensures Valid() && NoHoles() && dst.Shape() && dst.totalLen == Mod32(old(dst.totalLen) + nread)
      ensures view == old(View(view.chains[i..], view.segs[i..], view.lwd - i))
      ensures dst.view.chains == old(dst.view.chains[..Cut(dst.view.segs, dst.view.lwd)] + view.chains[..i])
      ensures dst.Contents() == old(dst.Contents() + Join(view.segs[..i]))
      ensures old(dst.NoHoles()) ==> dst.NoHoles()
    {
      hide Join, Distinct, Data, Link, Packed, Apart, LastData, Mod32;
      AttachTo(dst, previous, nread, i);
      Detach(chain, nread, i);
    }

    /** Walks over the chains that fit into `datlen` bytes as a whole. */
    method CountOff(datlen: nat) returns (chain: Chain, previous: Chain, nread: nat, ghost i: nat)
      requires Valid() && NoHoles() && datlen < totalLen
      modifies this`lastWithDataOwner
      ensures CountedOff(i) && i < |view.chains| == |view.segs| && chain == view.chains[i] && (i == 0 ==> Valid())
      ensures previous == if i == 0 then chain else view.chains[i - 1]
      ensures nread == |Join(view.segs[..i])| && nread <= datlen < nread + |view.segs[i]|
      ensures nread == 0 <==> i == 0
      ensures nread == Whole(view.segs, datlen)
    {
      hide Join, Distinct, Data, Whole;
      ghost var cs, segs, lwd := view.chains, view.segs, view.lwd;
      var left := datlen;
      JoinNil();
      assert segs[..0] == [];
      chain, nread, i := first, 0, 0;
      previous := chain;
      DataAt(cs, segs, 0);
      while chain.off <= left
        invariant i < |cs| && i <= lwd && chain == cs[i] && chain.Holds(segs[i])
        invariant previous == if i == 0 then chain else cs[i - 1]
        invariant nread == |Join(segs[..i])| && nread + left == datlen && left >= 0 && (nread == 0 <==> i == 0)
        invariant lastWithDataOwner == if lwd > i then cs[lwd - 1] else null
        decreases |cs| - i
      {
        JoinTake(segs, i);
        StillInside(segs, lwd, i, datlen);
        DistinctAt(cs, i, lwd - 1);
        nread := nread + chain.off;
        left := left - chain.off;
        previous := chain;
        lastWithDataOwner := if lastWithDataOwner == chain then null else lastWithDataOwner;
        chain := chain.next;
        i := i + 1;
        DataAt(cs, segs, i);
      }
      WholeIs(segs, i, datlen);
    }

    /** Moves the whole chains among the first `datlen` bytes; less than one chain remains to be moved. */
    method MoveWhole(dst: Evbuffer, datlen: nat) returns (chain: Chain, nread: nat)
      requires Valid() && NoHoles() && datlen < totalLen
      requires dst.Shape() && dst.totalLen <= SIZE_MAX && dst != this && Apart(dst.view.chains, view.chains)
      modifies dst`first, dst`last, dst`lastWithDataOwner, dst`totalLen, dst`view, dst.view.chains`next
      modifies this`first, this`last, this`lastWithDataOwner, this`totalLen, this`view, view.chains`next
      ensures Valid() && NoHoles() && dst.Shape() && Apart(dst.view.chains, view.chains)
      ensures view.chains != [] && chain == view.chains[0] && nread <= datlen < nread + |view.segs[0]|
      ensures nread == old(Whole(view.segs, datlen)) <= |old(Contents())|
      ensures dst.totalLen == Mod32(old(dst.totalLen) + nread)
      ensures dst.Contents() == old(dst.Contents()) + old(Contents())[..nread] && Contents() == old(Contents())[nread..]
      ensures MovedChains(old(dst.view.chains), old(view.chains), dst.view.chains)
      ensures MovedChains([], old(view.chains), view.chains)
      ensures old(dst.NoHoles()) ==> dst.NoHoles()
    {
      hide Join, Shape, CountedOff, Counted, Packed, Apart, MovedChains, Whole, Mod32;
      ShapeParts(dst);
      ShapeParts(this);
      ghost var i;
      ghost var d, cut, cs, segs := dst.view.chains, Cut(dst.view.segs, dst.view.lwd), view.chains, view.segs;
      var previous;
      chain, previous, nread, i := CountOff(datlen);
      JoinSplit(segs, i);
      Regrouped(d, cut, cs, i);
      if nread > 0 {
        Transfer(dst, chain, previous, nread, i);
      }
    }

    /** Copies the first `n` bytes of the first chain to `dst` and skips them here. */
    method MovePart(dst: Evbuffer, chain: Chain, n: nat)
      requires Valid() && NoHoles() && view.chains != [] && chain == view.chains[0] && n < |view.segs[0]|
      requires dst.Shape() && dst.totalLen <= SIZE_MAX && dst != this && Apart(dst.view.chains, view.chains)
      requires !dst.freezeEnd
      modifies dst`first, dst`last, dst`lastWithDataOwner, dst`totalLen, dst`view, dst.view.chains
      modifies this`first, this`totalLen, this`view, chain`misalign, chain`off
      ensures Valid() && NoHoles() && dst.Shape() && Apart(dst.view.chains, view.chains)
      ensures n <= |old(Contents())| && view.chains == old(view.chains) && NewChains(old(dst.view.chains), dst.view.chains)
      ensures Contents() == old(Contents())[n..]
      ensures if old(dst.totalLen) + n <= SIZE_MAX
              then dst.Contents() == old(dst.Contents()) + old(Contents())[..n] && dst.totalLen == old(dst.totalLen) + n
              else dst.Contents() == old(dst.Contents()) && dst.totalLen == old(dst.totalLen)
      ensures old(dst.NoHoles()) ==> dst.NoHoles()
    {
      hide Join, Shape, Counted, Packed, Mod32;
      var part := PartOf(chain, n);
      var r := dst.Add(part);
      SkipPart(chain, n);
    }

    method PartOf(chain: Chain, n: nat) returns (part: seq<Byte>)
      requires Valid() && view.chains != [] && chain == view.chains[0] && n <= |view.segs[0]|
      ensures n <= |Contents()| && part == Contents()[..n] && |part| == n
    {
      hide Join, Distinct, Data, Link, LastData;
      DataAt(view.chains, view.segs, 0);
      JoinInto(view.segs, 0, n);
      JoinNil();
      assert view.segs[..0] == [];
      part := chain.buffer[chain.misalign..chain.misalign + n];
      SliceSlice(chain.buffer, chain.misalign, chain.misalign + chain.off, 0, n);
    }

    method SkipPart(chain: Chain, n: nat)
      requires Valid() && NoHoles() && view.chains != [] && chain == view.chains[0] && n < |view.segs[0]|
      modifies this`first, this`totalLen, this`view, chain`misalign, chain`off
      ensures Valid() && NoHoles() && view.chains == old(view.chains)
      ensures n <= |old(Contents())| && Contents() == old(Contents())[n..]
    {
      hide Join, Distinct, Data, Link, Packed, LastData;
      JoinInto(view.segs, 0, n);
      JoinNil();
      assert view.segs[..0] == [];
      totalLen := totalLen - n;
      StartAt(chain, n, 0);
    }

    /** The case of evbuffer_remove_buffer that leaves something here. */
    method RemoveSome(dst: Evbuffer, datlen: nat)
      requires Valid() && NoHoles() && datlen < totalLen
      requires dst.Valid() && dst != this && Apart(dst.view.chains, view.chains) && !dst.freezeEnd
      modifies dst`first, dst`last, dst`lastWithDataOwner, dst`totalLen, dst`view, dst.view.chains
      modifies this`first, this`last, this`lastWithDataOwner, this`totalLen, this`view, view.chains
      ensures Valid() && NoHoles() && dst.Shape() && Apart(dst.view.chains, view.chains)
      ensures datlen <= |old(Contents())| && NewChains(old(view.chains), view.chains)
      ensures NewOrMoved(old(dst.view.chains), old(view.chains), dst.view.chains)
      ensures Contents() == old(Contents())[datlen..]
      ensures Arrived(old(Contents()), old(dst.Contents()), old(Whole(view.segs, datlen)), datlen, dst.Contents(), dst.totalLen)
      ensures old(dst.NoHoles()) ==> dst.NoHoles()
    {
      hide Join, Shape, Packed, Apart, MovedChains, Whole, Arrived, Mod32;
      ghost var c, d, cs, ds := Contents(), dst.Contents(), view.chains, dst.view.chains;
      var chain, nread := MoveWhole(dst, datlen);
      ghost var d1, t1 := dst.Contents(), dst.totalLen;
      MovedInto(ds, cs, dst.view.chains);
      MovedInto([], cs, view.chains);
      MovePart(dst, chain, datlen - nread);
      PartArrived(c, d, nread, datlen, d1, t1, dst.Contents(), dst.totalLen);
    }

    /**
     * evbuffer_remove_buffer: moves the first `datlen` bytes from this buffer to the end of `dst`. The
     * whole chains among them are relinked and counted without looking at the length; the rest is added,
     * and if that is refused it is dropped all the same. All is well exactly when the length of `dst`
     * stays a size.
     */
    method RemoveBuffer(dst: Evbuffer, datlen: nat) returns (result: int)
      requires Valid() && NoHoles() && dst.Valid() && (dst != this ==> Apart(dst.view.chains, view.chains))
      modifies dst`first, dst`last, dst`lastWithDataOwner, dst`totalLen, dst`view, dst.view.chains
      modifies this`first, this`last, this`lastWithDataOwner, this`totalLen, this`view, view.chains
      ensures Valid() && dst.Shape() && (dst != this ==> Apart(dst.view.chains, view.chains))
      ensures var idle := datlen == 0 || dst == this;
        if idle || dst.freezeEnd || freezeStart then
          result == (if idle then 0 else -1) && view == old(view) && dst.view == old(dst.view) && dst.Valid()
        else
          Removed(old(Contents()), old(dst.Contents()), old(Whole(view.segs, datlen)), datlen, result, Contents(), dst.Contents(), dst.totalLen)
      ensures NoHoles() && (old(dst.NoHoles()) ==> dst.NoHoles())
      ensures NewChains(old(view.chains), view.chains) && NewOrMoved(old(dst.view.chains), old(view.chains), dst.view.chains)
    {
      hide Join, Shape, Packed, Mod32, Removed, Arrived, Signed, Whole;
      if datlen == 0 || dst == this {
        return 0;
      }
      if dst.freezeEnd || freezeStart {
        return -1;
      }
      ghost var c, d, w := Contents(), dst.Contents(), Whole(view.segs, datlen);
      if datlen >= totalLen {
        result := Signed(totalLen);
        var r := dst.AddBuffer(this);
        RemovedAll(c, d, w, datlen, dst.Contents(), dst.totalLen);
      } else {
        result := Signed(datlen);
        RemoveSome(dst, datlen);
        RemovedSome(c, d, w, datlen, dst.Contents(), dst.totalLen);
      }
    }

    // ---- evbuffer_pullup ----

    /** All chains were copied: `tmp` is the whole list. */
    method PulledAll(tmp: Chain)
      requires tmp.Holds(Join(view.segs)) && Counted()
      modifies this`first, this`last, this`lastWithDataOwner, this`totalLen, this`view, tmp`next
      ensures Valid() && view == View([tmp], [old(Contents())], 0)
    {
      JoinOne(Join(view.segs));
      tmp.next := null;
      Install(tmp, tmp, null, totalLen, View([tmp], [Join(view.segs)], 0));
    }

    /** `tmp` followed by what is left of the list from chain i on. */
    method PulledSome(tmp: Chain, chain: Chain, left: nat, size: nat, owner: Chain?, ghost i: nat)
      requires |view.segs| == |view.chains| && LastData(view.segs, view.lwd) && Counted()
      requires i <= |view.chains| && Distinct(view.chains) && Link(view.chains[i..]) && Data(view.chains[i..], view.segs[i..])
      requires i < |view.chains| && chain == view.chains[i] && left < |view.segs[i]| && tmp !in view.chains[i..]
      requires last == view.chains[|view.chains| - 1]
      requires 0 < size == |Join(view.segs[..i])| + left <= totalLen
      requires tmp.Holds(Join(view.segs[..i]) + view.segs[i][..left])
      requires owner == if view.lwd == i then tmp else view.chains[view.lwd - 1]
      requires i <= view.lwd
      modifies this`first, this`last, this`lastWithDataOwner, this`totalLen, this`view, tmp`next, chain`misalign, chain`off
      ensures Valid() && Contents() == old(Contents())
      ensures view.chains == [tmp] + old(view.chains[i..]) && view.segs[0] == Contents()[..size]
      ensures old(NoHoles()) ==> NoHoles()
    {
      hide Join, Distinct, Data, Packed, LastData, Link;
      ghost var cs, segs, lwd := view.chains, view.segs, view.lwd;
      ghost var cs', segs' := cs[i..], segs[i..][0 := segs[i][left..]];
      GatherSegs(segs, lwd, i, left, size);
      DistinctDrop(cs, i);
      DistinctCons(tmp, cs');
      ConsTail(tmp, cs, i);
      LinkBefore(tmp, chain, left, Join(segs)[..size], cs', segs[i..]);
      Install(tmp, last, owner, totalLen, View([tmp] + cs', [Join(segs)[..size]] + segs', lwd - i + 1));
    }

    /** Gathers the first `size` bytes in `tmp`, which is chain 0 (s == 1) or new (s == 0). */
    method PullInto(tmp: Chain, start: Chain?, size: nat, ghost s: nat)
      requires Valid() && s <= 1 && s <= |view.chains| && |Join(view.segs[..s])| <= size
      requires 0 < view.lwd && 0 < size <= totalLen
      requires start == if s < |view.chains| then view.chains[s] else null
      requires if s == 0 then tmp !in view.chains else tmp == view.chains[0]
      requires !tmp.immutable && tmp.Holds(Join(view.segs[..s])) && |tmp.buffer| - tmp.misalign >= size
      modifies this`first, this`last, this`lastWithDataOwner, this`totalLen, this`view, view.chains, tmp
      ensures Valid() && Contents() == old(Contents())
      ensures view.chains != [] && view.chains[0] == tmp && |view.segs[0]| >= size
      ensures forall i :: 1 <= i < |view.chains| ==> view.chains[i] in old(view.chains)
      ensures old(NoHoles()) ==> NoHoles()
    {
      hide Join, Distinct, Data, Link, Packed, LastData;
      ghost var cs, segs, lwd := view.chains, view.segs, view.lwd;
      LastInside(segs, lwd);
      LinkAt(cs, lwd - 1);
      DropData(cs, segs, s);
      ghost var i;
      var chain, left, removedLast, removedOwner;
      chain, left, removedLast, removedOwner, i :=
        PullWhole(tmp, start, size, lastWithDataOwner, lastWithDataOwner.next, cs, segs, lwd, s);
      if chain == null {
        assert segs[..i] == segs;
        PulledAll(tmp);
        JoinOne(Join(segs));
        PackedOne(Join(segs));
      } else {
        PullRest(tmp, chain, left, size, removedLast, removedOwner, s, i);
        ConsTail(tmp, cs, i);
      }
    }

    /** The first `left` bytes of `chain` behind those of `tmp`. */
    method PutPart(tmp: Chain, chain: Chain, left: nat, ghost d: seq<Byte>, ghost e: seq<Byte>)
      requires tmp.Holds(d) && chain.Holds(e) && left <= |e| && !tmp.immutable && left <= tmp.SpaceLen()
      modifies tmp`off, tmp`buffer
      ensures tmp.Holds(d + e[..left])
    {
      var part := chain.buffer[chain.misalign..chain.misalign + left];
      SliceSlice(chain.buffer, chain.misalign, chain.misalign + chain.off, 0, left);
      tmp.Put(part, d);
    }

    method PullRest(tmp: Chain, chain: Chain, left: nat, size: nat, removedLast: bool, removedOwner: bool,
                    ghost s: nat, ghost i: nat)
      requires s <= 1 && s <= i < |view.chains| == |view.segs| && chain == view.chains[i] && left < |view.segs[i]|
      requires LastData(view.segs, view.lwd) && 0 < view.lwd < |view.segs| && Counted()
      requires Distinct(view.chains) && Link(view.chains) && Data(view.chains[i..], view.segs[i..])
      requires if s == 0 then tmp !in view.chains else tmp == view.chains[0]
      requires last == view.chains[|view.chains| - 1] && lastWithDataOwner == view.chains[view.lwd - 1]
      requires 0 < size == |Join(view.segs[..i])| + left <= totalLen
      requires !tmp.immutable && tmp.Holds(Join(view.segs[..i])) && |tmp.buffer| - tmp.misalign >= size
      requires (removedLast <==> view.lwd < i) && (removedOwner <==> s <= view.lwd - 1 < i)
      modifies this`first, this`last, this`lastWithDataOwner, this`totalLen, this`view, tmp, chain
      ensures Valid() && Contents() == old(Contents())
      ensures view.chains == [tmp] + old(view.chains[i..]) && view.segs[0] == Contents()[..size]
      ensures old(NoHoles()) ==> NoHoles()
    {
      hide Join, Distinct, Data, Link, Packed, LastData;
      ghost var cs, segs := view.chains, view.segs;
      UpToLast(segs, view.lwd, i);
      TailData(cs, segs, i);
      NotAhead(cs, tmp, s, i);
      LinkDrop(cs, i);
      PutPart(tmp, chain, left, Join(segs[..i]), segs[i]);
      var owner := if removedLast then null else if removedOwner then (if chain.off > left then tmp else null)
                   else lastWithDataOwner;
      PulledSome(tmp, chain, left, size, owner, i);
    }

    /** evbuffer_pullup: makes the first `size` bytes (all of them if negative) contiguous. */
    method Pullup(size: int) returns (ok: bool)
      requires Valid()
      modifies this`first, this`last, this`lastWithDataOwner, this`totalLen, this`view, view.chains
      ensures Valid() && NewChains(old(view.chains), view.chains) && Contents() == old(Contents())
      ensures var n := if size < 0 then |Contents()| else size;
        && (ok <==> 0 < n <= |Contents()|)
        && (ok ==> view.segs != [] && |view.segs[0]| >= n)
      ensures old(NoHoles()) ==> NoHoles()
    {
      hide Join, Distinct, Data, Link, Packed;
      var chain := first;
      var n := if size < 0 then totalLen else size;
      if n == 0 || n > totalLen {
        return false;
      }
      ok := true;
      JoinNil();
      DataAt(view.chains, view.segs, 0);
      if chain.off >= n {
        return;
      }
      BeyondFirst(view.segs, view.lwd);
      assert view.segs[..0] == [];
      if |chain.buffer| - chain.misalign >= n {
        JoinTake(view.segs, 0);
        LinkAt(view.chains, 0);
        PullInto(chain, chain.next, n, 1);
      } else {
        var tmp := new Chain(n);
        PullInto(tmp, chain, n, 0);
      }
    }
  }

  lemma TotalOf(buf: Evbuffer)
    requires buf.Valid()
    ensures buf.totalLen == |buf.Contents()| <= SIZE_MAX
  {
  }

  lemma EndsOf(buf: Evbuffer)
    requires buf.Shape()
    ensures buf.Ends(buf.view) && Data(buf.view.chains, buf.view.segs) && Link(buf.view.chains)
  {
  }

  lemma ShapeParts(buf: Evbuffer)
    requires buf.Shape()
    ensures LastData(buf.view.segs, buf.view.lwd) && |buf.view.segs| == |buf.view.chains| && Distinct(buf.view.chains)
  {
  }

  /** The list `d` once the first `i` chains of `s` have taken the place of its trailing ones. */
  lemma MovedView(d: View, s: View, i: nat) returns (v: View)
    requires LastData(d.segs, d.lwd) && |d.segs| == |d.chains| && Data(d.chains, d.segs)
    requires LastData(s.segs, s.lwd) && |s.segs| == |s.chains| && Data(s.chains, s.segs) && Packed(s.segs, s.lwd) && 0 < i <= s.lwd
    ensures var cut := Cut(d.segs, d.lwd);
      && i < |s.chains| && v.chains == d.chains[..cut] + s.chains[..i]
      && (d.lwd > 0 ==> d.lwd <= |v.chains| && v.chains[d.lwd - 1] == d.chains[d.lwd - 1])
      && v.chains != [] && v.chains[0] == (if cut == 0 then s.chains[0] else d.chains[0])
    ensures |v.chains| == |v.segs| && v.lwd == |v.chains| - 1 && d.lwd <= v.lwd && v.chains[v.lwd] == s.chains[i - 1]
    ensures LastData(v.segs, v.lwd) && (Packed(d.segs, d.lwd) ==> Packed(v.segs, v.lwd)) && Data(v.chains, v.segs)
    ensures Join(v.segs) == Join(d.segs) + Join(s.segs[..i]) && forall k :: d.lwd < k < |v.segs| ==> v.segs[k] != []
  {
    hide Join, Data, Packed, LastData, Cut;
    LastInside(s.segs, s.lwd);
    var cut := Cut(d.segs, d.lwd);
    v := View(d.chains[..cut] + s.chains[..i], d.segs[..cut] + s.segs[..i], cut + i - 1);
    KeptSlot(d, s.chains[..i]);
    MoveSegs(d.segs, d.lwd, s.segs, s.lwd, i);
    BehindHasData(d.segs, d.lwd, s.segs, s.lwd, i);
    MoveData(d.chains, d.segs, cut, s.chains, s.segs, i);
  }

  /** The list `s` in front of the list `d`, both with data. */
  lemma PrependedView(s: View, d: View) returns (v: View)
    requires LastData(d.segs, d.lwd) && |d.segs| == |d.chains| && Data(d.chains, d.segs) && Join(d.segs) != []
    requires LastData(s.segs, s.lwd) && |s.segs| == |s.chains| && Data(s.chains, s.segs) && Join(s.segs) != []
    ensures v.chains == s.chains + d.chains && |v.segs| == |v.chains| && v.lwd == |s.chains| + d.lwd
    ensures d.lwd < |d.chains| && s.lwd < |s.chains| && v.chains[0] == s.chains[0] && v.chains[|v.chains| - 1] == d.chains[|d.chains| - 1]
    ensures v.chains[v.lwd - 1] == if d.lwd == 0 then s.chains[|s.chains| - 1] else d.chains[d.lwd - 1]
    ensures LastData(v.segs, v.lwd) && Data(v.chains, v.segs) && Join(v.segs) == Join(s.segs) + Join(d.segs)
    ensures Packed(d.segs, d.lwd) && Packed(s.segs, s.lwd) ==> (Packed(v.segs, v.lwd) <==> s.lwd == |s.chains| - 1)
  {
    hide Join, Data, Packed;
    v := View(s.chains + d.chains, s.segs + d.segs, |s.segs| + d.lwd);
    LastHasData(s.segs, s.lwd);
    LastHasData(d.segs, d.lwd);
    PrependSegs(s.segs, s.lwd, d.segs, d.lwd);
    DataConcat(s.chains, s.segs, d.chains, d.segs);
  }

  /** The list `d` once all of `s`, which holds data, has taken the place of its trailing chains. */
  lemma AppendedView(d: View, s: View) returns (v: View)
    requires LastData(d.segs, d.lwd) && |d.segs| == |d.chains| && Data(d.chains, d.segs)
    requires LastData(s.segs, s.lwd) && |s.segs| == |s.chains| && Data(s.chains, s.segs) && Join(s.segs) != []
    ensures var cut := Cut(d.segs, d.lwd);
      && s.lwd < |s.chains| && v.chains == d.chains[..cut] + s.chains && |v.segs| == |v.chains| && v.lwd == cut + s.lwd
      && v.chains[0] == (if cut == 0 then s.chains[0] else d.chains[0]) && v.chains[|v.chains| - 1] == s.chains[|s.chains| - 1]
      && (v.lwd > 0 ==> v.chains[v.lwd - 1] == if s.lwd == 0 then d.chains[cut - 1] else s.chains[s.lwd - 1])
    ensures LastData(v.segs, v.lwd) && Data(v.chains, v.segs) && Join(v.segs) == Join(d.segs) + Join(s.segs)
    ensures Packed(d.segs, d.lwd) && Packed(s.segs, s.lwd) ==> Packed(v.segs, v.lwd)
  {
    hide Join, Data, Packed, Cut;
    var cut := Cut(d.segs, d.lwd);
    v := View(d.chains[..cut] + s.chains, d.segs[..cut] + s.segs, cut + s.lwd);
    LastHasData(s.segs, s.lwd);
    AppendSegs(d.segs, d.lwd, s.segs, s.lwd);
    DataTakeConcat(d.chains, d.segs, cut, s.chains, s.segs);
  }

  /** The slot of the last chain with data stays where it was when other chains replace the trailing ones. */
  lemma KeptSlot(d: View, tail: seq<Chain>)
    requires LastData(d.segs, d.lwd) && |d.segs| == |d.chains| && tail != []
    ensures var cut := Cut(d.segs, d.lwd); var cs := d.chains[..cut] + tail;
      && d.lwd < |cs| && (d.lwd > 0 ==> cs[d.lwd - 1] == d.chains[d.lwd - 1])
      && cs[0] == (if cut == 0 then tail[0] else d.chains[0]) && cs[|cs| - 1] == tail[|tail| - 1]
  {
  }

  /** How many of the first `n` bytes lie in chains that hold nothing else. */
  ghost function Whole(segs: Segs, n: nat): (k: nat)
    ensures k <= n
  {
    if segs == [] || |segs[0]| > n then 0 else |segs[0]| + Whole(segs[1..], n - |segs[0]|)
  }

  lemma {:induction false} WholeIs(segs: Segs, i: nat, n: nat)
    requires i < |segs| && |Join(segs[..i])| <= n < |Join(segs[..i])| + |segs[i]|
    ensures Whole(segs, n) == |Join(segs[..i])|
  {
    if i > 0 {
      var rest := segs[1..];
      assert segs[..i][0] == segs[0] && segs[..i][1..] == rest[..i - 1];
      WholeIs(rest, i - 1, n - |segs[0]|);
    }
  }

  /**
   * Of the first `n` bytes of `c`, the first `w` were relinked behind `d` and the others added, unless
   * those would have made a length that was still right too large.
   */
  ghost predicate Arrived(c: seq<Byte>, d: seq<Byte>, w: nat, n: nat, d': seq<Byte>, total: nat)
    requires n <= |c|
  {
    var k := if |d| + w <= SIZE_MAX < |d| + n then w else n;
    w <= n && d' == d + c[..k] && total == Mod32(|d| + k)
  }

  lemma PartArrived(c: seq<Byte>, d: seq<Byte>, w: nat, n: nat, d1: seq<Byte>, t1: nat, d2: seq<Byte>, t2: nat)
    requires w <= n < |c| <= SIZE_MAX && |d| <= SIZE_MAX && d1 == d + c[..w] && t1 == Mod32(|d| + w)
    requires if t1 + (n - w) <= SIZE_MAX then d2 == d1 + c[w..][..n - w] && t2 == t1 + (n - w) else d2 == d1 && t2 == t1
    ensures Arrived(c, d, w, n, d2, t2) && c[w..][n - w..] == c[n..]
  {
    assert c[..w] + c[w..][..n - w] == c[..n];
    Assoc(d, c[..w], c[w..][..n - w]);
    DropDrop(c, w, n - w);
  }

  /** What evbuffer_remove_buffer does to the contents `c` and `d` of two buffers, where `whole` bytes lie in whole chains. */
  ghost predicate Removed(c: seq<Byte>, d: seq<Byte>, whole: nat, datlen: nat, result: int, c': seq<Byte>, d': seq<Byte>, total: nat) {
    var n := Min(datlen, |c|);
    && n <= SIZE_MAX && result == Signed(n) && c' == c[n..]
    && Arrived(c, d, if datlen >= |c| then n else whole, n, d', total)
  }

  lemma RemovedAll(c: seq<Byte>, d: seq<Byte>, whole: nat, datlen: nat, d': seq<Byte>, total: nat)
    requires |c| <= datlen && |c| <= SIZE_MAX && |d| <= SIZE_MAX && d' == d + c && total == Mod32(|d| + |c|)
    ensures Removed(c, d, whole, datlen, Signed(|c|), [], d', total)
  {
    hide Mod32, Signed;
    assert c[|c|..] == [] && c[..|c|] == c;
  }

  lemma RemovedSome(c: seq<Byte>, d: seq<Byte>, whole: nat, datlen: nat, d': seq<Byte>, total: nat)
    requires datlen < |c| && datlen <= SIZE_MAX && Arrived(c, d, whole, datlen, d', total)
    ensures Removed(c, d, whole, datlen, Signed(datlen), c[datlen..], d', total)
  {
    hide Mod32, Signed, Arrived;
  }

  /** Nothing is lost and the length is right if and only if the bytes moved leave it a size. */
  lemma RemovedWell(c: seq<Byte>, d: seq<Byte>, whole: nat, datlen: nat, result: int, c': seq<Byte>, d': seq<Byte>, total: nat)
    requires Removed(c, d, whole, datlen, result, c', d', total)
    ensures d' == d + c[..Min(datlen, |c|)] && total == |d'| <= SIZE_MAX <==> |d| + Min(datlen, |c|) <= SIZE_MAX
  {
  }

  /** Bytes are lost if and only if the whole chains leave the length a size and the rest does not. */
  lemma RemovedLost(c: seq<Byte>, d: seq<Byte>, whole: nat, datlen: nat, result: int, c': seq<Byte>, d': seq<Byte>, total: nat)
    requires Removed(c, d, whole, datlen, result, c', d', total) && |d| <= SIZE_MAX
    ensures |c'| + |d'| < |c| + |d| <==> datlen < |c| && |d| + whole <= SIZE_MAX < |d| + datlen
  {
  }

  /** Every chain of `b` was already in one of the lists or is newly allocated. */
  twostate predicate NewOrMoved(a1: seq<Chain>, a2: seq<Chain>, new b: seq<Chain>) {
    forall i :: 0 <= i < |b| ==> b[i] in a1 || b[i] in a2 || fresh(b[i])
  }

  /** Every chain of `b` was already in `a` or is newly allocated. */
  twostate predicate NewChains(a: seq<Chain>, new b: seq<Chain>) {
    forall i :: 0 <= i < |b| ==> b[i] in a || fresh(b[i])
  }

  /** evbuffer_drain of bytes that are there. */
  method DropBytes(buf: Evbuffer, n: nat)
    requires buf.Valid() && !buf.freezeStart && n <= |buf.Contents()|
    modifies buf`first, buf`last, buf`lastWithDataOwner, buf`totalLen, buf`view, buf.view.chains
    ensures buf.Valid() && NewChains(old(buf.view.chains), buf.view.chains) && buf.Contents() == old(buf.Contents())[n..]
    ensures old(buf.NoHoles()) ==> buf.NoHoles()
  {
    hide Join, Evbuffer.Shape, Packed;
    var r := buf.Drain(n);
  }

  function Zeros(n: nat): (s: seq<Byte>)
    ensures |s| == n
  {
    seq(n, _ => 0)
  }

  /** A buffer over memory of the caller. */
  method Filled(data: seq<Byte>) returns (buf: Evbuffer)
    requires 0 < |data| <= SIZE_MAX
    ensures fresh(buf) && fresh(buf.view.chains) && buf.Valid() && buf.NoHoles() && !buf.freezeStart && !buf.freezeEnd
    ensures buf.Contents() == data && buf.view.segs == [data]
  {
    hide Join, Distinct, Data, Link, Packed;
    buf := new Evbuffer();
    PackedNil();
    var _ := buf.AddReference(data);
    assert [] + data == data;
  }

  /** Two bytes lost: they are moved to a buffer with room for one. */
  method BytesLost() returns (src: Evbuffer, dst: Evbuffer, result: int)
    ensures src.Valid() && dst.Valid() && result == 2
    ensures src.Contents() == [3, 4] && dst.Contents() == Zeros(SIZE_MAX - 1)
  {
    hide Join, Evbuffer.Shape, Zeros, Packed;
    dst := Filled(Zeros(SIZE_MAX - 1));
    src := Filled([1, 2, 3, 4]);
    result := src.RemoveBuffer(dst, 2);
  }

  /** A length of nothing: the same memory, half of all sizes long, referred to twice. */
  method CountWraps() returns (buf: Evbuffer)
    ensures buf.Shape() && |buf.Contents()| == WORD && buf.totalLen == 0
  {
    hide Join, Evbuffer.Shape, Zeros;
    buf := Filled(Zeros(WORD / 2));
    var _ := buf.AddReference(Zeros(WORD / 2));
  }
}
