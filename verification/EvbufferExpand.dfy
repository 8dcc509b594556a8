/** evbuffer_expand_singlechain of buffer.c: room for more bytes, all in one chain. */
module EvbufferExpand {
  import opened Wrappers
  import opened Flat
  import opened Chains
  import opened Evbuffers

  const MAX_TO_COPY: nat := 4096

  lemma LinkReplaced(cs: seq<Chain>, i: nat, c: Chain)
    requires i < |cs|
    requires forall k {:trigger cs[k].next} :: 0 <= k < |cs| && k != i ==>
      cs[k].next == if k + 1 == i then c else if k + 1 < |cs| then cs[k + 1] else null
    requires c.next == if i + 1 < |cs| then cs[i + 1] else null
    ensures Link(cs[i := c])
  {
    var l := cs[i := c];
    forall k {:trigger l[k].next} | 0 <= k < |l| ensures l[k].next == if k + 1 < |l| then l[k + 1] else null {
      if k != i { assert l[k] == cs[k]; }
    }
  }

  lemma DataReplaced(cs: seq<Chain>, segs: Segs, i: nat, c: Chain)
    requires Data(cs, segs) && i < |cs| && c.Holds(segs[i])
    ensures Data(cs[i := c], segs)
  {
  }

  lemma DistinctReplaced(cs: seq<Chain>, i: nat, c: Chain)
    requires Distinct(cs) && i < |cs| && c !in cs
    ensures Distinct(cs[i := c])
  {
  }

  /** A larger copy takes the place of the last chain with data. */
  method Resize(buf: Evbuffer, chain: Chain, datlen: nat) returns (tmp: Chain)
    requires buf.Valid() && buf.view.chains != [] && chain == buf.view.chains[buf.view.lwd]
    modifies buf`first, buf`last, buf`view, buf.view.chains`next
    ensures buf.Valid() && fresh(tmp) && buf.view == old(buf.view.(chains := buf.view.chains[buf.view.lwd := tmp]))
    ensures tmp.SpaceLen() >= datlen
  {
    hide Join, LastData;
    ghost var cs, segs, i := buf.view.chains, buf.view.segs, buf.view.lwd;
    LastFacts(segs, i);
    DataAt(cs, segs, i);
    tmp := new Chain(chain.off + datlen);
    assert [] + segs[i] == segs[i];
    tmp.Put(chain.buffer[chain.misalign..chain.misalign + chain.off], []);
    Relink(buf, chain, tmp);
  }

  method Relink(buf: Evbuffer, chain: Chain, tmp: Chain)
    requires buf.Valid() && buf.view.chains != [] && chain == buf.view.chains[buf.view.lwd]
    requires tmp !in buf.view.chains && tmp.Holds(buf.view.segs[buf.view.lwd])
    modifies buf`first, buf`last, buf`view, buf.view.chains`next, tmp`next
    ensures buf.Valid() && buf.view == old(buf.view.(chains := buf.view.chains[buf.view.lwd := tmp]))
  {
    hide Join, LastData, Data, Distinct, Link;
    ghost var cs, segs, i := buf.view.chains, buf.view.segs, buf.view.lwd;
    LastFacts(segs, i);
    SetNext(buf, chain, tmp, cs, i);
    if buf.last == chain { buf.last := tmp; }
    DataReplaced(cs, segs, i, tmp);
    DistinctReplaced(cs, i, tmp);
    LastOne(cs, i);
    buf.view := View(cs[i := tmp], segs, i);
  }

  lemma LastOne(cs: seq<Chain>, i: nat)
    requires Distinct(cs) && i < |cs|
    ensures cs[|cs| - 1] == cs[i] <==> i == |cs| - 1
  {
  }

  method SetNext(buf: Evbuffer, chain: Chain, tmp: Chain, ghost cs: seq<Chain>, ghost i: nat)
    requires i < |cs| && cs[i] == chain && Distinct(cs) && Link(cs) && tmp !in cs
    requires buf.lastWithDataOwner == if i == 0 then null else cs[i - 1]
    modifies buf`first, cs`next, tmp`next
    ensures Link(cs[i := tmp]) && buf.first == if i == 0 then tmp else old(buf.first)
  {
    tmp.next := chain.next;
    if buf.lastWithDataOwner == null { buf.first := tmp; } else { buf.lastWithDataOwner.next := tmp; }
    LinkReplaced(cs, i, tmp);
  }

  /** evbuffer_chain_insert_new. */
  method InsertNew(buf: Evbuffer, datlen: nat) returns (result: Chain)
    requires buf.Valid()
    modifies buf`first, buf`last, buf`lastWithDataOwner, buf`totalLen, buf`view, buf.view.chains`next
    ensures buf.Valid() && buf.Contents() == old(buf.Contents()) && Gives(buf.view, result, datlen)
    ensures NewChains(old(buf.view.chains), buf.view.chains)
    ensures old(buf.NoHoles()) ==> buf.NoHoles()
  {
    hide Join, Distinct, Link, Data, Packed, LastData;
    result := new Chain(datlen);
    ghost var v := buf.view;
    CutNext(v.segs, v.lwd);
    buf.ChainInsert(result, []);
    assert old(buf.Contents()) + [] == old(buf.Contents());
    assert buf.view.chains[Cut(v.segs, v.lwd)] == result;
  }

  lemma CutNext(segs: Segs, lwd: nat)
    requires LastData(segs, lwd)
    ensures Cut(segs, lwd) <= lwd + 1 && Cut(segs, lwd) <= |segs|
    ensures Cut(segs, lwd) == 0 ==> lwd == 0
    ensures Cut(segs, lwd) == lwd || Cut(segs, lwd) == lwd + 1
  {
  }

  /** `result` has the room, and is the last chain with data or the one behind it. */
  ghost predicate Gives(v: View, result: Chain, datlen: nat)
    reads result`misalign, result`off, result`buffer
  {
    result.SpaceLen() >= datlen && exists k :: v.lwd <= k <= v.lwd + 1 && k < |v.chains| && v.chains[k] == result
  }

  lemma LastFacts(segs: Segs, lwd: nat)
    requires LastData(segs, lwd) && segs != []
    ensures lwd < |segs| && (lwd + 1 < |segs| ==> segs[lwd + 1] == [])
  {
  }

  /** The first chain with room is used, realigned, replaced or left alone. */
  method UseChain(buf: Evbuffer, chain: Chain, datlen: nat, ghost k: nat) returns (result: Chain)
    requires buf.Valid() && k < |buf.view.chains| && chain == buf.view.chains[k]
    requires k == buf.view.lwd || (k == buf.view.lwd + 1 && chain.off == 0)
    modifies buf`first, buf`last, buf`lastWithDataOwner, buf`totalLen, buf`view, buf.view.chains
    ensures buf.Valid() && buf.Contents() == old(buf.Contents()) && Gives(buf.view, result, datlen)
    ensures NewChains(old(buf.view.chains), buf.view.chains)
    ensures old(buf.NoHoles()) ==> buf.NoHoles()
  {
    hide Join, Distinct, Link, Data, Packed, LastData;
    ghost var v := buf.view;
    if chain.immutable {
      result := InsertNew(buf, datlen);
    } else if chain.SpaceLen() >= datlen {
      result := chain;
      assert v.chains[k] == result;
    } else if chain.off == 0 {
      result := InsertNew(buf, datlen);
    } else if chain.ShouldRealign(datlen) {
      DataAt(v.chains, v.segs, k);
      buf.Realign(chain, k);
      result := chain;
      assert v.chains[k] == result;
    } else if chain.SpaceLen() < |chain.buffer| / 8 || chain.off > MAX_TO_COPY || datlen >= CHAIN_MAX - chain.off {
      LinkAt(v.chains, k);
      if chain.next != null && chain.next.SpaceLen() >= datlen {
        result := chain.next;
        assert v.chains[k + 1] == result;
      } else {
        result := InsertNew(buf, datlen);
      }
    } else {
      result := Resize(buf, chain, datlen);
      assert buf.view.chains[k] == result;
    }
  }

  /** evbuffer_expand_singlechain. */
  method ExpandSingleChain(buf: Evbuffer, datlen: nat) returns (result: Chain)
    requires buf.Valid()
    modifies buf`first, buf`last, buf`lastWithDataOwner, buf`totalLen, buf`view, buf.view.chains
    ensures buf.Valid() && buf.Contents() == old(buf.Contents()) && Gives(buf.view, result, datlen)
    ensures NewChains(old(buf.view.chains), buf.view.chains)
    ensures old(buf.NoHoles()) ==> buf.NoHoles()
  {
    hide Join, Distinct, Link, Data, Packed, LastData, Gives;
    ghost var v := buf.view;
    var chain := buf.LastWithData();
    if chain == null {
      result := InsertNew(buf, datlen);
      return;
    }
    LastFacts(v.segs, v.lwd);
    ghost var k := v.lwd;
    if chain.SpaceLen() == 0 {
      LinkAt(v.chains, k);
      chain, k := chain.next, k + 1;
      if chain == null {
        result := InsertNew(buf, datlen);
        return;
      }
      DataAt(v.chains, v.segs, k);
    }
    result := UseChain(buf, chain, datlen, k);
  }
}
