/**
 * Reading from a descriptor into an evbuffer: making room in at most n chains,
 * describing that room as vectors, and committing what the kernel wrote there.
 */
module EvbufferRead {
  import opened Wrappers
  import opened Flat
  import opened Chains
  import opened Evbuffers

  /** The room at the ends of the given chains. */
  ghost function SpaceSum(cs: seq<Chain>): (n: int)
    reads cs`misalign, cs`off, cs`buffer
  {
    if cs == [] then 0 else SpaceSum(cs[..|cs| - 1]) + cs[|cs| - 1].SpaceLen()
  }

  lemma SpaceSumSnoc(cs: seq<Chain>, a: nat, b: nat)
    requires a <= b < |cs|
    ensures SpaceSum(cs[a..b + 1]) == SpaceSum(cs[a..b]) + cs[b].SpaceLen()
  {
    assert cs[a..b + 1][..b - a] == cs[a..b];
  }

  lemma SpaceSumNil(cs: seq<Chain>, a: nat)
    requires a <= |cs|
    ensures SpaceSum(cs[a..a]) == 0
  {
  }

  /** The first chain with room, seen from the last chain with data. */
  ghost function FirstRoom(cs: seq<Chain>, lwd: nat): (f: nat)
    requires lwd < |cs|
    reads cs`misalign, cs`off, cs`buffer
  {
    if cs[lwd].SpaceLen() == 0 then lwd + 1 else lwd
  }

  /** The chains `vs` offer `sum` bytes, and all but perhaps the first offer some. */
  ghost predicate Room(vs: seq<Chain>, sum: int)
    reads vs`misalign, vs`off, vs`buffer
  {
    SpaceSum(vs) == sum && forall k :: 1 <= k < |vs| ==> vs[k].SpaceLen() > 0
  }

  lemma RoomNil(cs: seq<Chain>, a: nat)
    requires a <= |cs|
    ensures Room(cs[a..a], 0)
  {
  }

  lemma RoomSnoc(cs: seq<Chain>, a: nat, b: nat, sum: int)
    requires a <= b < |cs| && Room(cs[a..b], sum) && (b > a ==> cs[b].SpaceLen() > 0)
    ensures Room(cs[a..b + 1], sum + cs[b].SpaceLen())
  {
    SpaceSumSnoc(cs, a, b);
    var vs := cs[a..b + 1];
    forall k | 1 <= k < |vs| ensures vs[k].SpaceLen() > 0 {
      if k < b - a { assert vs[k] == cs[a..b][k]; }
    }
  }

  /** Chains lwd to e - 1 have room for `datlen` bytes, in at most `n` pieces. */
  ghost predicate Offers(v: View, datlen: nat, n: nat, e: nat)
    reads v.chains`misalign, v.chains`off, v.chains`buffer
  {
    && v.lwd < e <= |v.chains|
    && e - FirstRoom(v.chains, v.lwd) <= n
    && SpaceSum(v.chains[v.lwd..e]) >= datlen
    && Room(v.chains[v.lwd..e], SpaceSum(v.chains[v.lwd..e]))
    && EmptyHasRoom(v)
  }

  /** A list without data has room in its first chain. */
  ghost predicate EmptyHasRoom(v: View)
    reads v.chains`misalign, v.chains`off, v.chains`buffer
  {
    v.lwd < |v.chains| && v.lwd < |v.segs| && v.segs[v.lwd] == [] ==> v.chains[v.lwd].SpaceLen() > 0
  }

  /** An empty chain gets all its room at its end. */
  method Clear(chain: Chain, ghost cs: seq<Chain>, ghost segs: Segs, ghost i: nat)
    requires i < |cs| && chain == cs[i] && Distinct(cs) && Data(cs, segs) && chain.off == 0
    modifies chain`misalign
    ensures Data(cs, segs) && chain.SpaceLen() == |chain.buffer| && chain.SpaceLen() > 0
  {
    hide Distinct, Data;
    DataSize(cs, segs);
    DataApart(cs, segs, i);
    chain.misalign := 0;
    DataUpdate(cs, segs, i, segs[i]);
    assert segs[i := segs[i]] == segs;
  }

  lemma NotBefore(cs: seq<Chain>, a: nat, i: nat)
    requires Distinct(cs) && a <= i < |cs|
    ensures cs[i] !in cs[a..i]
  {
  }

  /** The counting loop of evbuffer_expand_fast_. */
  method CountSpace(start: Chain, datlen: nat, n: nat, ghost cs: seq<Chain>, ghost segs: Segs, ghost lwd: nat)
    returns (enough: bool, avail: nat, used: nat, ghost i: nat)
    requires Distinct(cs) && Link(cs) && Data(cs, segs) && LastData(segs, lwd) && n >= 2
    requires lwd < |cs| && start == cs[lwd]
    modifies cs`misalign
    ensures Data(cs, segs) && lwd < i <= |cs| && Room(cs[lwd..i], avail)
    ensures used == i - FirstRoom(cs, lwd) && used <= n && EmptyHasRoom(View(cs, segs, lwd))
    ensures if enough then avail >= datlen else avail < datlen && (used == n || i == |cs|)
  {
    hide Distinct, Link, Data, LastData, Room;
    DataSize(cs, segs);
    enough, avail, used, i := false, 0, 0, lwd;
    var chain: Chain? := start;
    RoomNil(cs, lwd);
    while chain != null
      invariant lwd <= i <= |cs| && chain == if i < |cs| then cs[i] else null
      invariant Data(cs, segs) && Room(cs[lwd..i], avail) && avail <= datlen
      invariant i > lwd ==> EmptyHasRoom(View(cs, segs, lwd))
      invariant if i == lwd then used == 0 else avail < datlen && used == i - FirstRoom(cs, lwd) && used < n
      decreases |cs| - i
    {
      DataAt(cs, segs, i);
      LinkAt(cs, i);
      NotBefore(cs, lwd, i);
      AfterLast(segs, lwd, i);
      if i > lwd { DistinctAt(cs, i, lwd); }
      ghost var sum := avail;
      if chain.off != 0 {
        var space := chain.SpaceLen();
        if space != 0 {
          avail := avail + space;
          used := used + 1;
        }
      } else {
        Clear(chain, cs, segs, i);
        avail := avail + |chain.buffer|;
        used := used + 1;
      }
      RoomSnoc(cs, lwd, i, sum);
      i := i + 1;
      if avail >= datlen {
        enough := true;
        return;
      }
      if used == n {
        return;
      }
      chain := chain.next;
    }
  }

  lemma AfterLast(segs: Segs, lwd: nat, i: nat)
    requires LastData(segs, lwd) && lwd <= i < |segs|
    ensures i > lwd ==> segs[i] == []
  {
  }

  /** `last->next = tmp; last = tmp`, with an empty chain. */
  method AppendEmpty(buf: Evbuffer, tmp: Chain)
    requires buf.Valid() && buf.view.chains != [] && tmp !in buf.view.chains && tmp.next == null && tmp.Holds([])
    modifies buf`first, buf`last, buf`lastWithDataOwner, buf`totalLen, buf`view, buf.view.chains`next
    ensures buf.Valid() && buf.Contents() == old(buf.Contents())
    ensures buf.view == old(View(buf.view.chains + [tmp], buf.view.segs + [[]], buf.view.lwd))
    ensures old(buf.NoHoles()) ==> buf.NoHoles()
  {
    hide Join, Distinct, Link, Data;
    ghost var cs, segs, lwd := buf.view.chains, buf.view.segs, buf.view.lwd;
    ListOfOne(tmp, cs);
    DistinctConcat(cs, [tmp]);
    JoinConcat(segs, [[]]);
    JoinOne([]);
    buf.SetSlot(buf.last, tmp, cs, [tmp]);
    buf.Install(buf.first, tmp, buf.lastWithDataOwner, buf.totalLen, View(cs + [tmp], segs + [[]], lwd));
    DataOne(tmp, []);
    DataConcat(cs, segs, [tmp], [[]]);
  }

  lemma DataOne(c: Chain, d: seq<Byte>)
    requires c.Holds(d)
    ensures Data([c], [d])
  {
  }

  /** One new chain holds all the room. */
  lemma OffersOne(v: View, datlen: nat, n: nat)
    requires |v.chains| > 0 && v.lwd < |v.chains| && n >= 2
    requires v.lwd == |v.chains| - 1 || (v.lwd == |v.chains| - 2 && v.chains[v.lwd].SpaceLen() >= 0)
    requires v.chains[|v.chains| - 1].SpaceLen() > 0 && EmptyHasRoom(v)
    requires (if v.lwd == |v.chains| - 2 then v.chains[v.lwd].SpaceLen() else 0) + v.chains[|v.chains| - 1].SpaceLen() >= datlen
    ensures Offers(v, datlen, n, |v.chains|)
  {
    var cs, lwd := v.chains, v.lwd;
    RoomNil(cs, lwd);
    RoomSnoc(cs, lwd, lwd, 0);
    if lwd == |cs| - 2 { RoomSnoc(cs, lwd, lwd + 1, cs[lwd].SpaceLen()); }
  }

  /** Replaces the trailing empty chains by one with room for what the last chain with data lacks. */
  method InsertRoom(buf: Evbuffer, size: nat, datlen: nat, n: nat)
    requires buf.Valid() && n >= 2
    requires size + RoomOfLast(buf.view) >= datlen
    modifies buf`first, buf`last, buf`lastWithDataOwner, buf`totalLen, buf`view, buf.view.chains`next
    ensures buf.Valid() && buf.Contents() == old(buf.Contents()) && NewChains(old(buf.view.chains), buf.view.chains)
    ensures Offers(buf.view, datlen, n, |buf.view.chains|)
    ensures old(buf.NoHoles()) ==> buf.NoHoles()
  {
    hide Join, Distinct, Link, Data, Packed, SpaceSum, Offers, LastData, Cut, EmptyHasRoom, FirstRoom, RoomOfLast;
    ghost var v := buf.view;
    ghost var room := RoomOfLast(v);
    var chain := new Chain(size);
    assert RoomOfLast(v) == room;
    buf.ChainInsert(chain, []);
    assert RoomOfLast(v) == room;
    OffersInserted(v, buf.view, chain, datlen, n);
  }

  /** The room in the last chain with data. */
  ghost function RoomOfLast(v: View): (n: int)
    requires LastData(v.segs, v.lwd) && |v.segs| == |v.chains|
    reads v.chains`misalign, v.chains`off, v.chains`buffer
  {
    if v.chains == [] || v.segs[v.lwd] == [] then 0 else v.chains[v.lwd].SpaceLen()
  }

  lemma OffersInserted(v: View, w: View, chain: Chain, datlen: nat, n: nat)
    requires LastData(v.segs, v.lwd) && |v.segs| == |v.chains| && Data(v.chains, v.segs) && n >= 2
    requires var cut := Cut(v.segs, v.lwd); w == View(v.chains[..cut] + [chain], v.segs[..cut] + [[]], v.lwd)
    requires chain.Holds([]) && chain.SpaceLen() > 0 && chain.SpaceLen() + RoomOfLast(v) >= datlen
    ensures Offers(w, datlen, n, |w.chains|)
  {
    hide Offers, Data;
    if v.chains != [] { DataAt(v.chains, v.segs, v.lwd); }
    OffersOne(w, datlen, n);
  }

  lemma SnocSlice(cs: seq<Chain>, c: Chain, a: nat)
    requires a <= |cs|
    ensures (cs + [c])[a..|cs|] == cs[a..]
  {
    var u, v := (cs + [c])[a..|cs|], cs[a..];
    forall k | 0 <= k < |u| ensures u[k] == v[k] {}
  }

  /** Adds one more chain with the room that all the others lack. */
  method AppendRoom(buf: Evbuffer, size: nat, datlen: nat, n: nat, ghost sum: nat)
    requires buf.Valid() && buf.view.chains != []
    requires var v := buf.view;
      && |v.chains| - FirstRoom(v.chains, v.lwd) < n && sum + size >= datlen && Room(v.chains[v.lwd..], sum)
      && EmptyHasRoom(v)
    modifies buf`first, buf`last, buf`lastWithDataOwner, buf`totalLen, buf`view, buf.view.chains`next
    ensures buf.Valid() && buf.Contents() == old(buf.Contents()) && NewChains(old(buf.view.chains), buf.view.chains)
    ensures Offers(buf.view, datlen, n, |old(buf.view.chains)| + 1)
    ensures old(buf.NoHoles()) ==> buf.NoHoles()
  {
    hide Join, Evbuffer.Valid, Packed, SpaceSum, Room, Offers, FirstRoom, EmptyHasRoom;
    ViewShape(buf);
    ghost var v := buf.view;
    ghost var tail, f := v.chains[v.lwd..], FirstRoom(v.chains, v.lwd);
    var tmp := new Chain(size);
    assert Room(tail, sum) && FirstRoom(v.chains, v.lwd) == f && EmptyHasRoom(v);
    AppendEmpty(buf, tmp);
    assert Room(tail, sum) && FirstRoom(v.chains, v.lwd) == f && EmptyHasRoom(v);
    OffersMore(v, buf.view, tmp, datlen, n, sum);
  }

  lemma OffersMore(v: View, w: View, tmp: Chain, datlen: nat, n: nat, sum: nat)
    requires v.lwd < |v.chains| == |v.segs| && w == View(v.chains + [tmp], v.segs + [[]], v.lwd)
    requires |v.chains| - FirstRoom(v.chains, v.lwd) < n && tmp.SpaceLen() > 0 && sum + tmp.SpaceLen() >= datlen
    requires Room(v.chains[v.lwd..], sum) && EmptyHasRoom(v)
    ensures Offers(w, datlen, n, |v.chains| + 1)
  {
    hide Room, Offers, FirstRoom, EmptyHasRoom;
    var e := |v.chains|;
    SnocSlice(v.chains, tmp, v.lwd);
    RoomSnoc(w.chains, v.lwd, e, sum);
    SameRoom(v, w, tmp);
    OffersRoom(w, datlen, n, e + 1, sum + tmp.SpaceLen());
  }

  lemma ViewShape(buf: Evbuffer)
    requires buf.Valid() && buf.view.chains != []
    ensures |buf.view.segs| == |buf.view.chains| && buf.view.lwd < |buf.view.chains|
  {
  }

  lemma SameRoom(v: View, w: View, tmp: Chain)
    requires v.lwd < |v.chains| == |v.segs| && w == View(v.chains + [tmp], v.segs + [[]], v.lwd)
    ensures FirstRoom(w.chains, w.lwd) == FirstRoom(v.chains, v.lwd) && (EmptyHasRoom(v) ==> EmptyHasRoom(w))
  {
  }

  lemma OffersRoom(v: View, datlen: nat, n: nat, e: nat, sum: int)
    requires v.lwd < e <= |v.chains| && e - FirstRoom(v.chains, v.lwd) <= n
    requires Room(v.chains[v.lwd..e], sum) && sum >= datlen && EmptyHasRoom(v)
    ensures Offers(v, datlen, n, e)
  {
  }

  lemma RoomSum(vs: seq<Chain>, sum: int)
    requires Room(vs, sum)
    ensures SpaceSum(vs) == sum
  {
  }

  /** What evbuffer_expand_fast_ does once it has counted the room there is. */
  method Provide(buf: Evbuffer, lastWithData: Chain, datlen: nat, n: nat, avail: nat, used: nat, ghost i: nat)
    returns (ghost e: nat)
    requires buf.Valid() && n >= 2 && buf.view.chains != [] && lastWithData == buf.view.chains[buf.view.lwd]
    requires var v := buf.view;
      v.lwd < i <= |v.chains| && Room(v.chains[v.lwd..i], avail) && used == i - FirstRoom(v.chains, v.lwd)
    requires used <= n && (avail < datlen ==> used == n || i == |buf.view.chains|) && EmptyHasRoom(buf.view)
    modifies buf`first, buf`last, buf`lastWithDataOwner, buf`totalLen, buf`view, buf.view.chains`next
    ensures buf.Valid() && buf.Contents() == old(buf.Contents()) && NewChains(old(buf.view.chains), buf.view.chains)
    ensures Offers(buf.view, datlen, n, e)
    ensures old(buf.NoHoles()) ==> buf.NoHoles()
  {
    hide Join, Distinct, Link, Data, Packed, SpaceSum, Room;
    ghost var v := buf.view;
    e := i;
    RoomSum(v.chains[v.lwd..i], avail);
    if avail >= datlen {
      return;
    }
    if used < n {
      ToEnd(v.chains, v.lwd);
      AppendRoom(buf, datlen - avail, datlen, n, avail);
      e := e + 1;
    } else {
      DataAt(v.chains, v.segs, v.lwd);
      RoomBound(v.chains, v.segs, v.lwd, i);
      var room := if lastWithData.off == 0 then 0 else lastWithData.SpaceLen();
      InsertRoom(buf, datlen - room, datlen, n);
      e := |buf.view.chains|;
    }
  }

  /** evbuffer_expand_fast_: room for `datlen` bytes in at most `n` chains, without moving data. */
  method ExpandFast(buf: Evbuffer, datlen: nat, n: nat) returns (ghost e: nat)
    requires buf.Valid() && n >= 2
    modifies buf`first, buf`last, buf`lastWithDataOwner, buf`totalLen, buf`view, buf.view.chains`next, buf.view.chains`misalign
    ensures buf.Valid() && buf.Contents() == old(buf.Contents()) && NewChains(old(buf.view.chains), buf.view.chains)
    ensures Offers(buf.view, datlen, n, e)
    ensures old(buf.NoHoles()) ==> buf.NoHoles()
  {
    hide Join, Distinct, Link, Data, Packed, SpaceSum, Offers;
    ghost var v := buf.view;
    if buf.last == null || buf.last.immutable {
      if v.chains != [] { DataAt(v.chains, v.segs, |v.chains| - 1); }
      InsertRoom(buf, datlen, datlen, n);
      e := |buf.view.chains|;
    } else {
      var lastWithData := buf.LastWithData();
      var enough, avail, used;
      enough, avail, used, e := CountSpace(lastWithData, datlen, n, v.chains, v.segs, v.lwd);
      e := Provide(buf, lastWithData, datlen, n, avail, used, e);
    }
  }

  lemma {:induction false} RoomBound(cs: seq<Chain>, segs: Segs, lwd: nat, e: nat)
    requires Data(cs, segs) && lwd < e <= |cs|
    ensures SpaceSum(cs[lwd..e]) >= cs[lwd].SpaceLen() >= 0
  {
    DataAt(cs, segs, lwd);
    SpaceSumSnoc(cs, lwd, e - 1);
    if e - 1 > lwd {
      DataAt(cs, segs, e - 1);
      RoomBound(cs, segs, lwd, e - 1);
    } else {
      SpaceSumNil(cs, lwd);
    }
  }

  // ---- evbuffer_read_setup_vecs_ ----

  function Total(lens: seq<nat>): (n: nat) {
    if lens == [] then 0 else Total(lens[..|lens| - 1]) + lens[|lens| - 1]
  }

  lemma TotalSnoc(lens: seq<nat>, x: nat)
    ensures Total(lens + [x]) == Total(lens) + x
  {
    assert (lens + [x])[..|lens|] == lens;
  }

  /** Vector k covers the whole room of chain f + k. */
  ghost predicate CoversAll(cs: seq<Chain>, f: nat, lens: seq<nat>)
    reads cs`misalign, cs`off, cs`buffer
  {
    && f + |lens| <= |cs|
    && (forall k :: 0 <= k < |lens| ==> lens[k] == cs[f + k].SpaceLen())
  }

  /** As CoversAll, but the last vector may stop short. */
  ghost predicate Covers(cs: seq<Chain>, f: nat, lens: seq<nat>)
    reads cs`misalign, cs`off, cs`buffer
  {
    || CoversAll(cs, f, lens)
    || (&& 0 < |lens| && f + |lens| <= |cs| && CoversAll(cs, f, lens[..|lens| - 1])
        && lens[|lens| - 1] <= cs[f + |lens| - 1].SpaceLen())
  }

  lemma CoversSnoc(cs: seq<Chain>, f: nat, lens: seq<nat>, x: nat)
    requires CoversAll(cs, f, lens) && f + |lens| < |cs| && x <= cs[f + |lens|].SpaceLen()
    ensures Covers(cs, f, lens + [x])
    ensures x == cs[f + |lens|].SpaceLen() ==> CoversAll(cs, f, lens + [x])
  {
    assert (lens + [x])[..|lens|] == lens;
  }

  /** The loop of evbuffer_read_setup_vecs_. */
  method SetupLoop(first: Chain?, howmuch: nat, nVecs: nat, exact: bool,
                   ghost cs: seq<Chain>, ghost segs: Segs, ghost lwd: nat, ghost f: nat, ghost e: nat)
    returns (lens: seq<nat>)
    requires Link(cs) && Data(cs, segs) && lwd <= f <= e <= |cs| && e <= f + nVecs
    requires first == (if f < |cs| then cs[f] else null)
    requires SpaceSum(cs[lwd..f]) == 0 && SpaceSum(cs[lwd..e]) >= howmuch
    ensures |lens| <= nVecs && f + |lens| <= e && Covers(cs, f, lens)
    ensures if exact then Total(lens) == howmuch else Total(lens) >= howmuch
  {
    hide Link, Data, SpaceSum, Covers, CoversAll, Total;
    var chain, soFar := first, 0;
    lens := [];
    TotalNil();
    CoversNil(cs, f);
    while |lens| < nVecs && soFar < howmuch
      invariant |lens| <= nVecs && f + |lens| <= e && soFar == Total(lens)
      invariant chain == if f + |lens| < |cs| then cs[f + |lens|] else null
      invariant soFar < howmuch ==> soFar == SpaceSum(cs[lwd..f + |lens|]) && CoversAll(cs, f, lens)
      invariant f + |lens| == e ==> soFar >= howmuch
      invariant exact ==> soFar <= howmuch
      invariant Covers(cs, f, lens)
    {
      ghost var k := f + |lens|;
      DataAt(cs, segs, k);
      LinkAt(cs, k);
      SpaceSumSnoc(cs, lwd, k);
      var avail := chain.SpaceLen();
      if avail > howmuch - soFar && exact {
        avail := howmuch - soFar;
      }
      TotalSnoc(lens, avail);
      CoversSnoc(cs, f, lens, avail);
      lens := lens + [avail];
      soFar := soFar + avail;
      chain := chain.next;
    }
  }

  lemma TotalNil()
    ensures Total([]) == 0
  {
  }

  lemma CoversNil(cs: seq<Chain>, f: nat)
    requires f <= |cs|
    ensures CoversAll(cs, f, []) && Covers(cs, f, [])
  {
  }

  /** evbuffer_read_setup_vecs_: the lengths of the vectors and the slot of the first chain used. */
  method ReadSetupVecs(buf: Evbuffer, howmuch: nat, nVecs: nat, exact: bool, ghost e: nat)
    returns (owner: Chain?, first: Chain?, lens: seq<nat>)
    requires buf.Valid() && Offers(buf.view, howmuch, nVecs, e)
    ensures var v := buf.view; var f := FirstRoom(v.chains, v.lwd);
      && owner == (if f == 0 then null else v.chains[f - 1])
      && first == (if f < |v.chains| then v.chains[f] else null)
      && |lens| <= nVecs && f + |lens| <= e && Covers(v.chains, f, lens)
    ensures if exact then Total(lens) == howmuch else Total(lens) >= howmuch
  {
    hide Join, Distinct, Link, Data, SpaceSum, LastData, Covers, Total;
    ghost var cs, lwd := buf.view.chains, buf.view.lwd;
    DataAt(cs, buf.view.segs, lwd);
    LinkAt(cs, lwd);
    SpaceSumNil(cs, lwd);
    SpaceSumSnoc(cs, lwd, lwd);
    owner := buf.lastWithDataOwner;
    first := buf.LastWithData();
    if first.SpaceLen() == 0 {
      owner := first;
      first := first.next;
    }
    lens := SetupLoop(first, howmuch, nVecs, exact, cs, buf.view.segs, lwd, FirstRoom(cs, lwd), e);
  }

  // ---- the kernel's part: filling the vectors in order ----

  /** `p` cuts a byte string into pieces that fill vectors of the given lengths in order. */
  ghost predicate Fills(p: Segs, lens: seq<nat>)
  {
    && |p| == |lens|
    && (forall k :: 0 <= k < |p| ==> |p[k]| <= lens[k])
    && (forall j, k :: 0 <= j < k < |p| && p[k] != [] ==> |p[j]| == lens[j])
  }

  /** Chain k of `ds` has piece k written behind its data. */
  ghost predicate StagedAll(ds: seq<Chain>, p: Segs)
    reads ds`misalign, ds`off, ds`buffer
  {
    && |ds| == |p|
    && (forall k :: 0 <= k < |ds| ==> ds[k].Staged(p[k]))
  }

  lemma StagedCons(ds: seq<Chain>, x: seq<Byte>, p: Segs)
    requires ds != [] && ds[0].Staged(x) && StagedAll(ds[1..], p)
    ensures StagedAll(ds, [x] + p)
  {
    forall k | 0 <= k < |ds| ensures ds[k].Staged(([x] + p)[k]) {
      if k > 0 { assert ds[1..][k - 1] == ds[k]; }
    }
  }

  lemma FillsCons(x: seq<Byte>, n: nat, p: Segs, lens: seq<nat>)
    requires Fills(p, lens) && |x| <= n && (|x| < n ==> Join(p) == [])
    ensures Fills([x] + p, [n] + lens)
  {
    forall k | 0 < k < |[x] + p| && ([x] + p)[k] != [] ensures |x| == n {
      JoinAt(p, k - 1);
    }
  }

  lemma {:induction false} TotalCons(x: nat, lens: seq<nat>)
    ensures Total([x] + lens) == x + Total(lens)
  {
    if lens == [] {
      assert [x] + lens == [] + [x];
      TotalSnoc([], x);
    } else {
      var n := |lens| - 1;
      assert lens == lens[..n] + [lens[n]];
      assert [x] + lens == ([x] + lens[..n]) + [lens[n]];
      TotalSnoc(lens[..n], lens[n]);
      TotalSnoc([x] + lens[..n], lens[n]);
      TotalCons(x, lens[..n]);
    }
  }

  /** Vector k lies in the room of chain k of `ds`; all but the last cover that room. */
  ghost predicate Tight(ds: seq<Chain>, lens: seq<nat>)
    reads ds`misalign, ds`off, ds`buffer
  {
    && |ds| == |lens|
    && (forall k :: 0 <= k < |ds| ==> !ds[k].immutable && lens[k] <= ds[k].SpaceLen())
    && (forall k :: 0 <= k < |ds| - 1 ==> lens[k] == ds[k].SpaceLen())
  }

  /** Consecutive chains of a list. */
  ghost predicate Run(ds: seq<Chain>)
    reads ds`next
  {
    forall k {:trigger ds[k].next} :: 0 <= k < |ds| - 1 ==> ds[k].next == ds[k + 1]
  }

  /** The parts of the above for the first chain and for the others. */
  lemma Unpack(ds: seq<Chain>, segs: Segs, lens: seq<nat>)
    requires ds != [] && Distinct(ds) && Run(ds) && Data(ds, segs) && Tight(ds, lens)
    ensures |ds| == |segs| == |lens| && ds[0] !in ds[1..] && Distinct(ds[1..]) && Run(ds[1..])
    ensures ds[0].Holds(segs[0]) && !ds[0].immutable && lens[0] <= ds[0].SpaceLen()
    ensures |ds| > 1 ==> lens[0] == ds[0].SpaceLen()
    ensures |ds| > 1 ==> ds[0].next == ds[1]
    ensures Data(ds[1..], segs[1..]) && Tight(ds[1..], lens[1..])
  {
    forall k {:trigger ds[1..][k].next} | 0 <= k < |ds[1..]| - 1 ensures ds[1..][k].next == ds[1..][k + 1] {
      assert ds[1..][k] == ds[k + 1];
    }
  }

  lemma Repack(ds: seq<Chain>, segs: Segs, lens: seq<nat>)
    requires |ds| == |segs| == |lens| > 0 && ds[0].Holds(segs[0]) && !ds[0].immutable && lens[0] <= ds[0].SpaceLen()
    requires |ds| > 1 ==> lens[0] == ds[0].SpaceLen()
    requires Data(ds[1..], segs[1..]) && Tight(ds[1..], lens[1..])
    ensures Data(ds, segs) && Tight(ds, lens)
  {
    assert ds == [ds[0]] + ds[1..] && segs == [segs[0]] + segs[1..];
    DataCons(ds[0], segs[0], ds[1..], segs[1..]);
    forall k | 0 <= k < |ds| ensures !ds[k].immutable && lens[k] <= ds[k].SpaceLen() {
      if k > 0 { assert ds[1..][k - 1] == ds[k] && lens[1..][k - 1] == lens[k]; }
    }
    forall k | 0 <= k < |ds| - 1 ensures lens[k] == ds[k].SpaceLen() {
      if k > 0 { assert ds[1..][k - 1] == ds[k] && lens[1..][k - 1] == lens[k]; }
    }
  }

  /** readv: `input`, which fits, arrives in the vectors in order; no chain counts it yet. */
  method Readv(chain: Chain?, lens: seq<nat>, input: seq<Byte>, ghost ds: seq<Chain>, ghost segs: Segs)
    returns (ghost p: Segs)
    requires Distinct(ds) && Run(ds) && Data(ds, segs) && Tight(ds, lens) && |input| <= Total(lens)
    requires ds != [] ==> chain == ds[0]
    modifies ds`buffer
    ensures Data(ds, segs) && Tight(ds, lens)
    ensures Fills(p, lens) && Join(p) == input && StagedAll(ds, p)
    decreases |lens|
  {
    hide Distinct, Run, Data, Tight, Join, Total, StagedAll, Fills;
    if lens == [] {
      p := [];
      Nothing(ds, lens);
    } else {
      TightSize(ds, lens);
      Unpack(ds, segs, lens);
      assert lens == [lens[0]] + lens[1..];
      TotalCons(lens[0], lens[1..]);
      var take := if lens[0] < |input| then lens[0] else |input|;
      chain.Stage(input[..take], segs[0]);
      ghost var q := Readv(chain.next, lens[1..], input[take..], ds[1..], segs[1..]);
      p := [input[..take]] + q;
      Repack(ds, segs, lens);
      StagedCons(ds, input[..take], q);
      Delivered(input, take, lens, q);
    }
  }

  /** The first vector took `take` bytes, the others the rest. */
  lemma Delivered(input: seq<Byte>, take: nat, lens: seq<nat>, q: Segs)
    requires lens != [] && take <= |input| && take <= lens[0] && (take < lens[0] ==> take == |input|)
    requires Fills(q, lens[1..]) && Join(q) == input[take..]
    ensures Fills([input[..take]] + q, lens) && Join([input[..take]] + q) == input
  {
    hide Fills, Join;
    assert lens == [lens[0]] + lens[1..];
    FillsCons(input[..take], lens[0], q, lens[1..]);
    JoinConcat([input[..take]], q);
    JoinOne(input[..take]);
  }

  lemma TightSize(ds: seq<Chain>, lens: seq<nat>)
    requires Tight(ds, lens)
    ensures |ds| == |lens|
  {
  }

  lemma Nothing(ds: seq<Chain>, lens: seq<nat>)
    requires Tight(ds, lens) && lens == []
    ensures Fills([], []) && Join([]) == [] && StagedAll(ds, []) && Total([]) == 0
  {
  }

  // ---- the commit loop of evbuffer_read ----

  /** Segment by segment, `s` with `p` behind it. */
  ghost function AddAll(s: Segs, p: Segs): (r: Segs)
    requires |s| == |p|
    ensures |r| == |s|
  {
    seq(|s|, k requires 0 <= k < |s| => s[k] + p[k])
  }

  lemma AddAllAt(s: Segs, p: Segs, k: nat)
    requires |s| == |p| && k < |s|
    ensures AddAll(s, p)[k] == s[k] + p[k]
  {
  }

  lemma {:induction false} JoinNothing(s: Segs)
    requires Join(s) == []
    ensures forall k :: 0 <= k < |s| ==> s[k] == []
  {
    forall k | 0 <= k < |s| ensures s[k] == [] { JoinAt(s, k); }
  }

  /** What the comparison of room and remaining count tells about the pieces. */
  lemma CommitStep(p: Segs, lens: seq<nat>, i: nat, remaining: nat, space: nat)
    requires Fills(p, lens) && i < |p| && remaining == |Join(p[i..])|
    requires space >= lens[i] && (i < |p| - 1 ==> space == lens[i])
    ensures space < remaining ==> |p[i]| == space && i + 1 < |p| && |Join(p[i + 1..])| == remaining - space
    ensures space >= remaining ==> |p[i]| == remaining && forall k :: i < k < |p| ==> p[k] == []
  {
    JoinDrop(p, i);
    if Join(p[i + 1..]) == [] {
      JoinNothing(p[i + 1..]);
      forall k | i < k < |p| ensures p[k] == [] { assert p[i + 1..][k - i - 1] == p[k]; }
    } else if forall k :: i < k < |p| ==> p[k] == [] {
      JoinEmpties(p[i + 1..]);
    }
  }

  /** The parts of the state in front of and behind chain i. */
  ghost predicate Midway(ds: seq<Chain>, segs: Segs, lens: seq<nat>, p: Segs, i: nat)
    reads ds`misalign, ds`off, ds`buffer
  {
    && i <= |ds| == |segs| == |p| == |lens|
    && Data(ds[..i], AddAll(segs[..i], p[..i]))
    && Data(ds[i..], segs[i..]) && StagedAll(ds[i..], p[i..]) && Tight(ds[i..], lens[i..])
  }

  lemma MidwayStart(ds: seq<Chain>, segs: Segs, lens: seq<nat>, p: Segs)
    requires Data(ds, segs) && StagedAll(ds, p) && Tight(ds, lens)
    ensures Midway(ds, segs, lens, p, 0)
  {
    assert ds[0..] == ds && segs[0..] == segs && p[0..] == p && lens[0..] == lens;
  }

  /** Chain i seen from Midway. */
  lemma MidwayAt(ds: seq<Chain>, segs: Segs, lens: seq<nat>, p: Segs, i: nat)
    requires Midway(ds, segs, lens, p, i) && i < |ds| && Distinct(ds)
    ensures |ds| == |segs| == |p| == |lens|
    ensures ds[i].Holds(segs[i]) && ds[i].Staged(p[i]) && ds[i].SpaceLen() >= lens[i]
    ensures i < |ds| - 1 ==> ds[i].SpaceLen() == lens[i]
    ensures ds[i] !in ds[..i] && ds[i] !in ds[i + 1..]
    ensures Data(ds[..i], AddAll(segs[..i], p[..i]))
    ensures Data(ds[i + 1..], segs[i + 1..]) && StagedAll(ds[i + 1..], p[i + 1..]) && Tight(ds[i + 1..], lens[i + 1..])
  {
    assert ds[i..][0] == ds[i] && segs[i..][0] == segs[i] && p[i..][0] == p[i] && lens[i..][0] == lens[i];
    assert ds[i..][1..] == ds[i + 1..] && segs[i..][1..] == segs[i + 1..];
    assert p[i..][1..] == p[i + 1..] && lens[i..][1..] == lens[i + 1..];
  }

  lemma MidwayNext(ds: seq<Chain>, segs: Segs, lens: seq<nat>, p: Segs, i: nat)
    requires i < |ds| == |segs| == |p| == |lens| && ds[i].Holds(segs[i] + p[i])
    requires Data(ds[..i], AddAll(segs[..i], p[..i]))
    requires Data(ds[i + 1..], segs[i + 1..]) && StagedAll(ds[i + 1..], p[i + 1..]) && Tight(ds[i + 1..], lens[i + 1..])
    ensures Midway(ds, segs, lens, p, i + 1)
  {
    assert ds[..i + 1] == ds[..i] + [ds[i]];
    assert AddAll(segs[..i + 1], p[..i + 1]) == AddAll(segs[..i], p[..i]) + [segs[i] + p[i]];
    DataOne(ds[i], segs[i] + p[i]);
    DataConcat(ds[..i], AddAll(segs[..i], p[..i]), [ds[i]], [segs[i] + p[i]]);
  }

  /** Nothing is staged from chain i on: all pieces are in. */
  lemma MidwayEnd(ds: seq<Chain>, segs: Segs, lens: seq<nat>, p: Segs, i: nat)
    requires Midway(ds, segs, lens, p, i) && (forall k :: i <= k < |p| ==> p[k] == [])
    ensures |ds| == |segs| == |p| && Data(ds, AddAll(segs, p))
  {
    assert ds == ds[..i] + ds[i..];
    var all, parts := AddAll(segs, p), AddAll(segs[..i], p[..i]) + segs[i..];
    forall k | 0 <= k < |all| ensures all[k] == parts[k] {
      if i <= k { assert segs[k] + [] == segs[k]; }
    }
    assert all == parts;
    DataConcat(ds[..i], AddAll(segs[..i], p[..i]), ds[i..], segs[i..]);
  }

  /** Counts the staged bytes of chain i. */
  method CommitOne(chain: Chain, n: nat, ghost ds: seq<Chain>, ghost segs: Segs, ghost lens: seq<nat>, ghost p: Segs, ghost i: nat)
    requires Midway(ds, segs, lens, p, i) && Distinct(ds) && i < |ds| && chain == ds[i] && i < |p| && n == |p[i]|
    modifies chain`off
    ensures Midway(ds, segs, lens, p, i + 1)
  {
    hide Midway, Distinct, Data, StagedAll, Tight, AddAll;
    MidwayAt(ds, segs, lens, p, i);
    chain.CommitStaged(n, p[i], segs[i]);
    MidwayNext(ds, segs, lens, p, i);
  }

  /** The commit loop of evbuffer_read: returns the owner of the slot of the last chain that got data. */
  method Commit(start: Chain?, owner0: Chain?, nVecs: nat, n: nat,
                ghost ds: seq<Chain>, ghost segs: Segs, ghost lens: seq<nat>, ghost p: Segs)
    returns (owner: Chain?, ghost j: nat)
    requires Distinct(ds) && Run(ds) && Data(ds, segs) && StagedAll(ds, p) && Tight(ds, lens) && Fills(p, lens)
    requires nVecs == |ds| && (ds != [] ==> start == ds[0]) && 0 < n == |Join(p)|
    modifies ds`off
    ensures |ds| == |segs| == |p| == |lens| && Data(ds, AddAll(segs, p))
    ensures j < |p| && p[j] != [] && (forall k :: j < k < |p| ==> p[k] == []) && (forall k :: 0 <= k < j ==> |p[k]| == lens[k])
    ensures owner == if j == 0 then owner0 else ds[j - 1]
  {
    hide Midway, Distinct, Data, StagedAll, Tight, AddAll, Run, Fills, Join;
    MidwayStart(ds, segs, lens, p);
    MidwaySize(ds, segs, lens, p, 0);
    var chain, remaining, i := start, n, 0;
    owner, j := owner0, 0;
    var done := false;
    assert p[0..] == p;
    while i < nVecs && !done
      invariant Midway(ds, segs, lens, p, i) && i <= nVecs
      invariant !done ==> |Join(p[i..])| == remaining > 0 && (i < nVecs ==> chain == ds[i])
      invariant !done ==> owner == if i == 0 then owner0 else ds[i - 1]
      invariant done ==> 0 < i && j == i - 1 && p[j] != [] && (forall k :: j < k < |p| ==> p[k] == [])
      invariant done ==> owner == if j == 0 then owner0 else ds[j - 1]
      decreases nVecs - i, !done
    {
      MidwayAt(ds, segs, lens, p, i);
      var space := chain.SpaceLen();
      CommitStep(p, lens, i, remaining, space);
      if space < remaining {
        CommitOne(chain, space, ds, segs, lens, p, i);
        remaining := remaining - space;
        RunAt(ds, i);
        owner := chain;
        chain := chain.next;
      } else {
        CommitOne(chain, remaining, ds, segs, lens, p, i);
        j := i;
        done := true;
      }
      i := i + 1;
    }
    NotPast(p, i, done);
    MidwayEnd(ds, segs, lens, p, i);
    FilledBefore(p, lens, j);
  }

  lemma MidwaySize(ds: seq<Chain>, segs: Segs, lens: seq<nat>, p: Segs, i: nat)
    requires Midway(ds, segs, lens, p, i)
    ensures i <= |ds| == |segs| == |p| == |lens|
  {
  }

  lemma RunAt(ds: seq<Chain>, i: nat)
    requires Run(ds) && i + 1 < |ds|
    ensures ds[i].next == ds[i + 1]
  {
  }

  lemma NotPast(p: Segs, i: nat, done: bool)
    requires i <= |p| && (!done ==> i == |p| && Join(p[i..]) != [])
    ensures done
  {
    assert p[|p|..] == [];
  }

  lemma FilledBefore(p: Segs, lens: seq<nat>, j: nat)
    requires Fills(p, lens) && j < |p| && p[j] != []
    ensures forall k :: 0 <= k < j ==> |p[k]| == lens[k]
  {
  }

  // ---- evbuffer_read ----

  lemma TailAdded(s: Segs, p: Segs)
    requires |s| == |p| > 0 && forall k :: 1 <= k < |s| ==> s[k] == []
    ensures AddAll(s, p)[1..] == p[1..]
  {
    hide AddAll;
    var t := AddAll(s, p);
    forall k | 1 <= k < |t| ensures t[k] == p[k] {
      AddAllAt(s, p, k);
      assert [] + p[k] == p[k];
    }
  }

  lemma JoinAddAll(s: Segs, p: Segs)
    requires |s| == |p| && forall k :: 1 <= k < |s| ==> s[k] == []
    ensures Join(AddAll(s, p)) == Join(s) + Join(p)
  {
    hide Join, AddAll;
    var t := AddAll(s, p);
    if s == [] {
      JoinNil();
    } else {
      AddAllAt(s, p, 0);
      TailAdded(s, p);
      JoinFirst(t);
      JoinFirst(s);
      JoinFirst(p);
      JoinEmpties(s[1..]);
      assert s[0] + [] == s[0];
      Assoc(s[0], p[0], Join(p[1..]));
    }
  }

  /** The segments after a read: pieces `p` behind segments f to f + |p| - 1. */
  ghost function ReadInto(segs: Segs, f: nat, p: Segs): (r: Segs)
    requires f + |p| <= |segs|
    ensures |r| == |segs|
  {
    segs[..f] + AddAll(segs[f..f + |p|], p) + segs[f + |p|..]
  }

  lemma ReadIntoAt(segs: Segs, f: nat, p: Segs, k: nat)
    requires f + |p| <= |segs| && k < |segs|
    ensures ReadInto(segs, f, p)[k] == if f <= k < f + |p| then segs[k] + p[k - f] else segs[k]
  {
  }

  lemma JoinReadInto(segs: Segs, lwd: nat, f: nat, p: Segs)
    requires LastData(segs, lwd) && lwd < |segs| && lwd <= f && f + |p| <= |segs|
    ensures Join(ReadInto(segs, f, p)) == Join(segs) + Join(p)
  {
    hide Join, AddAll;
    var mid, tail := segs[f..f + |p|], segs[f + |p|..];
    JoinAddAll(mid, p);
    Join3(segs[..f], AddAll(mid, p), tail);
    Join3(segs[..f], mid, tail);
    assert segs == segs[..f] + mid + tail;
    TailEmpty(segs, lwd, f, p);
    Reorder(Join(segs[..f]), Join(mid), Join(p), Join(tail));
  }

  lemma Reorder(a: seq<Byte>, m: seq<Byte>, x: seq<Byte>, t: seq<Byte>)
    requires x == [] || t == []
    ensures a + (m + x) + t == a + m + t + x
  {
    if x == [] {
      assert m + x == m && a + m + t + x == a + m + t;
    } else {
      assert a + (m + x) + t == a + (m + x) == a + m + x;
      assert a + m + t == a + m;
    }
  }

  lemma Join3(a: Segs, b: Segs, c: Segs)
    ensures Join(a + b + c) == Join(a) + Join(b) + Join(c)
  {
    JoinConcat(a + b, c);
    JoinConcat(a, b);
  }

  /** Either nothing arrived or everything behind the vectors is empty. */
  lemma TailEmpty(segs: Segs, lwd: nat, f: nat, p: Segs)
    requires LastData(segs, lwd) && lwd < |segs| && lwd <= f && f + |p| <= |segs|
    ensures Join(p) == [] || Join(segs[f + |p|..]) == []
  {
    if p == [] { JoinNil(); } else { JoinEmpties(segs[f + |p|..]); }
  }

  lemma ReadEmpty(segs: Segs, lwd: nat, f: nat, p: Segs, j: nat, k: nat)
    requires LastData(segs, lwd) && lwd <= f && f + |p| <= |segs| && j < |p| && (forall m :: j < m < |p| ==> p[m] == [])
    requires f + j < k < |segs|
    ensures ReadInto(segs, f, p)[k] == []
  {
    hide ReadInto;
    ReadIntoAt(segs, f, p, k);
    assert segs[k] == [];
    if k < f + |p| { assert p[k - f] == []; }
  }

  lemma ReadFull(segs: Segs, lwd: nat, f: nat, p: Segs, j: nat, k: nat)
    requires Packed(segs, lwd) && lwd < |segs| && (f == lwd || (f == lwd + 1 && segs[lwd] != []))
    requires f + |p| <= |segs| && j < |p| && (forall m :: 0 <= m < j ==> |p[m]| > 0)
    requires k < f + j
    ensures ReadInto(segs, f, p)[k] != []
  {
    hide ReadInto;
    ReadIntoAt(segs, f, p, k);
    if k >= f { assert p[k - f] != []; } else { assert segs[k] != []; }
  }

  /** Where the data ends after a read whose last piece is piece j. */
  lemma LastAfterRead(segs: Segs, lwd: nat, f: nat, p: Segs, lens: seq<nat>, j: nat)
    requires LastData(segs, lwd) && lwd < |segs| && (f == lwd || (f == lwd + 1 && segs[lwd] != []))
    requires f + |p| <= |segs| && j < |p| == |lens| && p[j] != [] && (forall k :: j < k < |p| ==> p[k] == [])
    requires (forall k :: 0 <= k < j ==> |p[k]| == lens[k] > 0)
    ensures LastData(ReadInto(segs, f, p), f + j)
    ensures Packed(segs, lwd) ==> Packed(ReadInto(segs, f, p), f + j)
  {
    hide ReadInto, Packed;
    var r := ReadInto(segs, f, p);
    ReadLast(segs, f, p, j);
    forall k | f + j < k < |r| ensures r[k] == [] { ReadEmpty(segs, lwd, f, p, j, k); }
    if Packed(segs, lwd) { PackedAfterRead(segs, lwd, f, p, j); }
  }

  lemma PackedAfterRead(segs: Segs, lwd: nat, f: nat, p: Segs, j: nat)
    requires Packed(segs, lwd) && lwd < |segs| && (f == lwd || (f == lwd + 1 && segs[lwd] != []))
    requires f + |p| <= |segs| && j < |p| && (forall m :: 0 <= m < j ==> |p[m]| > 0)
    ensures Packed(ReadInto(segs, f, p), f + j)
  {
    hide ReadInto;
    var r := ReadInto(segs, f, p);
    forall k | 0 <= k < f + j ensures r[k] != [] { ReadFull(segs, lwd, f, p, j, k); }
  }

  lemma ReadLast(segs: Segs, f: nat, p: Segs, j: nat)
    requires f + |p| <= |segs| && j < |p| && p[j] != []
    ensures ReadInto(segs, f, p)[f + j] != []
  {
    hide ReadInto;
    ReadIntoAt(segs, f, p, f + j);
  }

  /** The chains that hold the vectors, apart from the rest of the list. */
  lemma Isolate(cs: seq<Chain>, segs: Segs, f: nat, m: nat)
    requires Distinct(cs) && Link(cs) && Data(cs, segs) && f + m <= |cs|
    ensures |segs| == |cs| && Distinct(cs[f..f + m]) && Run(cs[f..f + m])
    ensures Data(cs[..f], segs[..f]) && Data(cs[f..f + m], segs[f..f + m]) && Data(cs[f + m..], segs[f + m..])
    ensures Apart(cs[..f], cs[f..f + m]) && Apart(cs[f + m..], cs[f..f + m])
  {
    var ds := cs[f..f + m];
    forall k {:trigger ds[k].next} | 0 <= k < |ds| - 1 ensures ds[k].next == ds[k + 1] {
      assert ds[k] == cs[f + k];
    }
  }

  lemma Rejoin(cs: seq<Chain>, segs: Segs, f: nat, p: Segs)
    requires f + |p| <= |cs| == |segs|
    requires Data(cs[..f], segs[..f]) && Data(cs[f..f + |p|], AddAll(segs[f..f + |p|], p))
    requires Data(cs[f + |p|..], segs[f + |p|..])
    ensures Data(cs, ReadInto(segs, f, p))
  {
    var m := |p|;
    DataConcat(cs[..f], segs[..f], cs[f..f + m], AddAll(segs[f..f + m], p));
    DataConcat(cs[..f] + cs[f..f + m], segs[..f] + AddAll(segs[f..f + m], p), cs[f + m..], segs[f + m..]);
    assert cs == cs[..f] + cs[f..f + m] + cs[f + m..];
  }

  /** The vectors found by evbuffer_read_setup_vecs_ lie in writable chains. */
  lemma CoversTight(v: View, f: nat, lens: seq<nat>)
    requires v.lwd < |v.chains| == |v.segs| && Data(v.chains, v.segs) && LastData(v.segs, v.lwd)
    requires f == FirstRoom(v.chains, v.lwd) && Covers(v.chains, f, lens)
    ensures f + |lens| <= |v.chains| && Tight(v.chains[f..f + |lens|], lens)
  {
    var ds := v.chains[f..f + |lens|];
    forall k | 0 <= k < |ds| ensures !ds[k].immutable {
      DataAt(v.chains, v.segs, f + k);
    }
    forall k | 0 <= k < |lens| ensures lens[k] <= ds[k].SpaceLen() && (k < |lens| - 1 ==> lens[k] == ds[k].SpaceLen()) {
      assert ds[k] == v.chains[f + k];
      if k < |lens| - 1 { assert lens[..|lens| - 1][k] == lens[k]; }
    }
  }

  /** Room in every vector but the first, unless the first chain with room is not full. */
  lemma VectorsHaveRoom(v: View, datlen: nat, n: nat, e: nat, lens: seq<nat>)
    requires Offers(v, datlen, n, e) && Covers(v.chains, FirstRoom(v.chains, v.lwd), lens)
    requires FirstRoom(v.chains, v.lwd) + |lens| <= e && v.lwd < |v.segs| == |v.chains| && Data(v.chains, v.segs)
    ensures forall k :: 0 <= k < |lens| - 1 ==> lens[k] > 0
  {
    var f := FirstRoom(v.chains, v.lwd);
    DataAt(v.chains, v.segs, v.lwd);
    forall k | 0 <= k < |lens| - 1 ensures lens[k] > 0 {
      assert lens[..|lens| - 1][k] == lens[k];
      assert v.chains[f + k].SpaceLen() == lens[k];
      if f + k > v.lwd { assert v.chains[v.lwd..e][f + k - v.lwd] == v.chains[f + k]; }
    }
  }

  /** What the kernel wrote becomes part of the chains that hold the vectors. */
  method Absorb(start: Chain?, owner0: Chain?, lens: seq<nat>, input: seq<Byte>, ghost cs: seq<Chain>, ghost segs: Segs, ghost f: nat)
    returns (owner: Chain?, ghost p: Segs, ghost j: nat)
    requires Distinct(cs) && Link(cs) && Data(cs, segs) && f + |lens| <= |cs| && Tight(cs[f..f + |lens|], lens)
    requires start == (if f < |cs| then cs[f] else null) && 0 < |input| <= Total(lens)
    modifies cs`buffer, cs`off
    ensures |p| == |lens| && |segs| == |cs| && Join(p) == input && Data(cs, ReadInto(segs, f, p))
    ensures j < |p| && p[j] != [] && (forall k :: j < k < |p| ==> p[k] == []) && (forall k :: 0 <= k < j ==> |p[k]| == lens[k])
    ensures owner == if j == 0 then owner0 else cs[f + j - 1]
  {
    hide Distinct, Link, Data, Tight, Total, Join, Run, Fills, StagedAll, AddAll, ReadInto;
    var m := |lens|;
    ghost var ds, before, behind := cs[f..f + m], cs[..f], cs[f + m..];
    Isolate(cs, segs, f, m);
    p := Readv(start, lens, input, ds, segs[f..f + m]);
    assert Data(before, segs[..f]) && Data(behind, segs[f + m..]);
    owner, j := Commit(start, owner0, m, |input|, ds, segs[f..f + m], lens, p);
    assert Data(before, segs[..f]) && Data(behind, segs[f + m..]);
    Rejoin(cs, segs, f, p);
  }

  lemma FirstRoomAt(v: View, howmuch: nat, nVecs: nat, e: nat)
    requires Offers(v, howmuch, nVecs, e) && |v.segs| == |v.chains|
    ensures v.lwd < |v.chains| && var f := FirstRoom(v.chains, v.lwd);
      e <= |v.chains| && (f == v.lwd || (f == v.lwd + 1 && v.segs[v.lwd] != []))
  {
  }

  /** The last part of evbuffer_read: the kernel delivered `input`. */
  method FillVectors(buf: Evbuffer, howmuch: nat, nVecs: nat, input: seq<Byte>, ghost e: nat)
    requires buf.Valid() && Offers(buf.view, howmuch, nVecs, e) && 0 < |input| <= howmuch
    modifies buf`first, buf`last, buf`lastWithDataOwner, buf`totalLen, buf`view, buf.view.chains`buffer, buf.view.chains`off
    ensures buf.Shape() && buf.totalLen == Mod32(old(buf.totalLen) + |input|)
    ensures buf.Contents() == old(buf.Contents()) + input && buf.view.chains == old(buf.view.chains)
    ensures old(buf.NoHoles()) ==> buf.NoHoles()
  {
    hide Distinct, Link, Data, Tight, Total, Join, Packed, Covers, ReadInto, Room, SpaceSum, LastData, Offers, FirstRoom, Mod32;
    ghost var v := buf.view;
    FirstRoomAt(v, howmuch, nVecs, e);
    ghost var f := FirstRoom(v.chains, v.lwd);
    var owner0, start, lens := ReadSetupVecs(buf, howmuch, nVecs, true, e);
    CoversTight(v, f, lens);
    VectorsHaveRoom(v, howmuch, nVecs, e, lens);
    var owner;
    ghost var p, j;
    owner, p, j := Absorb(start, owner0, lens, input, v.chains, v.segs, f);
    ghost var w := AfterRead(v, f, p, lens, j);
    assert owner == if f + j == 0 then null else v.chains[f + j - 1];
    buf.Install(buf.first, buf.last, owner, Mod32(buf.totalLen + |input|), w);
  }

  lemma AfterRead(v: View, f: nat, p: Segs, lens: seq<nat>, j: nat) returns (w: View)
    requires LastData(v.segs, v.lwd) && v.lwd < |v.segs| == |v.chains| && (f == v.lwd || (f == v.lwd + 1 && v.segs[v.lwd] != []))
    requires f + |p| <= |v.segs| && j < |p| == |lens| && p[j] != [] && (forall k :: j < k < |p| ==> p[k] == [])
    requires forall k :: 0 <= k < j ==> |p[k]| == lens[k] > 0
    ensures w == View(v.chains, ReadInto(v.segs, f, p), f + j) && |w.segs| == |w.chains| && w.lwd < |w.segs|
    ensures LastData(w.segs, w.lwd) && Join(w.segs) == Join(v.segs) + Join(p) && (Packed(v.segs, v.lwd) ==> Packed(w.segs, w.lwd))
  {
    hide Join, Packed;
    JoinReadInto(v.segs, v.lwd, f, p);
    LastAfterRead(v.segs, v.lwd, f, p, lens, j);
    w := View(v.chains, ReadInto(v.segs, f, p), f + j);
  }

  const MAX_READ: nat := 4096
  const NUM_READ_IOVEC: nat := 4

  /** How many bytes evbuffer_read asks for, given what the descriptor reports as readable. */
  function ReadSize(readable: int, howmuch: int): (n: nat)
    ensures n <= MAX_READ && (0 <= howmuch ==> n <= howmuch) && (howmuch != 0 ==> n > 0)
  {
    var n := if readable <= 0 || readable > MAX_READ then MAX_READ else readable;
    if howmuch < 0 || howmuch > n then n else howmuch
  }

  /** evbuffer_read: `pending` is what the descriptor has to give; `fails` is a failing readv. */
  method Read(buf: Evbuffer, readable: int, howmuch: int, pending: seq<Byte>, fails: bool) returns (result: int)
    requires buf.Valid()
    modifies buf`first, buf`last, buf`lastWithDataOwner, buf`totalLen, buf`view, buf.view.chains
    ensures buf.Shape() && (buf.Valid() <==> |buf.Contents()| <= SIZE_MAX) && NewChains(old(buf.view.chains), buf.view.chains)
    ensures buf.freezeEnd || fails ==> result == -1 && buf.Contents() == old(buf.Contents())
    ensures !buf.freezeEnd && !fails ==> 0 <= result <= |pending| && buf.Contents() == old(buf.Contents()) + pending[..result]
    ensures !buf.freezeEnd && !fails ==>
      var cap := if 0 < readable <= 4096 then readable else 4096;
      && result <= cap && (howmuch >= 0 ==> result <= howmuch)
      && (result == |pending| || result == cap || result == howmuch)
    ensures old(buf.NoHoles()) ==> buf.NoHoles()
  {
    hide Distinct, Link, Data, Join, Packed, LastData, Offers, Mod32;
    if buf.freezeEnd {
      return -1;
    }
    var want := ReadSize(readable, howmuch);
    ghost var e := ExpandFast(buf, want, NUM_READ_IOVEC);
    if fails {
      return -1;
    }
    var n := if |pending| < want then |pending| else want;
    if n > 0 {
      FillVectors(buf, want, NUM_READ_IOVEC, pending[..n], e);
    }
    result := n;
  }
}
