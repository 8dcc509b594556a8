/** Positions in an evbuffer, and searching for bytes, strings and line ends. */
module EvbufferSearch {
  import opened Wrappers
  import opened Flat
  import opened Chains
  import opened Evbuffers

  /** struct evbuffer_ptr: an offset, and the same offset as a place in a chain. */
  datatype Ptr = Ptr(pos: int, chain: Chain?, inChain: nat)

  const NOT_FOUND := Ptr(-1, null, 0)

  datatype How = PtrSet | PtrAdd

  /** `p` is a place in chain `i` (or behind the last chain) and both its forms agree. */
  ghost predicate At(v: View, p: Ptr, i: nat) {
    && i <= |v.chains| == |v.segs|
    && p.pos == |Join(v.segs[..i])| + p.inChain
    && if i == |v.chains| then p.chain == null && p.inChain == 0
       else p.chain == v.chains[i] && p.inChain <= |v.segs[i]|
  }

  /** `p` denotes one offset, in chain form and in flat form. */
  ghost predicate Denotes(v: View, p: Ptr) {
    exists i: nat :: At(v, p, i)
  }

  /** As Denotes, and the place is at a byte of its chain, not behind the chain's last byte. */
  ghost predicate Precise(v: View, p: Ptr) {
    exists i: nat :: At(v, p, i) && (i < |v.segs| ==> p.inChain < |v.segs[i]|)
  }

  lemma JoinIndex(s: Segs, i: nat, k: nat)
    requires i < |s| && k < |s[i]|
    ensures |Join(s[..i])| + k < |Join(s)|
    ensures Join(s)[|Join(s[..i])| + k] == s[i][k]
  {
    JoinAt(s, i);
  }

  lemma OffsetBound(s: Segs, i: nat)
    requires i <= |s|
    ensures |Join(s[..i])| <= |Join(s)| && (i == |s| ==> Join(s[..i]) == Join(s))
  {
    JoinPrefix(s, i);
    if i == |s| { assert s[..i] == s; }
  }

  lemma OffsetNext(s: Segs, i: nat)
    requires i < |s|
    ensures |Join(s[..i + 1])| == |Join(s[..i])| + |s[i]|
  {
    JoinTake(s, i);
  }

  /** evbuffer_ptr_set */
  method SetPtr(buf: Evbuffer, p: Ptr, position: nat, how: How) returns (result: int, q: Ptr)
    requires buf.Valid() && (how == PtrAdd && p.pos >= 0 ==> Denotes(buf.view, p))
    ensures var target := if how == PtrSet then position else p.pos + position;
      if how == PtrAdd && (p.pos < 0 || target > SIZE_MAX) then result == -1 && q == p
      else if target > |buf.Contents()| then result == -1 && q == NOT_FOUND
      else result == 0 && q.pos == target && Precise(buf.view, q)
  {
    hide Join, Distinct, Data, LastData;
    ghost var cs, segs := buf.view.chains, buf.view.segs;
    var left := position;
    var chain: Chain?, within, pos;
    ghost var i: nat := 0;
    match how {
      case PtrSet =>
        chain, pos, within := buf.first, position, 0;
        assert segs[..0] == [];
        JoinNil();
      case PtrAdd =>
        if p.pos < 0 || p.pos + position > SIZE_MAX {
          return -1, p;
        }
        chain, pos, within := p.chain, p.pos + position, p.inChain;
        ghost var i0: nat :| At(buf.view, p, i0);
        i := i0;
    }
    while chain != null && within + left >= chain.off
      invariant i <= |cs| && chain == (if i < |cs| then cs[i] else null)
      invariant 0 <= within && 0 <= left && pos == |Join(segs[..i])| + within + left
      invariant if i < |cs| then within <= |segs[i]| else within == 0
      decreases |cs| - i
    {
      DataAt(cs, segs, i);
      OffsetNext(segs, i);
      left := left - (chain.off - within);
      chain := chain.next;
      within := 0;
      i := i + 1;
    }
    OffsetBound(segs, i);
    if chain != null {
      DataAt(cs, segs, i);
      JoinIndex(segs, i, within + left);
      q := Ptr(pos, chain, within + left);
      assert At(buf.view, q, i);
      result := 0;
    } else if left == 0 {
      q := Ptr(pos, null, 0);
      assert At(buf.view, q, i);
      result := 0;
    } else {
      q := NOT_FOUND;
      result := -1;
    }
  }

  /** evbuffer_ptr_subtract */
  method Subtract(buf: Evbuffer, p: Ptr, howfar: nat) returns (result: int, q: Ptr)
    requires buf.Valid() && (p.pos >= 0 ==> Denotes(buf.view, p))
    ensures if howfar > p.pos then result == -1 && q == p
            else result == 0 && q.pos == p.pos - howfar && Denotes(buf.view, q) && (howfar > 0 ==> Precise(buf.view, q))
  {
    hide Join, Distinct, Data, LastData, Link, At;
    if p.pos < 0 || howfar > p.pos {
      return -1, p;
    }
    if p.chain != null && howfar <= p.inChain {
      q := Ptr(p.pos - howfar, p.chain, p.inChain - howfar);
      BackInChain(buf.view, p, howfar);
      result := 0;
    } else {
      PosBound(buf.view, p);
      result, q := SetPtr(buf, p, p.pos - howfar, PtrSet);
      PreciseDenotes(buf.view, q);
    }
  }

  lemma BackInChain(v: View, p: Ptr, howfar: nat)
    requires Denotes(v, p) && p.chain != null && howfar <= p.inChain
    ensures Denotes(v, Ptr(p.pos - howfar, p.chain, p.inChain - howfar))
    ensures howfar > 0 ==> Precise(v, Ptr(p.pos - howfar, p.chain, p.inChain - howfar))
  {
    var i: nat :| At(v, p, i);
    assert At(v, Ptr(p.pos - howfar, p.chain, p.inChain - howfar), i);
  }

  lemma PosBound(v: View, p: Ptr)
    requires Denotes(v, p)
    ensures 0 <= p.pos <= |Join(v.segs)|
  {
    var i: nat :| At(v, p, i);
    OffsetBound(v.segs, i);
    if i < |v.segs| {
      OffsetNext(v.segs, i);
      OffsetBound(v.segs, i + 1);
    }
  }

  lemma PreciseDenotes(v: View, p: Ptr)
    ensures Precise(v, p) ==> Denotes(v, p)
  {
  }

  // ---- copying from a position ----

  /** `data` is what stands at offset k. */
  ghost predicate Got(c: seq<Byte>, k: nat, data: seq<Byte>) {
    k + |data| <= |c| && data == c[k..k + |data|]
  }

  /** Copying chain by chain. */
  lemma Copied(segs: Segs, k: nat, data: seq<Byte>, i: nat, within: nat, n: nat)
    requires i < |segs| && within + n <= |segs[i]| && k + |data| == |Join(segs[..i])| + within && Got(Join(segs), k, data)
    ensures Got(Join(segs), k, data + segs[i][within..within + n])
  {
    hide Join;
    SliceOf(segs, i, within, n);
    var c, j := Join(segs), k + |data|;
    assert c[k..j + n] == c[k..j] + c[j..j + n];
  }

  lemma GotAll(c: seq<Byte>, k: nat, data: seq<Byte>)
    requires Got(c, k, data)
    ensures k + |data| <= |c| && data == c[k..k + |data|]
  {
  }

  lemma GotNone(c: seq<Byte>, k: nat)
    requires k <= |c|
    ensures Got(c, k, [])
  {
  }

  /** The loop of evbuffer_copyout_from. */
  method CopyChains(buf: Evbuffer, p: Ptr, n: nat) returns (data: seq<Byte>)
    requires buf.Valid() && Denotes(buf.view, p) && 0 <= p.pos && p.pos + n <= |buf.Contents()|
    ensures |data| == n && Got(buf.Contents(), p.pos, data)
  {
    hide Join, Distinct, Data, LastData, Link, Got;
    data := [];
    ghost var cs, segs := buf.view.chains, buf.view.segs;
    GotNone(Join(segs), p.pos);
    ghost var i: nat :| At(buf.view, p, i);
    OffsetBound(segs, i);
    var chain, within: nat, left: nat := p.chain, p.inChain, n;
    while left > 0 && left >= chain.off - within
      invariant i <= |cs| && chain == (if i < |cs| then cs[i] else null) && |data| + left == n
      invariant if i < |cs| then within <= |segs[i]| else within == 0
      invariant p.pos + |data| == |Join(segs[..i])| + within && Got(Join(segs), p.pos, data)
      invariant left > 0 ==> chain != null
      decreases |cs| - i
    {
      DataAt(cs, segs, i);
      LinkAt(cs, i);
      var len := chain.off - within;
      Copied(segs, p.pos, data, i, within, len);
      data := Grab(chain, within, len, segs[i], data);
      OffsetNext(segs, i);
      OffsetBound(segs, i + 1);
      left, chain, within, i := left - len, chain.next, 0, i + 1;
    }
    if left > 0 {
      DataAt(cs, segs, i);
      Copied(segs, p.pos, data, i, within, left);
      data := Grab(chain, within, left, segs[i], data);
    }
  }

  /** evbuffer_copyout_from: the bytes from `p` on, as many as asked for or as there are. */
  method CopyOutFrom(buf: Evbuffer, p: Ptr, datlen: nat) returns (result: int, data: seq<Byte>)
    requires buf.Valid() && Denotes(buf.view, p) && p.pos <= SSIZE_MAX
    ensures 0 <= p.pos <= |buf.Contents()|
    ensures var n := if p.pos + datlen > |buf.Contents()| then |buf.Contents()| - p.pos else datlen;
      if p.pos + datlen > SSIZE_MAX || (n > 0 && buf.freezeStart) then result == -1 && data == []
      else result == n && data == buf.Contents()[p.pos..p.pos + n]
  {
    hide Join, Distinct, Data, LastData, Link, Got, Denotes;
    PosBound(buf.view, p);
    data := [];
    if datlen > SSIZE_MAX - p.pos {
      return -1, [];
    }
    var left := if datlen + p.pos > buf.totalLen then buf.totalLen - p.pos else datlen;
    if left == 0 {
      return 0, [];
    }
    if buf.freezeStart {
      return -1, [];
    }
    result := left;
    data := CopyChains(buf, p, left);
    GotAll(buf.Contents(), p.pos, data);
  }

  /** memcpy from within one chain. */
  method Grab(chain: Chain, from: nat, len: nat, ghost d: seq<Byte>, data: seq<Byte>) returns (more: seq<Byte>)
    requires chain.Holds(d) && from + len <= |d|
    ensures more == data + d[from..from + len]
  {
    var at := chain.misalign + from;
    more := data + chain.buffer[at..at + len];
    SliceSlice(chain.buffer, chain.misalign, chain.misalign + chain.off, from, from + len);
  }

  // ---- searching ----

  /** memchr in a chain's bytes from `from` on; the length of the chain's data if absent. */
  method MemChr(chain: Chain, from: nat, ch: Byte, ghost d: seq<Byte>) returns (k: nat)
    requires chain.Holds(d) && from <= |d|
    ensures from <= k <= |d| && (k < |d| ==> d[k] == ch)
    ensures forall j :: from <= j < k ==> d[j] != ch
  {
    k := from;
    while k < chain.off && chain.buffer[chain.misalign + k] != ch
      invariant from <= k <= |d|
      invariant forall j :: from <= j < k ==> d[j] != ch
    {
      k := k + 1;
    }
  }

  ghost predicate MatchAt(c: seq<Byte>, what: seq<Byte>, k: int) {
    0 <= k && k + |what| <= |c| && c[k..k + |what|] == what
  }

  /** The first `done` bytes of `mem` stand at offset k. */
  ghost predicate Agrees(c: seq<Byte>, mem: seq<Byte>, k: nat, done: nat) {
    k + |mem| <= |c| && done <= |mem| && c[k..k + done] == mem[..done]
  }

  /** evbuffer_ptr_memcmp: whether the bytes at `p` are those of `mem`. */
  method PtrMemcmp(buf: Evbuffer, p: Ptr, mem: seq<Byte>) returns (same: bool)
    requires buf.Valid() && Denotes(buf.view, p)
    ensures same <==> MatchAt(buf.Contents(), mem, p.pos)
  {
    hide Join, Distinct, Data, LastData, Link, Agrees;
    PosBound(buf.view, p);
    if p.pos + |mem| > SIZE_MAX || p.pos + |mem| > buf.totalLen {
      return false;
    }
    ghost var c, cs, segs := buf.Contents(), buf.view.chains, buf.view.segs;
    ghost var i: nat :| At(buf.view, p, i);
    var chain, within: nat, done: nat := p.chain, p.inChain, 0;
    AgreesStart(c, mem, p.pos);
    while done < |mem| && chain != null
      invariant i <= |cs| && chain == (if i < |cs| then cs[i] else null) && done <= |mem|
      invariant done < |mem| ==> p.pos + done == |Join(segs[..i])| + within
      invariant if i == |cs| then within == 0 else done < |mem| ==> within <= |segs[i]|
      invariant Agrees(c, mem, p.pos, done)
      decreases |cs| - i
    {
      DataAt(cs, segs, i);
      LinkAt(cs, i);
      OffsetNext(segs, i);
      var n := if |mem| - done + within > chain.off then chain.off - within else |mem| - done;
      Compared(segs, mem, p.pos, done, i, within, n);
      var same := SameBytes(chain, within, mem[done..done + n], segs[i]);
      if !same {
        return false;
      }
      done := done + n;
      within := 0;
      chain := chain.next;
      i := i + 1;
    }
    OffsetBound(segs, i);
    AgreesAll(c, mem, p.pos, done);
    same := true;
  }

  /** memcmp within one chain. */
  method SameBytes(chain: Chain, from: nat, mem: seq<Byte>, ghost d: seq<Byte>) returns (same: bool)
    requires chain.Holds(d) && from + |mem| <= |d|
    ensures same <==> d[from..from + |mem|] == mem
  {
    var at := chain.misalign + from;
    same := chain.buffer[at..at + |mem|] == mem;
    SliceSlice(chain.buffer, chain.misalign, chain.misalign + chain.off, from, from + |mem|);
  }

  lemma AgreesStart(c: seq<Byte>, mem: seq<Byte>, k: nat)
    requires k + |mem| <= |c|
    ensures Agrees(c, mem, k, 0)
  {
  }

  lemma AgreesAll(c: seq<Byte>, mem: seq<Byte>, k: nat, done: nat)
    requires Agrees(c, mem, k, done)
    ensures done == |mem| ==> MatchAt(c, mem, k)
  {
    assert mem[..|mem|] == mem;
  }

  /** A comparison chain by chain: the next `n` bytes decide. */
  lemma Compared(segs: Segs, mem: seq<Byte>, k: nat, done: nat, i: nat, within: nat, n: nat)
    requires i < |segs| && within + n <= |segs[i]| && done + n <= |mem| && k + done == |Join(segs[..i])| + within
    requires Agrees(Join(segs), mem, k, done)
    ensures segs[i][within..within + n] == mem[done..done + n] ==> Agrees(Join(segs), mem, k, done + n)
    ensures segs[i][within..within + n] != mem[done..done + n] ==> !MatchAt(Join(segs), mem, k)
  {
    hide Join;
    SliceOf(segs, i, within, n);
    var c := Join(segs);
    assert c[k..k + done + n] == c[k..k + done] + c[k + done..k + done + n];
    assert mem[..done + n] == mem[..done] + mem[done..done + n];
    SubSlice(c, k, |mem|, done, done + n);
  }

  lemma SubSlice(c: seq<Byte>, k: nat, m: nat, a: nat, b: nat)
    requires k + m <= |c| && a <= b <= m
    ensures c[k..k + m][a..b] == c[k + a..k + b]
  {
    var x, y := c[k..k + m][a..b], c[k + a..k + b];
    forall i | 0 <= i < |x| ensures x[i] == y[i] { }
  }

  /** Bytes of a chain are bytes of the whole. */
  lemma SliceOf(s: Segs, i: nat, k: nat, n: nat)
    requires i < |s| && k + n <= |s[i]|
    ensures |Join(s[..i])| + k + n <= |Join(s)|
    ensures Join(s)[|Join(s[..i])| + k..|Join(s[..i])| + k + n] == s[i][k..k + n]
  {
    JoinAt(s, i);
    var a, b, c := Join(s[..i]), s[i], Join(s[i + 1..]);
    assert (a + b + c)[|a| + k..|a| + k + n] == b[k..k + n];
  }

  /** Places of a chain before which the first byte does not occur are no matches. */
  lemma NoMatchWithout(segs: Segs, what: seq<Byte>, i: nat, a: nat, b: nat)
    requires i < |segs| && a <= b <= |segs[i]| && what != []
    requires forall j :: a <= j < b ==> segs[i][j] != what[0]
    ensures var o := |Join(segs[..i])|; forall k :: o + a <= k < o + b ==> !MatchAt(Join(segs), what, k)
  {
    var o := |Join(segs[..i])|;
    forall k | o + a <= k < o + b ensures !MatchAt(Join(segs), what, k) {
      JoinIndex(segs, i, k - o);
      assert k + |what| <= |Join(segs)| ==> Join(segs)[k..k + |what|][0] == segs[i][k - o];
    }
  }

  /** The place behind the last byte of chain i is the start of chain i + 1. */
  lemma NextChain(v: View, p: Ptr, i: nat, next: Chain?)
    requires At(v, p, i) && i < |v.segs| && p.inChain == |v.segs[i]|
    requires next == if i + 1 < |v.chains| then v.chains[i + 1] else null
    ensures At(v, Ptr(p.pos, next, 0), i + 1)
  {
    OffsetNext(v.segs, i);
  }

  /** A position in chain i lies before the start of chain i + 1. */
  lemma EndInChain(v: View, end: Ptr, i: nat)
    requires Denotes(v, end) && Distinct(v.chains) && i < |v.chains| == |v.segs| && end.chain == v.chains[i]
    ensures end.pos <= |Join(v.segs[..i + 1])|
  {
    OffsetNext(v.segs, i);
    var k: nat :| At(v, end, k);
  }

  /** No match starts from `s` on and before `t`. */
  ghost predicate NoMatch(c: seq<Byte>, what: seq<Byte>, s: int, t: int) {
    forall k :: s <= k < t ==> !MatchAt(c, what, k)
  }

  lemma NoMatchJoin(c: seq<Byte>, what: seq<Byte>, a: int, b: int, d: int)
    requires NoMatch(c, what, a, b) && (forall k :: b <= k < d ==> !MatchAt(c, what, k))
    ensures NoMatch(c, what, a, d)
  {
  }

  /** Moves to the next byte of the chain with which a match could start, or to the chain's end. */
  method NextCandidate(buf: Evbuffer, what: seq<Byte>, p: Ptr, ghost s: int, ghost i: nat) returns (q: Ptr)
    requires buf.Valid() && At(buf.view, p, i) && p.chain != null && what != []
    requires s <= p.pos && NoMatch(buf.Contents(), what, s, p.pos)
    ensures At(buf.view, q, i) && q.chain == p.chain && p.pos <= q.pos <= |buf.Contents()| && q.chain.off == |buf.view.segs[i]|
    ensures NoMatch(buf.Contents(), what, s, q.pos)
    ensures q.inChain == q.chain.off ==> q.pos == |Join(buf.view.segs[..i + 1])|
  {
    hide Join, Distinct, Data, LastData, Link, MatchAt, NoMatch;
    ghost var v := buf.view;
    DataAt(v.chains, v.segs, i);
    JoinNext(v.segs, i);
    var k := MemChr(p.chain, p.inChain, what[0], v.segs[i]);
    NoMatchWithout(v.segs, what, i, p.inChain, k);
    q := Ptr(p.pos + (k - p.inChain), p.chain, k);
    NoMatchJoin(buf.Contents(), what, s, p.pos, q.pos);
  }

  /** A place behind the last byte of a chain becomes the start of the next chain. */
  method SkipChainEnd(buf: Evbuffer, p: Ptr, ghost i: nat) returns (q: Ptr, ghost j: nat)
    requires buf.Valid() && At(buf.view, p, i) && p.chain != null
    ensures At(buf.view, q, j) && q.pos == p.pos
    ensures if p.inChain == |buf.view.segs[i]| then j == i + 1 else q == p && j == i
  {
    hide Join, Distinct, Data, LastData, Link;
    ghost var v := buf.view;
    DataAt(v.chains, v.segs, i);
    LinkAt(v.chains, i);
    q, j := p, i;
    if p.inChain == p.chain.off {
      NextChain(v, p, i, p.chain.next);
      q, j := Ptr(p.pos, p.chain.next, 0), i + 1;
    }
  }

  /** The search loop of evbuffer_search_range. */
  method SearchFrom(buf: Evbuffer, what: seq<Byte>, start: Ptr, end: Option<Ptr>) returns (r: Ptr)
    requires buf.Valid() && what != []
    requires Denotes(buf.view, start) && (end.Some? ==> Denotes(buf.view, end.value))
    ensures var c := buf.Contents();
      var e := if end.Some? then end.value.pos else |c|;
      if r.pos < 0 then r == NOT_FOUND && NoMatch(c, what, start.pos, e - |what| + 1)
      else MatchAt(c, what, r.pos) && start.pos <= r.pos && r.pos + |what| <= e
           && NoMatch(c, what, start.pos, r.pos) && Denotes(buf.view, r)
  {
    hide Join, Distinct, Data, LastData, Link, MatchAt, NoMatch;
    var pos := start;
    ghost var c, v, s := buf.Contents(), buf.view, pos.pos;
    ghost var i: nat :| At(v, pos, i);
    NoMatchNil(c, what, s);
    PosBound(v, pos);
    if end.Some? { PosBound(v, end.value); }
    while pos.chain != null
      invariant At(v, pos, i) && s <= pos.pos && NoMatch(c, what, s, pos.pos)
      decreases |c| - pos.pos, |v.chains| - i
    {
      var chain := pos.chain;
      pos := NextCandidate(buf, what, pos, s, i);
      if pos.inChain < chain.off {
        var same := PtrMemcmp(buf, pos, what);
        if same {
          MatchBound(c, what, pos.pos);
          if end.Some? && pos.pos + |what| > end.value.pos {
            NoMatchUpTo(c, what, s, pos.pos, end.value.pos - |what| + 1);
            return NOT_FOUND;
          }
          return pos;
        }
        NoMatchOne(c, what, s, pos.pos);
        pos := pos.(pos := pos.pos + 1, inChain := pos.inChain + 1);
      } else if end.Some? && chain == end.value.chain {
        EndInChain(v, end.value, i);
        NoMatchUpTo(c, what, s, pos.pos, end.value.pos - |what| + 1);
        return NOT_FOUND;
      }
      pos, i := SkipChainEnd(buf, pos, i);
    }
    OffsetBound(v.segs, i);
    NoMatchUpTo(c, what, s, pos.pos, (if end.Some? then end.value.pos else |c|) - |what| + 1);
    r := NOT_FOUND;
  }

  /** evbuffer_search_range: the first match at or after `start` that ends by `end`. */
  method SearchRange(buf: Evbuffer, what: seq<Byte>, start: Option<Ptr>, end: Option<Ptr>) returns (r: Ptr)
    requires buf.Valid()
    requires (start.Some? ==> Denotes(buf.view, start.value)) && (end.Some? ==> Denotes(buf.view, end.value))
    ensures var c := buf.Contents();
      var s := if start.Some? then start.value.pos else 0;
      var e := if end.Some? then end.value.pos else |c|;
      if what == [] || |what| > SSIZE_MAX then r.pos == s && Denotes(buf.view, r)
      else if r.pos < 0 then r == NOT_FOUND && NoMatch(c, what, s, e - |what| + 1)
      else MatchAt(c, what, r.pos) && s <= r.pos && r.pos + |what| <= e && NoMatch(c, what, s, r.pos) && Denotes(buf.view, r)
  {
    hide Join, Distinct, Data, LastData, Link, MatchAt, NoMatch;
    ghost var c, v := buf.Contents(), buf.view;
    var pos := if start.Some? then start.value else Ptr(0, buf.first, 0);
    if start.None? {
      assert v.segs[..0] == [];
      JoinNil();
      assert At(v, pos, 0);
    }
    if what == [] || |what| > SSIZE_MAX {
      return pos;
    }
    r := SearchFrom(buf, what, pos, end);
  }

  lemma JoinNext(s: Segs, i: nat)
    requires i < |s|
    ensures |Join(s[..i + 1])| == |Join(s[..i])| + |s[i]| <= |Join(s)|
  {
    OffsetNext(s, i);
    OffsetBound(s, i + 1);
  }

  lemma NoMatchNil(c: seq<Byte>, what: seq<Byte>, s: int)
    ensures NoMatch(c, what, s, s)
  {
  }

  lemma NoMatchOne(c: seq<Byte>, what: seq<Byte>, s: int, t: int)
    requires NoMatch(c, what, s, t) && !MatchAt(c, what, t)
    ensures NoMatch(c, what, s, t + 1)
  {
  }

  lemma NoMatchUpTo(c: seq<Byte>, what: seq<Byte>, s: int, t: int, u: int)
    requires NoMatch(c, what, s, t) && u <= t
    ensures NoMatch(c, what, s, u)
  {
  }

  lemma MatchBound(c: seq<Byte>, what: seq<Byte>, k: int)
    requires MatchAt(c, what, k)
    ensures k + |what| <= |c|
  {
  }

  // ---- line ends ----

  const CR: Byte := 13
  const LF: Byte := 10
  const NUL: Byte := 0

  datatype EolStyle = EolAny | EolCrlf | EolCrlfStrict | EolLf | EolNul

  /** What a scan stops at: one byte, or either line-end byte. */
  datatype Scan = OneByte(ch: Byte) | EolByte

  predicate Stops(scan: Scan, b: Byte) {
    match scan
    case OneByte(ch) => b == ch
    case EolByte => b == CR || b == LF
  }

  const CHUNK_SZ: nat := 128

  /** memchr limited to `n` bytes: the place of the byte, or -1. */
  method MemChrIn(chain: Chain, from: nat, n: nat, ch: Byte, ghost d: seq<Byte>) returns (k: int)
    requires chain.Holds(d) && from + n <= |d|
    ensures k == -1 || from <= k < from + n
    ensures if k == -1 then forall j :: from <= j < from + n ==> d[j] != ch
            else d[k] == ch && forall j :: from <= j < k ==> d[j] != ch
  {
    for i := 0 to n
      invariant forall j :: from <= j < from + i ==> d[j] != ch
    {
      if chain.buffer[chain.misalign + from + i] == ch {
        return from + i;
      }
    }
    k := -1;
  }

  /** find_eol_char: scans in chunks of 128 bytes. */
  method FindEolChar(chain: Chain, from: nat, ghost d: seq<Byte>) returns (k: nat)
    requires chain.Holds(d) && from <= |d|
    ensures from <= k <= |d| && (k < |d| ==> Stops(EolByte, d[k]))
    ensures forall j :: from <= j < k ==> !Stops(EolByte, d[j])
  {
    var s := from;
    while s < chain.off
      invariant from <= s
      invariant forall j :: from <= j < s && j < |d| ==> !Stops(EolByte, d[j])
      decreases chain.off - s
    {
      var chunk := if s + CHUNK_SZ < chain.off then CHUNK_SZ else chain.off - s;
      var cr := MemChrIn(chain, s, chunk, CR, d);
      var lf := MemChrIn(chain, s, chunk, LF, d);
      if cr != -1 {
        if lf != -1 && lf < cr {
          return lf;
        }
        return cr;
      } else if lf != -1 {
        return lf;
      }
      s := s + CHUNK_SZ;
    }
    k := chain.off;
  }

  /** No byte from offset `s` on and before `t` stops the scan. */
  ghost predicate NoStop(c: seq<Byte>, scan: Scan, s: int, t: int) {
    forall k :: 0 <= s <= k < t && k < |c| ==> !Stops(scan, c[k])
  }

  lemma NoStopIn(segs: Segs, scan: Scan, s: int, i: nat, a: nat, b: nat)
    requires i < |segs| && a <= b <= |segs[i]| && 0 <= s <= |Join(segs[..i])| + a
    requires NoStop(Join(segs), scan, s, |Join(segs[..i])| + a)
    requires forall j :: a <= j < b ==> !Stops(scan, segs[i][j])
    ensures NoStop(Join(segs), scan, s, |Join(segs[..i])| + b)
  {
    var c, o := Join(segs), |Join(segs[..i])|;
    forall k | 0 <= s <= k < o + b && k < |c| ensures !Stops(scan, c[k]) {
      if o + a <= k { JoinIndex(segs, i, k - o); }
    }
  }

  /** evbuffer_strchr and evbuffer_find_eol_char: the first byte at or after `p` that stops the scan. */
  method Find(buf: Evbuffer, p: Ptr, scan: Scan) returns (found: bool, q: Ptr)
    requires buf.Valid() && Denotes(buf.view, p)
    ensures var c := buf.Contents();
      if found then p.pos <= q.pos < |c| && Stops(scan, c[q.pos]) && NoStop(c, scan, p.pos, q.pos) && Denotes(buf.view, q)
      else NoStop(c, scan, p.pos, |c|)
  {
    hide Join, Distinct, Data, LastData, Link, NoStop;
    ghost var c, v := buf.Contents(), buf.view;
    ghost var i: nat :| At(v, p, i);
    q := p;
    PosBound(v, p);
    NoStopNil(c, scan, p.pos);
    while q.chain != null
      invariant At(v, q, i) && p.pos <= q.pos && NoStop(c, scan, p.pos, q.pos)
      decreases |v.chains| - i
    {
      DataAt(v.chains, v.segs, i);
      var chain, k := q.chain, 0;
      match scan {
        case OneByte(ch) => k := MemChr(chain, q.inChain, ch, v.segs[i]);
        case EolByte => k := FindEolChar(chain, q.inChain, v.segs[i]);
      }
      NoStopIn(v.segs, scan, p.pos, i, q.inChain, k);
      q := Ptr(q.pos + (k - q.inChain), chain, k);
      if k < chain.off {
        JoinIndex(v.segs, i, k);
        assert At(v, q, i);
        return true, q;
      }
      q, i := SkipChainEnd(buf, q, i);
    }
    OffsetBound(v.segs, i);
    found := false;
  }

  lemma NoStopNil(c: seq<Byte>, scan: Scan, s: int)
    ensures NoStop(c, scan, s, s)
  {
  }

  /** Bytes a to b - 1 all stop the scan. */
  ghost predicate AllStop(c: seq<Byte>, scan: Scan, a: int, b: int) {
    0 <= a <= b <= |c| && forall k :: a <= k < b ==> Stops(scan, c[k])
  }

  lemma AllStopOne(c: seq<Byte>, scan: Scan, a: int, b: int)
    requires AllStop(c, scan, a, b) && b < |c| && Stops(scan, c[b])
    ensures AllStop(c, scan, a, b + 1)
  {
  }

  /** evbuffer_strspn for the line-end bytes: the length of the run at `p`. */
  method Strspn(buf: Evbuffer, p: Ptr) returns (count: nat)
    requires buf.Valid() && Denotes(buf.view, p)
    ensures AllStop(buf.Contents(), EolByte, p.pos, p.pos + count)
    ensures p.pos + count < |buf.Contents()| ==> !Stops(EolByte, buf.Contents()[p.pos + count])
  {
    hide Join, Distinct, Data, LastData, Link, AllStop;
    ghost var c, v := buf.Contents(), buf.view;
    ghost var i: nat :| At(v, p, i);
    PosBound(v, p);
    count := 0;
    RunNil(c, p.pos);
    var q := p;
    while q.chain != null
      invariant At(v, q, i) && q.pos == p.pos + count && AllStop(c, EolByte, p.pos, p.pos + count)
      decreases |v.chains| - i, |c| - q.pos
    {
      DataAt(v.chains, v.segs, i);
      if q.inChain < q.chain.off {
        JoinIndex(v.segs, i, q.inChain);
        HoldsByte(q.chain, v.segs[i], q.inChain);
        var b := q.chain.buffer[q.chain.misalign + q.inChain];
        if b != CR && b != LF {
          return;
        }
        AllStopOne(c, EolByte, p.pos, p.pos + count);
        count := count + 1;
        q := Ptr(q.pos + 1, q.chain, q.inChain + 1);
      } else {
        q, i := SkipChainEnd(buf, q, i);
      }
    }
    OffsetBound(v.segs, i);
  }

  lemma RunNil(c: seq<Byte>, s: int)
    requires 0 <= s <= |c|
    ensures AllStop(c, EolByte, s, s)
  {
  }

  /** The line end of the given style at or after offset s: where it starts and how long it is. */
  ghost predicate EolAt(c: seq<Byte>, s: int, style: EolStyle, pos: int, len: int) {
    match style
    case EolAny =>
      && s <= pos && 0 < len && NoStop(c, EolByte, s, pos) && AllStop(c, EolByte, pos, pos + len)
      && (pos + len < |c| ==> !Stops(EolByte, c[pos + len]))
    case EolCrlfStrict =>
      len == 2 && s <= pos && MatchAt(c, [CR, LF], pos) && NoMatch(c, [CR, LF], s, pos)
    case EolCrlf =>
      var lf := pos + len - 1;
      && 0 <= lf && s <= lf < |c| && c[lf] == LF && NoStop(c, OneByte(LF), s, lf)
      && len == (if 0 <= s < lf && c[lf - 1] == CR then 2 else 1)
    case EolLf =>
      len == 1 && s <= pos < |c| && 0 <= pos && c[pos] == LF && NoStop(c, OneByte(LF), s, pos)
    case EolNul =>
      len == 1 && s <= pos < |c| && 0 <= pos && c[pos] == NUL && NoStop(c, OneByte(NUL), s, pos)
  }

  /** There is no line end of the given style at or after offset s. */
  ghost predicate NoEol(c: seq<Byte>, s: int, style: EolStyle) {
    match style
    case EolAny => NoStop(c, EolByte, s, |c|)
    case EolCrlfStrict => NoMatch(c, [CR, LF], s, |c| - 1)
    case EolCrlf => NoStop(c, OneByte(LF), s, |c|)
    case EolLf => NoStop(c, OneByte(LF), s, |c|)
    case EolNul => NoStop(c, OneByte(NUL), s, |c|)
  }

  // The styles in bytes: 13 and 10 are CR and LF.

  lemma LfMeans(c: seq<Byte>, s: nat, pos: int, len: int)
    ensures EolAt(c, s, EolLf, pos, len) <==> len == 1 && s <= pos < |c| && c[pos] == 10 && 10 !in c[s..pos]
    ensures EolAt(c, s, EolNul, pos, len) <==> len == 1 && s <= pos < |c| && c[pos] == 0 && 0 !in c[s..pos]
  {
    hide NoStop;
    LineEndBytes(c, s, pos);
  }

  lemma CrlfStrictMeans(c: seq<Byte>, s: nat, pos: int, len: int)
    ensures EolAt(c, s, EolCrlfStrict, pos, len) <==>
      len == 2 && s <= pos < |c| - 1 && c[pos] == 13 && c[pos + 1] == 10 && forall k :: s <= k < pos ==> c[k] != 13 || c[k + 1] != 10
  {
    hide MatchAt, NoMatch;
    StrictPair(c, pos);
    if pos < |c| { StrictPairs(c, s, pos); }
  }

  lemma AnyMeans(c: seq<Byte>, s: nat, pos: int, len: int)
    ensures EolAt(c, s, EolAny, pos, len) <==>
      && s <= pos < pos + len <= |c| && 10 !in c[s..pos] && 13 !in c[s..pos]
      && (forall k :: pos <= k < pos + len ==> c[k] == 10 || c[k] == 13) && (pos + len < |c| ==> c[pos + len] != 10 && c[pos + len] != 13)
  {
    hide NoStop;
    LineEndBytes(c, s, pos);
  }

  lemma CrlfMeans(c: seq<Byte>, s: nat, pos: int, len: int)
    ensures EolAt(c, s, EolCrlf, pos, len) <==>
      && s <= pos + len - 1 < |c| && c[pos + len - 1] == 10 && 10 !in c[s..pos + len - 1]
      && len == if s < pos + len - 1 && c[pos + len - 2] == 13 then 2 else 1
  {
    hide NoStop;
    LineEndBytes(c, s, pos + len - 1);
  }

  lemma LineEndBytes(c: seq<Byte>, s: nat, t: int)
    ensures s <= t <= |c| ==> (NoStop(c, OneByte(LF), s, t) <==> 10 !in c[s..t]) && (NoStop(c, OneByte(NUL), s, t) <==> 0 !in c[s..t])
    ensures s <= t <= |c| ==> (NoStop(c, EolByte, s, t) <==> 10 !in c[s..t] && 13 !in c[s..t])
  {
    if s <= t <= |c| {
      forall b ensures b !in c[s..t] <==> forall k :: s <= k < t ==> c[k] != b {
        if forall k :: s <= k < t ==> c[k] != b {
        } else {
          var k :| s <= k < t && c[k] == b;
          assert c[s..t][k - s] == b;
        }
      }
    }
  }

  lemma StrictPair(c: seq<Byte>, k: int)
    ensures MatchAt(c, [CR, LF], k) <==> 0 <= k < |c| - 1 && c[k] == 13 && c[k + 1] == 10
  {
    if 0 <= k && k + 2 <= |c| { assert c[k..k + 2] == [c[k], c[k + 1]]; }
  }

  lemma StrictPairs(c: seq<Byte>, s: nat, t: int)
    requires t < |c|
    ensures NoMatch(c, [CR, LF], s, t) <==> forall k :: s <= k < t ==> c[k] != 13 || c[k + 1] != 10
  {
    hide MatchAt;
    if NoMatch(c, [CR, LF], s, t) {
      forall k | s <= k < t ensures c[k] != 13 || c[k + 1] != 10 { StrictPair(c, k); }
    } else {
      var k :| s <= k < t && MatchAt(c, [CR, LF], k);
      StrictPair(c, k);
    }
  }

  /** A text has at most one first line end, and none if NoEol holds. */
  lemma EolUnique(c: seq<Byte>, s: int, style: EolStyle, p: int, m: int, q: int, n: int)
    requires 0 <= s && EolAt(c, s, style, p, m)
    ensures !NoEol(c, s, style)
    ensures EolAt(c, s, style, q, n) ==> p == q && m == n
  {
    match style {
      case EolAny =>
        assert Stops(EolByte, c[p]);
        if EolAt(c, s, style, q, n) {
          assert Stops(EolByte, c[q]);
          assert p == q;
          assert p + m == |c| || !Stops(EolByte, c[p + m]);
          assert q + n == |c| || !Stops(EolByte, c[q + n]);
        }
      case EolCrlfStrict =>
      case EolCrlf =>
        assert Stops(OneByte(LF), c[p + m - 1]);
      case EolLf =>
        assert Stops(OneByte(LF), c[p]);
      case EolNul =>
        assert Stops(OneByte(NUL), c[p]);
    }
  }

  /** evbuffer_getchr */
  method GetChr(buf: Evbuffer, p: Ptr) returns (b: int)
    requires buf.Valid() && Precise(buf.view, p)
    ensures if p.chain == null then b == -1 else 0 <= p.pos < |buf.Contents()| && b == buf.Contents()[p.pos] as int
  {
    hide Join, Distinct, Data, LastData, Link;
    ghost var v := buf.view;
    ghost var i: nat :| At(v, p, i) && (i < |v.segs| ==> p.inChain < |v.segs[i]|);
    if p.chain == null {
      return -1;
    }
    DataAt(v.chains, v.segs, i);
    JoinIndex(v.segs, i, p.inChain);
    b := p.chain.buffer[p.chain.misalign + p.inChain] as int;
  }

  /** The CRLF style: a line feed, with the carriage return before it if there is one. */
  method FindCrlf(buf: Evbuffer, p: Ptr) returns (q: Ptr, len: nat)
    requires buf.Valid() && Denotes(buf.view, p)
    ensures var c := buf.Contents();
      if q == NOT_FOUND then len == 0 && NoEol(c, p.pos, EolCrlf)
      else EolAt(c, p.pos, EolCrlf, q.pos, len) && Denotes(buf.view, q) && 0 < len
  {
    hide Join, Distinct, Data, LastData, Link, NoStop, At, Denotes, Precise, Evbuffer.Valid;
    DenotedPos(buf, p);
    var found;
    found, q := Find(buf, p, OneByte(LF));
    if !found {
      return NOT_FOUND, 0;
    }
    len := 1;
    if q.pos == p.pos {
      return;
    }
    var r, back := Subtract(buf, q, 1);
    DenotedPos(buf, back);
    var b := GetChr(buf, back);
    if b == CR as int {
      q, len := back, 2;
    }
  }

  lemma DenotedPos(buf: Evbuffer, p: Ptr)
    requires buf.Valid() && Denotes(buf.view, p)
    ensures 0 <= p.pos <= |buf.Contents()| && (p.chain == null ==> p.pos == |buf.Contents()|)
  {
    PosBound(buf.view, p);
    var i: nat :| At(buf.view, p, i);
    OffsetBound(buf.view.segs, i);
  }

  /** evbuffer_search_eol: the first line end at or after `start`, and its length. */
  method SearchEol(buf: Evbuffer, start: Option<Ptr>, style: EolStyle) returns (q: Ptr, len: nat)
    requires buf.Valid() && (start.Some? ==> Denotes(buf.view, start.value))
    ensures var c := buf.Contents(); var s := if start.Some? then start.value.pos else 0;
      if q.pos < 0 then q == NOT_FOUND && len == 0 && NoEol(c, s, style)
      else EolAt(c, s, style, q.pos, len) && Denotes(buf.view, q) && q.pos + len <= |c|
  {
    hide Join, Distinct, Data, LastData, Link, NoStop, AllStop, NoMatch;
    if start.Some? { DenotedPos(buf, start.value); }
    if start.Some? && start.value.chain == null {
      AtEnd(buf.Contents(), style);
      return NOT_FOUND, 0;
    }
    var it := if start.Some? then start.value else Ptr(0, buf.first, 0);
    if start.None? {
      assert buf.view.segs[..0] == [];
      JoinNil();
      assert At(buf.view, it, 0);
    }
    var found;
    match style {
      case EolAny =>
        found, q := Find(buf, it, EolByte);
        if found {
          len := Strspn(buf, q);
          RunBounds(buf.Contents(), q.pos, len);
        } else {
          q, len := NOT_FOUND, 0;
        }
      case EolCrlfStrict =>
        q := SearchRange(buf, [CR, LF], Some(it), None);
        len := if q.pos < 0 then 0 else 2;
      case EolCrlf =>
        q, len := FindCrlf(buf, it);
        if q != NOT_FOUND { DenotedPos(buf, q); }
      case EolLf =>
        found, q := Find(buf, it, OneByte(LF));
        len := if found then 1 else 0;
        q := if found then q else NOT_FOUND;
      case EolNul =>
        found, q := Find(buf, it, OneByte(NUL));
        len := if found then 1 else 0;
        q := if found then q else NOT_FOUND;
    }
  }

  lemma AtEnd(c: seq<Byte>, style: EolStyle)
    ensures NoEol(c, |c|, style)
  {
  }

  lemma RunBounds(c: seq<Byte>, a: int, n: nat)
    requires AllStop(c, EolByte, a, a + n) && 0 <= a < |c| && Stops(EolByte, c[a])
    requires a + n < |c| ==> !Stops(EolByte, c[a + n])
    ensures 0 < n && a + n <= |c|
  {
  }

  /** The end of evbuffer_readln: the line is removed, its terminator drained. */
  method TakeLine(buf: Evbuffer, n: nat, len: nat) returns (line: seq<Byte>)
    requires buf.Valid() && !buf.freezeStart && n + len <= |buf.Contents()| && n <= SSIZE_MAX
    modifies buf`first, buf`last, buf`lastWithDataOwner, buf`totalLen, buf`view, buf.view.chains
    ensures buf.Valid() && NewChains(old(buf.view.chains), buf.view.chains)
    ensures var c := old(buf.Contents()); |line| == n && c == line + c[n..n + len] + buf.Contents()
    ensures old(buf.NoHoles()) ==> buf.NoHoles()
  {
    hide Join, Evbuffer.Valid, Packed;
    LineOff(buf.Contents(), n, len);
    line := TakeBytes(buf, n);
    DropBytes(buf, len);
  }

  method TakeBytes(buf: Evbuffer, n: nat) returns (data: seq<Byte>)
    requires buf.Valid() && !buf.freezeStart && n <= |buf.Contents()| && n <= SSIZE_MAX
    modifies buf`first, buf`last, buf`lastWithDataOwner, buf`totalLen, buf`view, buf.view.chains
    ensures buf.Valid() && NewChains(old(buf.view.chains), buf.view.chains)
    ensures data == old(buf.Contents())[..n] && buf.Contents() == old(buf.Contents())[n..]
    ensures old(buf.NoHoles()) ==> buf.NoHoles()
  {
    hide Join, Evbuffer.Shape, Packed;
    var r;
    r, data := buf.Remove(n);
  }

  lemma LineOff(c: seq<Byte>, n: nat, len: nat)
    requires n + len <= |c|
    ensures c == c[..n] + c[n..n + len] + c[n + len..] && c[n..][len..] == c[n + len..]
  {
  }

  /** The first line is so long that the offset of its end is a negative number of its type. */
  ghost predicate EolTooFar(c: seq<Byte>, style: EolStyle) {
    exists k: nat, len: nat :: EolAt(c, 0, style, k, len) && k > SSIZE_MAX
  }

  /** evbuffer_readln: takes one line off the buffer; its terminator is dropped. */
  method Readln(buf: Evbuffer, style: EolStyle) returns (ok: bool, line: seq<Byte>)
    requires buf.Valid()
    modifies buf`first, buf`last, buf`lastWithDataOwner, buf`totalLen, buf`view, buf.view.chains
    ensures buf.Valid() && NewChains(old(buf.view.chains), buf.view.chains)
    ensures var c := old(buf.Contents());
      if ok then exists len: nat :: EolAt(c, 0, style, |line|, len) && |line| + len <= |c|
                   && c == line + c[|line|..|line| + len] + buf.Contents()
      else line == [] && buf.Contents() == c && (buf.freezeStart || NoEol(c, 0, style) || EolTooFar(c, style))
    ensures old(buf.NoHoles()) ==> buf.NoHoles()
  {
    hide Join, Distinct, Data, LastData, Link, NoEol, EolAt, Packed;
    line := [];
    if buf.freezeStart {
      return false, [];
    }
    ghost var c := buf.Contents();
    var it, len := SearchEol(buf, None, style);
    if it.pos < 0 {
      return false, [];
    }
    DenotedPos(buf, it);
    if it.pos > SSIZE_MAX {
      return false, [];
    }
    line := TakeLine(buf, it.pos, len);
    ok := true;
  }
}
