/** Whole runs of operations on two evbuffers, against two byte strings. */
module EvbufferRuns {
  import opened Wrappers
  import opened Flat
  import opened Chains
  import opened Evbuffers

  /** An operation on one of the buffers; the last three move its bytes to the other. */
  datatype Op =
    | Append(data: Bytes) | AppendReference(data: Bytes) | PutFront(data: Bytes)
    | Drop(n: nat) | Take(n: nat) | Straighten(size: int)
    | MoveAll | PutBufferFront | MoveSome(n: nat)

  /** Which buffer an operation is called on. */
  datatype Turn = Turn(first: bool, op: Op)

  /** What came of it: it was made, or not called at all, or of the bytes it moved only the first `kept` arrived. */
  datatype Fate = Made | Passed | Kept(kept: nat)

  datatype Pair = Pair(a: Bytes, b: Bytes)

  function Swapped(p: Pair): (q: Pair) { Pair(p.b, p.a) }

  function Upto(s: Bytes, n: nat): (t: Bytes) { if n <= |s| then s[..n] else s }

  function From(s: Bytes, n: nat): (t: Bytes) { if n <= |s| then s[n..] else [] }

  /** What an operation on the first buffer does to the byte strings; only additions look at the length. */
  function Step(p: Pair, op: Op): (q: Pair) {
    match op
    case Append(data) => if |p.a| + |data| > SIZE_MAX then p else p.(a := p.a + data)
    case AppendReference(data) => p.(a := p.a + data)
    case PutFront(data) => if |p.a| + |data| > SIZE_MAX then p else p.(a := data + p.a)
    case Drop(n) => p.(a := From(p.a, n))
    case Take(n) => if Min(n, |p.a|) > SSIZE_MAX then p else p.(a := From(p.a, n))
    case Straighten(_) => p
    case MoveAll => Pair([], p.b + p.a)
    case PutBufferFront => Pair([], p.a + p.b)
    case MoveSome(n) => Pair(From(p.a, n), p.b + Upto(p.a, n))
  }

  function Effect(p: Pair, op: Op, fate: Fate): (q: Pair) {
    match fate
    case Made => Step(p, op)
    case Passed => p
    case Kept(k) => if op.MoveSome? then Pair(From(p.a, op.n), p.b + Upto(p.a, k)) else p
  }

  function StepOn(p: Pair, t: Turn, fate: Fate): (q: Pair) {
    if t.first then Effect(p, t.op, fate) else Swapped(Effect(Swapped(p), t.op, fate))
  }

  function Replay(p: Pair, turns: seq<Turn>, fates: seq<Fate>): (q: Pair)
    requires |turns| == |fates|
  {
    if turns == [] then p else
      var n := |turns| - 1;
      StepOn(Replay(p, turns[..n], fates[..n]), turns[n], fates[n])
  }

  /** An operation that does not look at the length would make it more than a size. */
  ghost predicate TooLong(p: Pair, op: Op) {
    match op
    case AppendReference(data) => |p.a| + |data| > SIZE_MAX
    case MoveAll => |p.a| + |p.b| > SIZE_MAX
    case PutBufferFront => |p.a| + |p.b| > SIZE_MAX
    case MoveSome(n) => |p.b| + Min(n, |p.a|) > SIZE_MAX
    case _ => false
  }

  /** Two buffers with no chain in common, neither with a hole, holding these bytes. */
  ghost predicate Holding(x: Evbuffer, y: Evbuffer, p: Pair)
    reads x, y, x.view.chains, y.view.chains
  {
    && x != y && x.Valid() && y.Valid() && x.NoHoles() && y.NoHoles() && Apart(x.view.chains, y.view.chains)
    && !x.freezeStart && !x.freezeEnd && !y.freezeStart && !y.freezeEnd
    && x.Contents() == p.a && y.Contents() == p.b
  }

  lemma Lengths(x: Evbuffer, y: Evbuffer, p: Pair)
    requires Holding(x, y, p)
    ensures x.totalLen == |p.a| <= SIZE_MAX && y.totalLen == |p.b| <= SIZE_MAX
  {
    TotalOf(x);
    TotalOf(y);
  }

  // ---- operations on one buffer ----

  method DoAppend(x: Evbuffer, y: Evbuffer, data: Bytes, ghost p: Pair)
    requires Holding(x, y, p)
    modifies x`first, x`last, x`lastWithDataOwner, x`totalLen, x`view, x.view.chains
    ensures Holding(x, y, Step(p, Append(data))) && NewChains(old(x.view.chains), x.view.chains)
  {
    hide Join, Evbuffer.Shape, Packed;
    var _ := x.Add(data);
  }

  method DoPutFront(x: Evbuffer, y: Evbuffer, data: Bytes, ghost p: Pair)
    requires Holding(x, y, p)
    modifies x`first, x`last, x`lastWithDataOwner, x`totalLen, x`view, x.view.chains
    ensures Holding(x, y, Step(p, PutFront(data))) && NewChains(old(x.view.chains), x.view.chains)
  {
    hide Join, Evbuffer.Shape, Packed;
    if data != [] || x.first == null || !x.first.immutable { var _ := x.Prepend(data); }
    assert [] + p.a == p.a;
  }

  method DoAppendReference(x: Evbuffer, y: Evbuffer, data: Bytes, ghost p: Pair)
    requires Holding(x, y, p) && !TooLong(p, AppendReference(data))
    modifies x`first, x`last, x`lastWithDataOwner, x`totalLen, x`view, x.view.chains
    ensures Holding(x, y, Step(p, AppendReference(data))) && NewChains(old(x.view.chains), x.view.chains)
  {
    hide Join, Evbuffer.Shape, Packed;
    if data != [] { var _ := x.AddReference(data); }
    assert p.a + [] == p.a;
  }

  method DoDrop(x: Evbuffer, y: Evbuffer, n: nat, ghost p: Pair)
    requires Holding(x, y, p)
    modifies x`first, x`last, x`lastWithDataOwner, x`totalLen, x`view, x.view.chains
    ensures Holding(x, y, Step(p, Drop(n))) && NewChains(old(x.view.chains), x.view.chains)
  {
    hide Join, Evbuffer.Shape, Packed;
    var _ := x.Drain(n);
    assert p.a[|p.a|..] == [];
  }

  method DoTake(x: Evbuffer, y: Evbuffer, n: nat, ghost p: Pair)
    requires Holding(x, y, p)
    modifies x`first, x`last, x`lastWithDataOwner, x`totalLen, x`view, x.view.chains
    ensures Holding(x, y, Step(p, Take(n))) && NewChains(old(x.view.chains), x.view.chains)
  {
    hide Join, Evbuffer.Shape, Packed, Signed;
    var _, data := x.Remove(n);
    assert p.a[|p.a|..] == [];
  }

  method DoStraighten(x: Evbuffer, y: Evbuffer, size: int, ghost p: Pair)
    requires Holding(x, y, p)
    modifies x`first, x`last, x`lastWithDataOwner, x`totalLen, x`view, x.view.chains
    ensures Holding(x, y, Step(p, Straighten(size))) && NewChains(old(x.view.chains), x.view.chains)
  {
    hide Join, Evbuffer.Shape, Packed;
    var _ := x.Pullup(size);
  }

  // ---- operations that move bytes ----

  method DoMoveAll(x: Evbuffer, y: Evbuffer, ghost p: Pair)
    requires Holding(x, y, p) && !TooLong(p, MoveAll)
    modifies x`first, x`last, x`lastWithDataOwner, x`totalLen, x`view, x.view.chains
    modifies y`first, y`last, y`lastWithDataOwner, y`totalLen, y`view, y.view.chains
    ensures Holding(x, y, Step(p, MoveAll))
    ensures NewChains(old(x.view.chains), x.view.chains) && NewOrMoved(old(y.view.chains), old(x.view.chains), y.view.chains)
  {
    hide Join, Evbuffer.Shape, Packed;
    ApartSym(x.view.chains, y.view.chains);
    var _ := y.AddBuffer(x);
    ApartSym(y.view.chains, x.view.chains);
    assert p.a == [] ==> p.b + p.a == p.b;
  }

  /** evbuffer_prepend_buffer makes a hole if empty chains follow the bytes it moves and bytes follow those. */
  ghost predicate WouldTear(x: Evbuffer, y: Evbuffer)
    reads x, y
  {
    x.totalLen > 0 && y.totalLen > 0 && x.view.lwd != |x.view.chains| - 1
  }

  method Tears(x: Evbuffer, y: Evbuffer, ghost p: Pair) returns (r: bool)
    requires Holding(x, y, p)
    ensures r <==> WouldTear(x, y)
  {
    hide Join, Link, Data, Apart, Packed;
    var chain := x.LastWithData();
    r := x.totalLen > 0 && y.totalLen > 0 && chain != x.last;
    JoinNil();
  }

  method DoPutBufferFront(x: Evbuffer, y: Evbuffer, ghost p: Pair)
    requires Holding(x, y, p) && !WouldTear(x, y) && !TooLong(p, PutBufferFront)
    modifies x`first, x`last, x`lastWithDataOwner, x`totalLen, x`view, x.view.chains
    modifies y`first, y`last, y`lastWithDataOwner, y`totalLen, y`view, y.view.chains
    ensures Holding(x, y, Step(p, PutBufferFront))
    ensures NewChains(old(x.view.chains), x.view.chains) && NewOrMoved(old(y.view.chains), old(x.view.chains), y.view.chains)
  {
    hide Join, Evbuffer.Shape, Packed;
    ApartSym(x.view.chains, y.view.chains);
    var _ := y.PrependBuffer(x);
    ApartSym(y.view.chains, x.view.chains);
    assert p.a == [] ==> p.a + p.b == p.b;
  }

  /** How many bytes evbuffer_remove_buffer moves as whole chains. */
  ghost function Relinked(x: Evbuffer, n: nat): (k: nat)
    reads x`view
  {
    if n >= |x.Contents()| then |x.Contents()| else Whole(x.view.segs, n)
  }

  method CountRelinked(x: Evbuffer, n: nat) returns (k: nat)
    requires x.Valid()
    ensures k == Relinked(x, n)
  {
    hide Join, Distinct, Data, Whole;
    if n >= x.totalLen { return x.totalLen; }
    ghost var cs, segs, i := x.view.chains, x.view.segs, 0;
    JoinNil();
    assert segs[..0] == [];
    var chain, left := x.first, n;
    k := 0;
    DataAt(cs, segs, 0);
    while chain.off <= left
      invariant i < |cs| && i <= x.view.lwd && chain == cs[i] && chain.Holds(segs[i])
      invariant k == |Join(segs[..i])| && k + left == n && left >= 0
      decreases |cs| - i
    {
      JoinTake(segs, i);
      StillInside(segs, x.view.lwd, i, n);
      k, left, chain, i := k + chain.off, left - chain.off, chain.next, i + 1;
      DataAt(cs, segs, i);
    }
    WholeIs(segs, i, n);
  }

  method DoMoveSome(x: Evbuffer, y: Evbuffer, n: nat, k: nat, ghost p: Pair) returns (fate: Fate)
    requires Holding(x, y, p) && k == Relinked(x, n) && |p.b| + k <= SIZE_MAX
    modifies x`first, x`last, x`lastWithDataOwner, x`totalLen, x`view, x.view.chains
    modifies y`first, y`last, y`lastWithDataOwner, y`totalLen, y`view, y.view.chains
    ensures fate == if TooLong(p, MoveSome(n)) then Kept(k) else Made
    ensures Holding(x, y, Effect(p, MoveSome(n), fate))
    ensures NewChains(old(x.view.chains), x.view.chains) && NewOrMoved(old(y.view.chains), old(x.view.chains), y.view.chains)
  {
    hide Join, Evbuffer.Shape, Packed, Whole, Removed;
    Lengths(x, y, p);
    fate := if y.totalLen + Min(n, x.totalLen) > SIZE_MAX then Kept(k) else Made;
    ApartSym(x.view.chains, y.view.chains);
    ghost var w := Whole(x.view.segs, n);
    var result := x.RemoveBuffer(y, n);
    ApartSym(y.view.chains, x.view.chains);
    if n > 0 {
      RemovedAsEffect(p, w, n, result, x.Contents(), y.Contents(), y.totalLen);
    }
  }

  lemma RemovedAsEffect(p: Pair, w: nat, n: nat, result: int, c': Bytes, d': Bytes, total: nat)
    requires Removed(p.a, p.b, w, n, result, c', d', total)
    requires var k := if n >= |p.a| then |p.a| else w; |p.b| + k <= SIZE_MAX
    ensures var k := if n >= |p.a| then |p.a| else w; var op := MoveSome(n);
      total == |d'| <= SIZE_MAX && Pair(c', d') == Effect(p, op, if TooLong(p, op) then Kept(k) else Made)
  {
    assert p.a[|p.a|..] == [] && p.a[..|p.a|] == p.a;
  }

  // ---- turns ----

  /**
   * What comes of an operation: it is not called where it would make a hole or a length that is more
   * than a size, and a move for whose last bytes there is no room loses them.
   */
  ghost function FateOf(x: Evbuffer, y: Evbuffer, p: Pair, op: Op): (fate: Fate)
    reads x, y
  {
    if op.MoveSome? && TooLong(p, op) && |p.b| + Relinked(x, op.n) <= SIZE_MAX then Kept(Relinked(x, op.n))
    else if TooLong(p, op) || (op.PutBufferFront? && WouldTear(x, y)) then Passed
    else Made
  }

  /** The same as far as the byte strings tell. */
  ghost predicate Justified(p: Pair, op: Op, fate: Fate) {
    match fate
    case Made => !TooLong(p, op)
    case Passed => TooLong(p, op) || op.PutBufferFront?
    case Kept(k) => op.MoveSome? && |p.b| + k <= SIZE_MAX < |p.b| + Min(op.n, |p.a|)
  }

  predicate Moves(op: Op) { op.MoveAll? || op.PutBufferFront? || op.MoveSome? }

  /** An operation that leaves the other buffer alone. */
  method DoHere(x: Evbuffer, y: Evbuffer, op: Op, ghost p: Pair) returns (fate: Fate)
    requires Holding(x, y, p) && !Moves(op)
    modifies x`first, x`last, x`lastWithDataOwner, x`totalLen, x`view, x.view.chains
    ensures fate == (if TooLong(p, op) then Passed else Made) && Holding(x, y, Effect(p, op, fate))
    ensures NewChains(old(x.view.chains), x.view.chains)
  {
    Lengths(x, y, p);
    hide Holding, Step;
    fate := Made;
    match op
    case Append(data) => DoAppend(x, y, data, p);
    case PutFront(data) => DoPutFront(x, y, data, p);
    case Drop(n) => DoDrop(x, y, n, p);
    case Take(n) => DoTake(x, y, n, p);
    case Straighten(size) => DoStraighten(x, y, size, p);
    case AppendReference(data) =>
      if x.totalLen + |data| > SIZE_MAX { return Passed; }
      DoAppendReference(x, y, data, p);
  }

  method DoMoving(x: Evbuffer, y: Evbuffer, op: Op, ghost p: Pair) returns (fate: Fate)
    requires Holding(x, y, p) && Moves(op)
    modifies x`first, x`last, x`lastWithDataOwner, x`totalLen, x`view, x.view.chains
    modifies y`first, y`last, y`lastWithDataOwner, y`totalLen, y`view, y.view.chains
    ensures fate == old(FateOf(x, y, p, op)) && Holding(x, y, Effect(p, op, fate))
    ensures NewChains(old(x.view.chains), x.view.chains) && NewOrMoved(old(y.view.chains), old(x.view.chains), y.view.chains)
  {
    Lengths(x, y, p);
    hide Holding, WouldTear, Relinked, Step;
    fate := Made;
    match op
    case MoveAll =>
      if x.totalLen + y.totalLen > SIZE_MAX { return Passed; }
      DoMoveAll(x, y, p);
    case PutBufferFront =>
      var tears := Tears(x, y, p);
      if tears || x.totalLen + y.totalLen > SIZE_MAX { return Passed; }
      DoPutBufferFront(x, y, p);
    case MoveSome(n) =>
      fate := TryMoveSome(x, y, n, p);
  }

  method Do(x: Evbuffer, y: Evbuffer, op: Op, ghost p: Pair) returns (fate: Fate)
    requires Holding(x, y, p)
    modifies x`first, x`last, x`lastWithDataOwner, x`totalLen, x`view, x.view.chains
    modifies y`first, y`last, y`lastWithDataOwner, y`totalLen, y`view, y.view.chains
    ensures fate == old(FateOf(x, y, p, op)) && Holding(x, y, Effect(p, op, fate))
    ensures NewChains(old(x.view.chains), x.view.chains) && NewOrMoved(old(y.view.chains), old(x.view.chains), y.view.chains)
  {
    hide Holding, Effect, WouldTear, Relinked;
    if Moves(op) { fate := DoMoving(x, y, op, p); } else { fate := DoHere(x, y, op, p); }
  }

  method TryMoveSome(x: Evbuffer, y: Evbuffer, n: nat, ghost p: Pair) returns (fate: Fate)
    requires Holding(x, y, p)
    modifies x`first, x`last, x`lastWithDataOwner, x`totalLen, x`view, x.view.chains
    modifies y`first, y`last, y`lastWithDataOwner, y`totalLen, y`view, y.view.chains
    ensures fate == old(FateOf(x, y, p, MoveSome(n))) && Holding(x, y, Effect(p, MoveSome(n), fate))
    ensures NewChains(old(x.view.chains), x.view.chains) && NewOrMoved(old(y.view.chains), old(x.view.chains), y.view.chains)
  {
    Lengths(x, y, p);
    RelinkedBound(x, n);
    var k := CountRelinked(x, n);
    hide Evbuffer.Valid, Evbuffer.NoHoles, Apart, Relinked, Step;
    if y.totalLen + k > SIZE_MAX { return Passed; }
    fate := DoMoveSome(x, y, n, k, p);
  }

  lemma RelinkedBound(x: Evbuffer, n: nat)
    ensures Relinked(x, n) <= Min(n, |x.Contents()|)
  {
  }

  lemma HoldingSwapped(x: Evbuffer, y: Evbuffer, p: Pair)
    requires Holding(x, y, p)
    ensures Holding(y, x, Swapped(p))
  {
    hide Join, Evbuffer.Valid, Packed;
    ApartSym(x.view.chains, y.view.chains);
  }

  /** A turn of a run. */
  method TakeTurn(x: Evbuffer, y: Evbuffer, t: Turn, ghost p: Pair) returns (fate: Fate)
    requires Holding(x, y, p)
    modifies x`first, x`last, x`lastWithDataOwner, x`totalLen, x`view, x.view.chains
    modifies y`first, y`last, y`lastWithDataOwner, y`totalLen, y`view, y.view.chains
    ensures Holding(x, y, StepOn(p, t, fate))
    ensures fate == if t.first then old(FateOf(x, y, p, t.op)) else old(FateOf(y, x, Swapped(p), t.op))
    ensures NewOrMoved(old(x.view.chains), old(y.view.chains), x.view.chains)
    ensures NewOrMoved(old(x.view.chains), old(y.view.chains), y.view.chains)
  {
    hide Holding, Effect, FateOf;
    if t.first {
      fate := Do(x, y, t.op, p);
    } else {
      HoldingSwapped(x, y, p);
      fate := Do(y, x, t.op, Swapped(p));
      HoldingSwapped(y, x, Effect(Swapped(p), t.op, fate));
    }
  }

  /** Every operation on a few bytes. */
  lemma KnownSteps()
    ensures StepOn(Pair([], []), Turn(true, Append([1, 2])), Made) == Pair([1, 2], [])
    ensures StepOn(Pair([1, 2], []), Turn(true, PutFront([0])), Made) == Pair([0, 1, 2], [])
    ensures StepOn(Pair([0, 1, 2], [8]), Turn(false, AppendReference([9])), Made) == Pair([0, 1, 2], [8, 9])
    ensures StepOn(Pair([0, 1, 2], [9]), Turn(true, MoveSome(2)), Made) == Pair([2], [9, 0, 1])
    ensures StepOn(Pair([0, 1, 2], [9]), Turn(true, MoveSome(2)), Kept(1)) == Pair([2], [9, 0])
    ensures StepOn(Pair([2], [9, 0, 1]), Turn(false, Drop(1)), Made) == Pair([2], [0, 1])
    ensures StepOn(Pair([2], [0, 1]), Turn(false, Take(1)), Made) == Pair([2], [1])
    ensures StepOn(Pair([2], [1]), Turn(true, Straighten(-1)), Made) == Pair([2], [1])
    ensures StepOn(Pair([2], [1]), Turn(false, PutBufferFront), Made) == Pair([1, 2], [])
    ensures StepOn(Pair([2], [1]), Turn(false, MoveAll), Made) == Pair([2, 1], [])
  {
  }

  /** Every turn has a fate that the byte strings at the time justify. */
  ghost predicate Follows(p: Pair, turns: seq<Turn>, fates: seq<Fate>) {
    |fates| == |turns|
    && forall i :: 0 <= i < |turns| ==>
      var q := Replay(p, turns[..i], fates[..i]);
      Justified(if turns[i].first then q else Swapped(q), turns[i].op, fates[i])
  }

  /** Every run of operations on two buffers does to them what it does to two plain byte strings. */
  method Run(turns: seq<Turn>) returns (x: Evbuffer, y: Evbuffer, fates: seq<Fate>)
    ensures Follows(Pair([], []), turns, fates) && Holding(x, y, Replay(Pair([], []), turns, fates))
  {
    hide Holding, StepOn, Follows, Replay, Evbuffer.Valid, FateOf, Justified;
    x := new Evbuffer();
    y := new Evbuffer();
    fates := [];
    ghost var p := Pair([], []);
    Started(x, y);
    NothingYet(turns);
    for i := 0 to |turns|
      invariant fresh(x) && fresh(y) && fresh(x.view.chains) && fresh(y.view.chains)
      invariant |fates| == i && Follows(p, turns[..i], fates) && Holding(x, y, Replay(p, turns[..i], fates))
    {
      ghost var q := Replay(p, turns[..i], fates);
      FatesJustified(x, y, q, turns[i]);
      var fate := TakeTurn(x, y, turns[i], q);
      Followed(p, turns, fates, fate);
      fates := fates + [fate];
    }
    assert turns[..|turns|] == turns;
  }

  lemma FatesJustified(x: Evbuffer, y: Evbuffer, p: Pair, t: Turn)
    requires Holding(x, y, p)
    ensures Justified(p, t.op, FateOf(x, y, p, t.op)) && Justified(Swapped(p), t.op, FateOf(y, x, Swapped(p), t.op))
  {
    hide Evbuffer.Valid, Apart, Evbuffer.NoHoles;
  }

  lemma NothingYet(turns: seq<Turn>)
    ensures Follows(Pair([], []), turns[..0], []) && Replay(Pair([], []), turns[..0], []) == Pair([], [])
  {
  }

  lemma Followed(p: Pair, turns: seq<Turn>, fates: seq<Fate>, fate: Fate)
    requires |fates| < |turns| && Follows(p, turns[..|fates|], fates)
    requires var i := |fates|; var q := Replay(p, turns[..i], fates);
      Justified(if turns[i].first then q else Swapped(q), turns[i].op, fate)
    ensures Follows(p, turns[..|fates| + 1], fates + [fate])
    ensures var i := |fates|; Replay(p, turns[..i + 1], fates + [fate]) == StepOn(Replay(p, turns[..i], fates), turns[i], fate)
  {
    hide StepOn, Justified;
    var n := |fates|;
    var ts, fs := turns[..n + 1], fates + [fate];
    assert ts[..n] == turns[..n] && fs[..n] == fates;
    forall i | 0 <= i < n + 1 ensures
      var q := Replay(p, ts[..i], fs[..i]);
      Justified(if ts[i].first then q else Swapped(q), ts[i].op, fs[i])
    {
      if i < n { assert ts[..i] == turns[..n][..i] && fs[..i] == fates[..i]; }
    }
  }

  lemma Started(x: Evbuffer, y: Evbuffer)
    requires x != y && x.Valid() && y.Valid() && x.view == y.view == View([], [], 0)
    requires !x.freezeStart && !x.freezeEnd && !y.freezeStart && !y.freezeEnd
    ensures Holding(x, y, Pair([], []))
  {
    JoinNil();
  }
}
