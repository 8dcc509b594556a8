/**
 * DNS names in messages: the printer with compression (dnsname_to_labels), the
 * table of suffixes it shares between names, and the parser (name_parse).
 * The wire format is that of sections 3.1 and 4.1.4 of RFC 1035.
 */
module DnsNames {
  import opened Flat
  import opened Wrappers
  import opened Lists

  const DOT: Byte := 46
  const MAX_LABELS: nat := 128

  // ---- names as text and as labels ----

  function FirstDot(s: Bytes): (d: nat)
    ensures d <= |s| && DOT !in s[..d] && (d < |s| ==> s[d] == DOT)
  {
    if s == [] || s[0] == DOT then 0 else
      var d := FirstDot(s[1..]);
      assert s[..d + 1] == [s[0]] + s[1..][..d];
      d + 1
  }

  /** The labels before the first empty one. */
  ghost function Stem(s: Bytes): (ls: seq<Bytes>)
    ensures forall i :: 0 <= i < |ls| ==> ls[i] != []
  {
    var d := FirstDot(s);
    if d == 0 then [] else if d == |s| then [s] else [s[..d]] + Stem(s[d + 1..])
  }

  /** Every label is non-empty. */
  ghost predicate FullLabels(s: Bytes) {
    var d := FirstDot(s);
    0 < d && (d == |s| || FullLabels(s[d + 1..]))
  }

  /** No empty label, unless the name is empty as a whole: in particular no trailing dot. */
  ghost predicate Good(s: Bytes) {
    s == [] || FullLabels(s)
  }

  function Dotted(ls: seq<Bytes>): (s: Bytes) {
    if ls == [] then [] else if |ls| == 1 then ls[0] else ls[0] + [DOT] + Dotted(ls[1..])
  }

  /** Printing the labels before the first empty one gives the name back exactly when there is none. */
  lemma {:induction false} DottedStem(s: Bytes)
    ensures |Dotted(Stem(s))| <= |s|
    ensures Dotted(Stem(s)) == s <==> Good(s)
    ensures FullLabels(s) ==> Stem(s) != []
  {
    var d := FirstDot(s);
    if 0 < d < |s| {
      var rest := s[d + 1..];
      DottedStem(rest);
      assert s == s[..d] + [DOT] + rest;
      if Stem(rest) == [] {
        assert Dotted(Stem(s)) == s[..d];
      } else {
        assert Stem(s)[1..] == Stem(rest);
        var t := Dotted(Stem(rest));
        assert Dotted(Stem(s)) == s[..d] + [DOT] + t;
        if Dotted(Stem(s)) == s { assert t == (s[..d] + [DOT] + t)[d + 1..] == rest; }
      }
    }
  }

  /** The name "a." is read back without its dot. */
  lemma TrailingDotLost()
    ensures !Good([97, DOT]) && Dotted(Stem([97, DOT])) == [97]
  {
    var s: Bytes := [97, DOT];
    assert s[1..][0] == DOT && FirstDot(s) == 1;
    var rest := s[2..];
    assert rest == [] && FirstDot(rest) == 0 && s[..1] == [97];
    assert Stem(s) == [[97]];
    assert !FullLabels(rest);
  }

  lemma {:induction false} DottedSnoc(ls: seq<Bytes>, l: Bytes)
    ensures Dotted(ls + [l]) == if ls == [] then l else Dotted(ls) + [DOT] + l
  {
    if |ls| >= 1 {
      assert (ls + [l])[1..] == ls[1..] + [l];
      DottedSnoc(ls[1..], l);
    }
  }

  lemma {:induction false} DottedEmpty(ls: seq<Bytes>)
    requires forall i :: 0 <= i < |ls| ==> ls[i] != []
    ensures Dotted(ls) == [] <==> ls == []
  {
  }

  lemma {:induction false} DottedPrefix(a: seq<Bytes>, b: seq<Bytes>)
    ensures |Dotted(a)| <= |Dotted(a + b)|
  {
    if a == [] {
    } else if |a| == 1 {
      if b != [] { assert (a + b)[0] == a[0]; }
    } else {
      assert (a + b)[1..] == a[1..] + b;
      DottedPrefix(a[1..], b);
    }
  }

  // ---- the wire form ----

  function PointerTarget(p: Bytes, pos: nat): (t: nat)
    requires pos + 1 < |p| && p[pos] >= 0xc0
  {
    (p[pos] as int - 0xc0) * 256 + p[pos + 1] as int
  }

  /**
   * The index after the name at `pos` in message `p` if that name has exactly the
   * labels `ls`; 0 if not. A compression pointer must lead back to a name that
   * ends before the pointer.
   */
  ghost function EndOf(p: Bytes, pos: nat, ls: seq<Bytes>): (e: nat)
    ensures e > 0 ==> pos < e <= |p|
    decreases |ls|, pos
  {
    if pos >= |p| then 0
    else if p[pos] == 0 then (if ls == [] then pos + 1 else 0)
    else if p[pos] >= 0xc0 then
      if pos + 1 < |p| && PointerTarget(p, pos) < pos && 0 < EndOf(p, PointerTarget(p, pos), ls) <= pos then pos + 2 else 0
    else
      var n := p[pos] as int;
      if n < 64 && ls != [] && |ls[0]| == n && pos + 1 + n <= |p| && p[pos + 1..pos + 1 + n] == ls[0]
      then EndOf(p, pos + 1 + n, ls[1..]) else 0
  }

  /** What EndOf says about a name that starts with a zero, a pointer or a label. */
  lemma EndOfCases(p: Bytes, pos: nat, ls: seq<Bytes>)
    requires pos < |p|
    ensures p[pos] == 0 ==> EndOf(p, pos, ls) == if ls == [] then pos + 1 else 0
    ensures p[pos] >= 0xc0 ==>
      var at := pos + 1 < |p| && PointerTarget(p, pos) < pos && 0 < EndOf(p, PointerTarget(p, pos), ls) <= pos;
      EndOf(p, pos, ls) == if at then pos + 2 else 0
    ensures 0 < p[pos] < 0xc0 ==>
      var n := p[pos] as int;
      var at := n < 64 && ls != [] && |ls[0]| == n && pos + 1 + n <= |p| && p[pos + 1..pos + 1 + n] == ls[0];
      EndOf(p, pos, ls) == if at then EndOf(p, pos + 1 + n, ls[1..]) else 0
  {
  }

  /** What a name means depends only on the message up to its end: later writes do not change it. */
  lemma {:induction false} EndOfLocal(p: Bytes, q: Bytes, pos: nat, ls: seq<Bytes>)
    requires var e := EndOf(p, pos, ls); 0 < e <= |q| && p[..e] == q[..e]
    ensures EndOf(q, pos, ls) == EndOf(p, pos, ls)
    decreases |ls|, pos
  {
    hide EndOf;
    var e := EndOf(p, pos, ls);
    EndOfCases(p, pos, ls);
    EndOfCases(q, pos, ls);
    assert p[pos] == p[..e][pos] == q[pos];
    if p[pos] == 0 {
    } else if p[pos] >= 0xc0 {
      assert p[pos + 1] == p[..e][pos + 1] == q[pos + 1];
      var t := PointerTarget(p, pos);
      var e' := EndOf(p, t, ls);
      TakeSlice(p, e, 0, e');
      TakeSlice(q, e, 0, e');
      EndOfLocal(p, q, t, ls);
    } else {
      var n := p[pos] as int;
      TakeSlice(p, e, pos + 1, pos + 1 + n);
      TakeSlice(q, e, pos + 1, pos + 1 + n);
      EndOfLocal(p, q, pos + 1 + n, ls[1..]);
    }
  }

  /** The plain labels `ls` fill the message from `pos` up to `j`. */
  ghost predicate Bridge(p: Bytes, pos: nat, ls: seq<Bytes>, j: nat)
    decreases |ls|
  {
    if ls == [] then pos == j else
      pos < |p| && 0 < |ls[0]| < 64 && p[pos] as int == |ls[0]| && pos + 1 + |ls[0]| <= |p|
      && p[pos + 1..pos + 1 + |ls[0]|] == ls[0] && Bridge(p, pos + 1 + |ls[0]|, ls[1..], j)
  }

  lemma {:induction false} BridgeEnd(p: Bytes, pos: nat, ls: seq<Bytes>, j: nat, rest: seq<Bytes>)
    requires Bridge(p, pos, ls, j) && EndOf(p, j, rest) > 0
    ensures EndOf(p, pos, ls + rest) == EndOf(p, j, rest)
    decreases |ls|
  {
    if ls == [] {
      assert ls + rest == rest;
    } else {
      assert (ls + rest)[0] == ls[0] && (ls + rest)[1..] == ls[1..] + rest;
      BridgeEnd(p, pos + 1 + |ls[0]|, ls[1..], j, rest);
    }
  }

  lemma {:induction false} BridgeForward(p: Bytes, pos: nat, ls: seq<Bytes>, j: nat)
    requires Bridge(p, pos, ls, j)
    ensures pos <= j
    decreases |ls|
  {
    if ls != [] { BridgeForward(p, pos + 1 + |ls[0]|, ls[1..], j); }
  }

  lemma {:induction false} BridgeSnoc(p: Bytes, q: Bytes, pos: nat, ls: seq<Bytes>, j: nat, l: Bytes)
    requires Bridge(p, pos, ls, j) && j <= |p| && j <= |q| && p[..j] == q[..j]
    requires 0 < |l| < 64 && j + 1 + |l| <= |q| && q[j] as int == |l| && q[j + 1..j + 1 + |l|] == l
    ensures Bridge(q, pos, ls + [l], j + 1 + |l|)
    decreases |ls|
  {
    if ls == [] {
      assert (ls + [l])[0] == l && (ls + [l])[1..] == [];
    } else {
      assert (ls + [l])[0] == ls[0] && (ls + [l])[1..] == ls[1..] + [l];
      var k := pos + 1 + |ls[0]|;
      BridgeForward(p, k, ls[1..], j);
      assert p[pos] == p[..j][pos] == q[pos];
      TakeSlice(p, j, pos + 1, k);
      TakeSlice(q, j, pos + 1, k);
      BridgeSnoc(p, q, k, ls[1..], j, l);
    }
  }

  /** memcpy. */
  method CopyInto(a: array<Byte>, at: nat, data: Bytes)
    requires at + |data| <= a.Length
    modifies a
    ensures a[..at + |data|] == old(a[..at]) + data
    ensures a[at + |data|..] == old(a[at + |data|..])
  {
    forall k | at <= k < at + |data| { a[k] := data[k - at]; }
  }

  // ---- the parser ----

  /** A name has only one list of labels. */
  lemma {:induction false} EndOfUnique(p: Bytes, pos: nat, ls: seq<Bytes>, ms: seq<Bytes>)
    requires EndOf(p, pos, ls) > 0 && EndOf(p, pos, ms) > 0
    ensures ls == ms
    decreases |ls|, pos
  {
    if p[pos] == 0 {
    } else if p[pos] >= 0xc0 {
      EndOfUnique(p, PointerTarget(p, pos), ls, ms);
    } else {
      EndOfUnique(p, pos + 1 + p[pos] as int, ls[1..], ms[1..]);
      assert ls == [ls[0]] + ls[1..] && ms == [ms[0]] + ms[1..];
    }
  }

  /** Where the two bytes at `pos` lead, whatever the upper two bits of the first are. */
  function JumpTarget(p: Bytes, pos: nat): (t: nat)
    requires pos + 1 < |p|
  {
    p[pos] as int % 64 * 256 + p[pos + 1] as int
  }

  /**
   * The labels found from `pos` on by following pointers, forwards or backwards, at most `jumps`
   * times; None where the message ends or a pointer leads out of it.
   */
  ghost function Walk(p: Bytes, pos: nat, jumps: nat): (w: Option<seq<Bytes>>)
    decreases jumps, |p| - pos
  {
    if pos >= |p| then None
    else if p[pos] == 0 then Some([])
    else if p[pos] >= 64 then
      if pos + 1 < |p| && JumpTarget(p, pos) < |p| && jumps > 0 then Walk(p, JumpTarget(p, pos), jumps - 1) else None
    else if pos + 1 + p[pos] as int <= |p| then Ahead([p[pos + 1..pos + 1 + p[pos] as int]], Walk(p, pos + 1 + p[pos] as int, jumps))
    else None
  }

  ghost function Ahead(done: seq<Bytes>, w: Option<seq<Bytes>>): (r: Option<seq<Bytes>>) {
    if w.None? then None else Some(done + w.value)
  }

  /** The index behind the name at `pos`: behind its first pointer or its zero. */
  ghost function EndInPlace(p: Bytes, pos: nat): (e: nat)
    decreases |p| - pos
  {
    if pos >= |p| then 0
    else if p[pos] == 0 then pos + 1
    else if p[pos] >= 64 then pos + 2
    else EndInPlace(p, pos + 1 + p[pos] as int)
  }

  lemma {:induction false} WalkMore(p: Bytes, pos: nat, k: nat, m: nat)
    requires Walk(p, pos, k).Some? && k <= m
    ensures Walk(p, pos, m) == Walk(p, pos, k)
    decreases k, |p| - pos
  {
    if p[pos] >= 64 {
      WalkMore(p, JumpTarget(p, pos), k - 1, m - 1);
    } else if p[pos] > 0 {
      WalkMore(p, pos + 1 + p[pos] as int, k, m);
    }
  }

  /** A walk that needs m jumps makes them from m different places. */
  lemma {:induction false} JumpPlaces(p: Bytes, pos: nat, m: nat) returns (places: set<nat>)
    requires Walk(p, pos, m).Some? && (m > 0 ==> Walk(p, pos, m - 1).None?)
    ensures |places| == m && forall q :: q in places ==> q < |p| && Walk(p, q, m).Some?
    decreases m, |p| - pos
  {
    if m == 0 { return {}; }
    if p[pos] >= 64 {
      var rest := JumpPlaces(p, JumpTarget(p, pos), m - 1);
      forall q | q in rest ensures Walk(p, q, m).Some? { WalkMore(p, q, m - 1, m); }
      assert pos !in rest;
      places := rest + {pos};
    } else {
      places := JumpPlaces(p, pos + 1 + p[pos] as int, m);
    }
  }

  lemma {:induction false} FewestJumps(p: Bytes, pos: nat, k: nat) returns (m: nat)
    requires Walk(p, pos, k).Some?
    ensures m <= k && Walk(p, pos, m).Some? && (m > 0 ==> Walk(p, pos, m - 1).None?)
  {
    hide Walk;
    if k > 0 && Walk(p, pos, k - 1).Some? { m := FewestJumps(p, pos, k - 1); } else { m := k; }
  }

  /** A name that takes more jumps than the message has bytes never ends: refusing it refuses only loops. */
  lemma OnlyLoopsJumpMore(p: Bytes, pos: nat, k: nat)
    requires Walk(p, pos, k).Some?
    ensures Walk(p, pos, |p|) == Walk(p, pos, k)
  {
    hide Walk;
    var m := FewestJumps(p, pos, k);
    var places := JumpPlaces(p, pos, m);
    assert places <= Below(|p|);
    SubsetFew(places, Below(|p|));
    WalkMore(p, pos, m, k);
    WalkMore(p, pos, m, |p|);
  }

  /** Every well-formed name is walked, to its labels and its end. */
  lemma {:induction false} EndOfWalks(p: Bytes, pos: nat, ls: seq<Bytes>, k: nat)
    requires 0 < EndOf(p, pos, ls) <= k
    ensures Walk(p, pos, k) == Some(ls) && EndInPlace(p, pos) == EndOf(p, pos, ls)
    decreases |ls|, pos
  {
    if p[pos] >= 0xc0 {
      assert JumpTarget(p, pos) == PointerTarget(p, pos);
      EndOfWalks(p, PointerTarget(p, pos), ls, k - 1);
    } else if p[pos] > 0 {
      EndOfWalks(p, pos + 1 + p[pos] as int, ls[1..], k);
      assert [ls[0]] + ls[1..] == ls;
    }
  }

  /** What name_parse owes to a message whose name at `idx` is well formed. */
  ghost predicate Parsed(packet: Bytes, idx: nat, ls: seq<Bytes>, out: Bytes, ok: bool, next: nat) {
    EndOf(packet, idx, ls) > 0 && |Dotted(ls)| < |out|
    ==> ok && next == EndOf(packet, idx, ls) && out[..|Dotted(ls)| + 1] == Dotted(ls) + [0]
  }

  /**
   * name_parse: succeeds on exactly the names that end, stay inside the message and fit the output,
   * however their pointers lead; in particular on well-formed ones.
   */
  method NameParse(packet: Bytes, idx: nat, nameOut: array<Byte>) returns (ok: bool, next: nat)
    requires idx <= |packet|
    modifies nameOut
    ensures var w := Walk(packet, idx, |packet|);
      && (ok <==> w.Some? && |Dotted(w.value)| < nameOut.Length)
      && (ok ==> next == EndInPlace(packet, idx) && idx < next <= |packet|)
      && (ok ==> nameOut[..|Dotted(w.value)| + 1] == Dotted(w.value) + [0])
    ensures forall ls :: Parsed(packet, idx, ls, nameOut[..], ok, next)
  {
    ok, next := NameParseLoop(packet, idx, nameOut);
    hide EndOf, Walk, Dotted, EndInPlace;
    forall ls | EndOf(packet, idx, ls) > 0 && |Dotted(ls)| < nameOut.Length
      ensures Parsed(packet, idx, ls, nameOut[..], ok, next)
    {
      EndOfWalks(packet, idx, ls, |packet|);
      var n := |Dotted(ls)| + 1;
      assert nameOut[..][..n] == nameOut[..n];
    }
  }

  /** One label of the name, behind a dot if it is not the first. */
  method AppendLabel(nameOut: array<Byte>, cp0: nat, packet: Bytes, j: nat, labelLen: nat) returns (fits: bool, cp: nat)
    requires cp0 <= nameOut.Length && j <= |packet|
    modifies nameOut
    ensures fits <==> cp0 + (if cp0 == 0 then 0 else 1) + labelLen < nameOut.Length && j + labelLen <= |packet|
    ensures fits ==> cp == cp0 + (if cp0 == 0 then 0 else 1) + labelLen
    ensures fits ==> nameOut[..cp] == old(nameOut[..cp0]) + (if cp0 == 0 then [] else [DOT]) + packet[j..j + labelLen]
  {
    cp := cp0;
    if cp != 0 {
      if cp + 1 >= nameOut.Length { return false, cp; }
      CopyInto(nameOut, cp, [DOT]);
      cp := cp + 1;
    }
    if cp + labelLen >= nameOut.Length { return false, cp; }
    if j + labelLen > |packet| { return false, cp; }
    CopyInto(nameOut, cp, packet[j..j + labelLen]);
    cp := cp + labelLen;
    fits := true;
  }

  /** The loop of name_parse has read `done` and stands at `j`, after `jumps` jumps. */
  ghost predicate Reading(p: Bytes, idx: nat, j: nat, done: seq<Bytes>, jumps: nat) {
    jumps <= |p| && Walk(p, idx, |p|) == Ahead(done, Walk(p, j, |p| - jumps))
  }

  lemma ReadStart(p: Bytes, idx: nat)
    ensures Reading(p, idx, idx, [], 0)
  {
    hide Walk;
    var w := Walk(p, idx, |p|);
    if w.Some? { assert [] + w.value == w.value; }
  }

  lemma ReadJump(p: Bytes, idx: nat, j: nat, done: seq<Bytes>, jumps: nat)
    requires Reading(p, idx, j, done, jumps) && j < |p| && p[j] >= 64
    ensures j + 1 >= |p| || JumpTarget(p, j) >= |p| || jumps == |p| ==> Walk(p, idx, |p|).None?
    ensures j + 1 < |p| && JumpTarget(p, j) < |p| && jumps < |p| ==> Reading(p, idx, JumpTarget(p, j), done, jumps + 1)
  {
  }

  lemma ReadLabel(p: Bytes, idx: nat, j: nat, done: seq<Bytes>, jumps: nat, room: nat)
    requires Reading(p, idx, j, done, jumps) && j < |p| && 0 < p[j] < 64
    ensures var n := p[j] as int;
      if j + 1 + n > |p| then Walk(p, idx, |p|).None?
      else
        && Reading(p, idx, j + 1 + n, done + [p[j + 1..j + 1 + n]], jumps)
        && (|Dotted(done + [p[j + 1..j + 1 + n]])| >= room && Walk(p, idx, |p|).Some? ==> |Dotted(Walk(p, idx, |p|).value)| >= room)
  {
    hide Dotted;
    var n := p[j] as int;
    if j + 1 + n <= |p| {
      var l := p[j + 1..j + 1 + n];
      var w := Walk(p, j + 1 + n, |p| - jumps);
      assert Walk(p, j, |p| - jumps) == Ahead([l], w);
      if w.Some? {
        Assoc(done, [l], w.value);
        DottedPrefix(done + [l], w.value);
      }
    }
  }

  lemma ReadEnd(p: Bytes, idx: nat, j: nat, done: seq<Bytes>, jumps: nat)
    requires Reading(p, idx, j, done, jumps)
    ensures j >= |p| ==> Walk(p, idx, |p|).None?
    ensures j < |p| && p[j] == 0 ==> Walk(p, idx, |p|) == Some(done)
  {
    assert done + [] == done;
  }

  lemma EndInPlaceAt(p: Bytes, j: nat)
    requires j < |p|
    ensures p[j] == 0 ==> EndInPlace(p, j) == j + 1
    ensures p[j] >= 64 ==> EndInPlace(p, j) == j + 2
    ensures 0 < p[j] < 64 ==> EndInPlace(p, j) == EndInPlace(p, j + 1 + p[j] as int)
  {
  }

  method NameParseLoop(packet: Bytes, idx: nat, nameOut: array<Byte>) returns (ok: bool, next: nat)
    requires idx <= |packet|
    modifies nameOut
    ensures var w := Walk(packet, idx, |packet|);
      && (ok <==> w.Some? && |Dotted(w.value)| < nameOut.Length)
      && (ok ==> next == EndInPlace(packet, idx) && idx < next <= |packet|)
      && (ok ==> nameOut[..|Dotted(w.value)| + 1] == Dotted(w.value) + [0])
  {
    hide Dotted, Walk, EndInPlace, Reading;
    ReadStart(packet, idx);
    var nameEnd: int := -1;
    var j: nat := idx;
    var ptrCount: nat := 0;
    var cp: nat := 0;
    ghost var done: seq<Bytes> := [];
    assert Dotted(done) == [] by { DottedEmpty(done); }
    while true
      invariant j <= |packet| && ptrCount <= |packet|
      invariant if nameEnd < 0 then idx <= j else idx < nameEnd <= |packet|
      invariant cp <= nameOut.Length && nameOut[..cp] == Dotted(done)
      invariant cp > 0 <==> done != []
      invariant Reading(packet, idx, j, done, ptrCount)
      invariant EndInPlace(packet, idx) == if nameEnd < 0 then EndInPlace(packet, j) else nameEnd
      decreases |packet| - ptrCount, |packet| - j
    {
      ReadEnd(packet, idx, j, done, ptrCount);
      if j >= |packet| { return false, idx; }
      EndInPlaceAt(packet, j);
      var labelLen := packet[j] as int;
      j := j + 1;
      if labelLen == 0 { break; }
      if labelLen >= 64 {
        ReadJump(packet, idx, j - 1, done, ptrCount);
        if j >= |packet| { return false, idx; }
        var low := packet[j] as int;
        j := j + 1;
        nameEnd := if nameEnd < 0 then j else nameEnd;
        j := labelLen % 64 * 256 + low;
        if j >= |packet| { return false, idx; }
        ptrCount := ptrCount + 1;
        if ptrCount > |packet| { return false, idx; }
        continue;
      }
      ReadLabel(packet, idx, j - 1, done, ptrCount, nameOut.Length);
      ghost var piece := if j + labelLen <= |packet| then packet[j..j + labelLen] else [];
      DottedSnoc(done, piece);
      var fits;
      fits, cp := AppendLabel(nameOut, cp, packet, j, labelLen);
      if !fits { return false, idx; }
      j := j + labelLen;
      done := done + [piece];
    }
    if cp >= nameOut.Length { return false, idx; }
    CopyInto(nameOut, cp, [0]);
    return true, if nameEnd < 0 then j else nameEnd;
  }

  // ---- the table of suffixes ----

  datatype Entry = Entry(suffix: Bytes, pos: nat)

  ghost predicate Has(labels: seq<Entry>, s: Bytes) {
    exists i :: 0 <= i < |labels| && labels[i].suffix == s
  }

  /** The name an entry stands for is complete in message `p`. */
  ghost predicate Stored(e: Entry, p: Bytes) {
    EndOf(p, e.pos, Stem(e.suffix)) > 0
  }

  ghost predicate TableOk(labels: seq<Entry>, p: Bytes) {
    forall i :: 0 <= i < |labels| ==> Stored(labels[i], p)
  }

  class LabelTable {
    var labels: seq<Entry>

    constructor ()
      ensures labels == []
    {
      labels := [];
    }

    /** dnslabel_table_get_pos. */
    method GetPos(s: Bytes) returns (r: int)
      ensures r < 0 <==> !Has(labels, s)
      ensures r >= 0 ==> Entry(s, r) in labels
    {
      for i := 0 to |labels|
        invariant forall k :: 0 <= k < i ==> labels[k].suffix != s
      {
        if labels[i].suffix == s {
          assert labels[i] == Entry(s, labels[i].pos);
          return labels[i].pos;
        }
      }
      return -1;
    }

    /** dnslabel_table_add; a full table forgets the suffix. */
    method Add(s: Bytes, pos: nat)
      modifies this
      ensures labels == if |old(labels)| == 128 then old(labels) else old(labels) + [Entry(s, pos)]
    {
      if |labels| == MAX_LABELS { return; }
      labels := labels + [Entry(s, pos)];
    }
  }

  // ---- the printer ----

  /** No label but the last is empty. */
  ghost predicate NoInnerEmpty(s: Bytes) {
    var d := FirstDot(s);
    d == |s| || (0 < d && NoInnerEmpty(s[d + 1..]))
  }

  /** A label of more than 63 bytes comes before the first suffix that the table has. */
  ghost predicate LongSpelled(labels: seq<Entry>, s: Bytes) {
    var d := FirstDot(s);
    !Has(labels, s) && (d > 63 || (d < |s| && LongSpelled(labels, s[d + 1..])))
  }

  /** The name ends in a non-empty label that no pointer replaces, so a zero has to follow. */
  ghost predicate EndsSpelled(labels: seq<Entry>, s: Bytes) {
    var d := FirstDot(s);
    !Has(labels, s) && if d == |s| then d > 0 else EndsSpelled(labels, s[d + 1..])
  }

  /** The bytes a name takes when every suffix in the table is replaced by a pointer. */
  ghost function PackedLen(labels: seq<Entry>, s: Bytes): (n: nat)
    ensures 1 <= n <= |s| + 2
  {
    var d := FirstDot(s);
    if Has(labels, s) then 2
    else if d == |s| then (if d == 0 then 1 else d + 2)
    else d + 1 + PackedLen(labels, s[d + 1..])
  }

  /** The bytes that are compared with the buffer's length before they are written: all but that final zero. */
  ghost function CheckedLen(labels: seq<Entry>, s: Bytes): (n: int) {
    PackedLen(labels, s) - if EndsSpelled(labels, s) then 1 else 0
  }

  /** A label that is long with a table is long without one. */
  lemma {:induction false} LongAnyway(labels: seq<Entry>, s: Bytes)
    requires LongSpelled(labels, s)
    ensures LongSpelled([], s)
  {
    if FirstDot(s) <= 63 { LongAnyway(labels, s[FirstDot(s) + 1..]); }
  }

  /** Only plain labels were written since the entry, and the text `s` is still to be written after them. */
  ghost predicate Pending(e: Entry, p: Bytes, s: Bytes) {
    exists ls :: Bridge(p, e.pos, ls, |p|) && Stem(e.suffix) == ls + Stem(s)
  }

  ghost predicate Settled(e: Entry, p: Bytes, s: Bytes) {
    Stored(e, p) || Pending(e, p, s)
  }

  lemma StoredLater(e: Entry, p: Bytes, q: Bytes)
    requires Stored(e, p) && p <= q
    ensures Stored(e, q) && EndOf(q, e.pos, Stem(e.suffix)) == EndOf(p, e.pos, Stem(e.suffix))
  {
    var n := EndOf(p, e.pos, Stem(e.suffix));
    assert q[..n] == q[..|p|][..n] == p[..n];
    EndOfLocal(p, q, e.pos, Stem(e.suffix));
  }

  /** The text after the first label and its dot. */
  ghost function After(s: Bytes): (t: Bytes) {
    var d := FirstDot(s);
    if d == |s| then [] else s[d + 1..]
  }

  lemma StemStep(s: Bytes)
    requires FirstDot(s) > 0
    ensures Stem(s) == [s[..FirstDot(s)]] + Stem(After(s))
  {
    if FirstDot(s) == |s| { assert s[..|s|] == s && Stem(After(s)) == []; }
  }

  lemma WriteLabel(e: Entry, p: Bytes, q: Bytes, s: Bytes)
    requires 0 < FirstDot(s) < 64
    requires q == p + [FirstDot(s) as Byte] + s[..FirstDot(s)]
    ensures Settled(e, p, s) ==> Settled(e, q, After(s))
    ensures Pending(e, p, s) ==> Pending(e, q, After(s))
  {
    hide EndOf, Bridge, Stem;
    var d := FirstDot(s);
    if Stored(e, p) { StoredLater(e, p, q); }
    if Pending(e, p, s) {
      var ls :| Bridge(p, e.pos, ls, |p|) && Stem(e.suffix) == ls + Stem(s);
      BridgeSnoc(p, q, e.pos, ls, |p|, s[..d]);
      StemStep(s);
      assert ls + Stem(s) == (ls + [s[..d]]) + Stem(After(s));
    }
  }

  /** Ending the name with `tail`, which reads as the labels of `s`, completes every entry. */
  lemma Finish(e: Entry, p: Bytes, q: Bytes, s: Bytes)
    requires p <= q && 0 < EndOf(q, |p|, Stem(s)) == |q|
    ensures Settled(e, p, s) ==> Stored(e, q)
    ensures Pending(e, p, s) ==> EndOf(q, e.pos, Stem(e.suffix)) == |q|
  {
    hide EndOf, Bridge, Stem;
    if Stored(e, p) { StoredLater(e, p, q); }
    if Pending(e, p, s) {
      var ls :| Bridge(p, e.pos, ls, |p|) && Stem(e.suffix) == ls + Stem(s);
      BridgeExtend(p, q, e.pos, ls, |p|);
      BridgeEnd(q, e.pos, ls, |p|, Stem(s));
    }
  }

  lemma {:induction false} BridgeExtend(p: Bytes, q: Bytes, pos: nat, ls: seq<Bytes>, j: nat)
    requires Bridge(p, pos, ls, j) && p <= q
    ensures Bridge(q, pos, ls, j)
    decreases |ls|
  {
    if ls != [] {
      var k := pos + 1 + |ls[0]|;
      assert p == q[..|p|];
      assert p[pos + 1..k] == q[pos + 1..k];
      BridgeExtend(p, q, k, ls[1..], j);
    }
  }

  lemma ZeroEnds(p: Bytes, s: Bytes)
    requires FirstDot(s) == 0
    ensures EndOf(p + [0], |p|, Stem(s)) == |p| + 1
  {
  }

  lemma PointerEnds(p: Bytes, t: nat, s: Bytes)
    requires EndOf(p, t, Stem(s)) > 0 && t < 0x4000
    ensures EndOf(p + [(0xc0 + t / 256) as Byte, (t % 256) as Byte], |p|, Stem(s)) == |p| + 2
  {
    var q := p + [(0xc0 + t / 256) as Byte, (t % 256) as Byte];
    StoredLater(Entry(s, t), p, q);
    assert PointerTarget(q, |p|) == t;
  }

  /** Between two labels: entries from before the call are complete, the others wait for the text `s`. */
  ghost predicate Going(labels: seq<Entry>, n0: nat, p: Bytes, s: Bytes) {
    n0 <= |labels| && TableOk(labels[..n0], p) && forall i :: n0 <= i < |labels| ==> Settled(labels[i], p, s)
  }

  ghost predicate Longer(labels: seq<Entry>, n0: nat, s: Bytes) {
    forall i :: n0 <= i < |labels| ==> |labels[i].suffix| > |s|
  }

  lemma GoingLabel(labels: seq<Entry>, n0: nat, p: Bytes, q: Bytes, s: Bytes)
    requires Going(labels, n0, p, s) && FirstDot(s) < 64
    requires q == p + [FirstDot(s) as Byte] + s[..FirstDot(s)]
    ensures Going(labels, n0, q, After(s))
  {
    hide EndOf, Stem, Stored, Pending;
    forall i | 0 <= i < n0 ensures Stored(labels[i], q) {
      assert Stored(labels[..n0][i], p);
      StoredLater(labels[i], p, q);
    }
    forall i | n0 <= i < |labels| ensures Settled(labels[i], q, After(s)) {
      if FirstDot(s) > 0 { WriteLabel(labels[i], p, q, s); } else { ZeroFinish(labels[i], p, q, s); }
    }
  }

  lemma ZeroFinish(e: Entry, p: Bytes, q: Bytes, s: Bytes)
    requires FirstDot(s) == 0 && q == p + [0]
    ensures Settled(e, p, s) ==> Stored(e, q)
    ensures Pending(e, p, s) ==> EndOf(q, e.pos, Stem(e.suffix)) == |q|
  {
    ZeroEnds(p, s);
    assert q[..|p|] == p;
    Finish(e, p, q, s);
  }

  lemma GoingEnds(labels: seq<Entry>, n0: nat, p: Bytes, q: Bytes, s: Bytes)
    requires Going(labels, n0, p, s) && p <= q && 0 < EndOf(q, |p|, Stem(s)) == |q|
    ensures TableOk(labels, q)
  {
    hide EndOf, Stem, Stored, Pending;
    forall i | 0 <= i < |labels| ensures Stored(labels[i], q) {
      if i < n0 {
        assert Stored(labels[..n0][i], p);
        StoredLater(labels[i], p, q);
      } else {
        Finish(labels[i], p, q, s);
      }
    }
  }

  lemma PendingHere(p: Bytes, s: Bytes)
    ensures Pending(Entry(s, |p|), p, s)
  {
    assert Bridge(p, |p|, [], |p|) && Stem(s) == [] + Stem(s);
  }

  lemma GoingAdd(labels: seq<Entry>, n0: nat, p: Bytes, s: Bytes)
    requires Going(labels, n0, p, s)
    ensures Going(labels + [Entry(s, |p|)], n0, p, s)
  {
    PendingHere(p, s);
    assert (labels + [Entry(s, |p|)])[..n0] == labels[..n0];
  }

  ghost function Labels(table: LabelTable?): (ls: seq<Entry>)
    reads table
  {
    if table == null then [] else table.labels
  }

  /** One turn of the loop of dnsname_to_labels that spells the first label of `s` out. */
  method SpellLabel(buf: array<Byte>, bufLen: nat, j: nat, s: Bytes, table: LabelTable?, ghost n0: nat) returns (r: int)
    requires j <= bufLen <= buf.Length
    requires Going(Labels(table), n0, buf[..j], s) && Longer(Labels(table), n0, s)
    modifies buf, table
    ensures old(Labels(table)) <= Labels(table)
    ensures r >= 0 && table != null && |table.labels| < MAX_LABELS ==> Has(table.labels, s)
    ensures |Labels(table)| <= |old(Labels(table))| + 1
    ensures r < 0 ==> r == (if FirstDot(s) > 63 then -1 else -2)
    ensures r == -2 <==> FirstDot(s) <= 63 && j + FirstDot(s) + 1 > bufLen
    ensures r >= 0 ==> r == j + FirstDot(s) + 1 <= bufLen && FirstDot(s) < 64
    ensures r >= 0 ==> buf[..r] == old(buf[..j]) + [FirstDot(s) as Byte] + s[..FirstDot(s)]
    ensures r >= 0 ==> Going(Labels(table), n0, old(buf[..j]), s) && Going(Labels(table), n0, buf[..r], After(s))
    ensures r >= 0 && s != [] ==> Longer(Labels(table), n0, After(s))
  {
    hide Settled, TableOk;
    var labelLen := FirstDot(s);
    if labelLen > 63 { return -1; }
    if j + labelLen + 1 > bufLen { return -2; }
    ghost var p := buf[..j];
    GoingAdd(Labels(table), n0, p, s);
    if table != null {
      table.Add(s, j);
      assert |table.labels| < MAX_LABELS ==> table.labels[|table.labels| - 1].suffix == s;
    }
    CopyInto(buf, j, [labelLen as Byte]);
    CopyInto(buf, j + 1, s[..labelLen]);
    r := j + 1 + labelLen;
    GoingLabel(Labels(table), n0, p, buf[..r], s);
  }

  /** The name itself, written from `start`: settled, and exactly pending if no inner label is empty. */
  ghost predicate OnTrack(name: Bytes, start: nat, p: Bytes, s: Bytes) {
    && Settled(Entry(name, start), p, s)
    && (NoInnerEmpty(name) ==> NoInnerEmpty(s) && Pending(Entry(name, start), p, s))
  }

  lemma OnTrackLabel(name: Bytes, start: nat, p: Bytes, q: Bytes, s: Bytes)
    requires OnTrack(name, start, p, s) && FirstDot(s) < 64 && s != []
    requires q == p + [FirstDot(s) as Byte] + s[..FirstDot(s)]
    ensures OnTrack(name, start, q, After(s))
  {
    hide EndOf, Stem, Stored, Pending;
    if FirstDot(s) > 0 {
      WriteLabel(Entry(name, start), p, q, s);
    } else {
      ZeroFinish(Entry(name, start), p, q, s);
    }
  }

  /** What a successful call of dnsname_to_labels leaves in the message. */
  ghost predicate Printed(name: Bytes, start: nat, q: Bytes, labels: seq<Entry>) {
    && EndOf(q, start, Stem(name)) > 0
    && (NoInnerEmpty(name) ==> EndOf(q, start, Stem(name)) == |q|)
    && TableOk(labels, q)
  }

  lemma PrintedBy(name: Bytes, start: nat, p: Bytes, q: Bytes, s: Bytes, labels: seq<Entry>, n0: nat)
    requires OnTrack(name, start, p, s) && Going(labels, n0, p, s)
    requires p <= q && 0 < EndOf(q, |p|, Stem(s)) == |q|
    ensures Printed(name, start, q, labels)
  {
    hide EndOf, Stem, Pending;
    Finish(Entry(name, start), p, q, s);
    GoingEnds(labels, n0, p, q, s);
  }

  /** A suffix still to be written can only match an entry from before the call. */
  lemma FoundBefore(labels: seq<Entry>, n0: nat, p: Bytes, s: Bytes)
    requires Going(labels, n0, p, s) && Longer(labels, n0, s)
    ensures Has(labels, s) <==> Has(labels[..n0], s)
    ensures forall r: nat :: Entry(s, r) in labels ==> EndOf(p, r, Stem(s)) > 0
  {
    forall r: nat | Entry(s, r) in labels ensures EndOf(p, r, Stem(s)) > 0 {
      var i :| 0 <= i < |labels| && labels[i] == Entry(s, r);
      assert i < n0;
      assert Stored(labels[..n0][i], p);
    }
    if Has(labels, s) {
      var i :| 0 <= i < |labels| && labels[i].suffix == s;
      assert labels[..n0][i].suffix == s;
    }
    if Has(labels[..n0], s) {
      var i :| 0 <= i < n0 && labels[..n0][i].suffix == s;
      assert labels[i].suffix == s;
    }
  }

  lemma LastLabel(name: Bytes, start: nat, p: Bytes, q: Bytes, s: Bytes, labels: seq<Entry>, n0: nat)
    requires OnTrack(name, start, p, s) && Going(labels, n0, p, s)
    requires FirstDot(s) == |s| < 64 && q == p + [|s| as Byte] + s
    ensures Printed(name, start, if s == [] then q else q + [0], labels)
  {
    hide OnTrack, Going, Printed, EndOf, Stem;
    if s == [] {
      assert q == p + [0];
      ZeroEnds(p, s);
      PrintedBy(name, start, p, q, s, labels, n0);
    } else {
      assert s[..|s|] == s;
      GoingLabel(labels, n0, p, q, s);
      OnTrackLabel(name, start, p, q, s);
      ZeroEnds(q, []);
      PrintedBy(name, start, q, q + [0], [], labels, n0);
    }
  }

  lemma PointerLabel(name: Bytes, start: nat, p: Bytes, t: nat, s: Bytes, labels: seq<Entry>, n0: nat)
    requires OnTrack(name, start, p, s) && Going(labels, n0, p, s) && Longer(labels, n0, s)
    requires Entry(s, t) in labels && |p| <= 0x4000
    ensures t < 0x4000 && Printed(name, start, p + [(0xc0 + t / 256) as Byte, (t % 256) as Byte], labels)
  {
    hide OnTrack, Going, Longer, Printed, Stem;
    FoundBefore(labels, n0, p, s);
    PointerEnds(p, t, s);
    PrintedBy(name, start, p, p + [(0xc0 + t / 256) as Byte, (t % 256) as Byte], s, labels, n0);
  }

  lemma GoingStart(labels: seq<Entry>, p: Bytes, name: Bytes)
    requires TableOk(labels, p)
    ensures Going(labels, |labels|, p, name) && Longer(labels, |labels|, name) && OnTrack(name, |p|, p, name)
  {
    assert labels[..|labels|] == labels;
    PendingHere(p, name);
  }

  /** The terminator, which an empty last label has already written. */
  method EndName(buf: array<Byte>, j: nat, ghost s: Bytes, ghost p: Bytes, ghost name: Bytes, ghost j0: nat,
                 ghost labels: seq<Entry>, ghost n0: nat) returns (r: nat)
    requires j <= buf.Length && (s != [] ==> j < buf.Length) && 0 !in s
    requires OnTrack(name, j0, p, s) && Going(labels, n0, p, s)
    requires FirstDot(s) == |s| < 64 && buf[..j] == p + [|s| as Byte] + s
    modifies buf
    ensures r <= buf.Length && r == if s == [] then j else j + 1
    ensures p <= buf[..r] && Printed(name, j0, buf[..r], labels)
  {
    hide Going, OnTrack, Printed, FirstDot;
    ghost var q := buf[..j];
    LastLabel(name, j0, p, q, s, labels, n0);
    r := j;
    assert buf[j - 1] == q[j - 1] == if s == [] then 0 else s[|s| - 1];
    if j == 0 || buf[j - 1] != 0 {
      CopyInto(buf, j, [0]);
      r := j + 1;
    }
  }

  method WritePointer(buf: array<Byte>, bufLen: nat, j: nat, table: LabelTable, s: Bytes, ref: nat,
                      ghost name: Bytes, ghost j0: nat, ghost n0: nat) returns (r: int)
    requires j <= bufLen <= buf.Length && bufLen <= 0x4000
    requires Going(table.labels, n0, buf[..j], s) && Longer(table.labels, n0, s) && OnTrack(name, j0, buf[..j], s)
    requires Entry(s, ref) in table.labels
    modifies buf
    ensures r == if j + 2 > bufLen then -2 else j + 2
    ensures r >= 0 ==> old(buf[..j]) <= buf[..r] && Printed(name, j0, buf[..r], table.labels)
  {
    hide Going, Longer, OnTrack, Printed;
    if j + 2 > bufLen { return -2; }
    PointerLabel(name, j0, buf[..j], ref, s, table.labels, n0);
    CopyInto(buf, j, [(0xc0 + ref / 256) as Byte, (ref % 256) as Byte]);
    return j + 2;
  }

  lemma {:induction false} TextStep(labels: seq<Entry>, s: Bytes)
    ensures Has(labels, s) ==> labels != [] && PackedLen(labels, s) == 2 && !LongSpelled(labels, s) && !EndsSpelled(labels, s)
    ensures !Has(labels, s) && FirstDot(s) > 63 ==> LongSpelled(labels, s)
    ensures !Has(labels, s) && FirstDot(s) == |s| ==>
      && PackedLen(labels, s) == (if s == [] then 1 else |s| + 2)
      && (LongSpelled(labels, s) <==> FirstDot(s) > 63) && (EndsSpelled(labels, s) <==> s != [])
    ensures !Has(labels, s) && FirstDot(s) < |s| ==>
      var t := s[FirstDot(s) + 1..];
      && PackedLen(labels, s) == FirstDot(s) + 1 + PackedLen(labels, t)
      && (FirstDot(s) <= 63 ==> (LongSpelled(labels, s) <==> LongSpelled(labels, t)))
      && (EndsSpelled(labels, s) <==> EndsSpelled(labels, t))
  {
    hide FirstDot;
  }

  lemma {:induction false} CheckedSome(labels: seq<Entry>, s: Bytes)
    ensures CheckedLen(labels, s) >= 1
    ensures !Has(labels, s) ==> CheckedLen(labels, s) >= FirstDot(s) + 1
  {
    if !Has(labels, s) && FirstDot(s) < |s| { CheckedSome(labels, s[FirstDot(s) + 1..]); }
  }

  /** From `s` on, the table has every suffix up to the first that was already in `before`. */
  ghost predicate AllIn(before: seq<Entry>, labels: seq<Entry>, s: Bytes) {
    Has(labels, s) && (Has(before, s) || FirstDot(s) == |s| || AllIn(before, labels, s[FirstDot(s) + 1..]))
  }

  /** The same, up to the suffix `t`. */
  ghost predicate InUpTo(labels: seq<Entry>, s: Bytes, t: Bytes) {
    s == t || (Has(labels, s) && FirstDot(s) < |s| && InUpTo(labels, s[FirstDot(s) + 1..], t))
  }

  lemma InUpToSelf(labels: seq<Entry>, s: Bytes)
    ensures InUpTo(labels, s, s)
  {
  }

  lemma {:induction false} InUpToNext(a: seq<Entry>, b: seq<Entry>, s: Bytes, t: Bytes)
    requires a <= b && InUpTo(a, s, t) && Has(b, t) && FirstDot(t) < |t|
    ensures InUpTo(b, s, t[FirstDot(t) + 1..])
  {
    if s != t {
      HasMore(a, b, s);
      InUpToNext(a, b, s[FirstDot(s) + 1..], t);
    } else {
      assert InUpTo(b, t[FirstDot(t) + 1..], t[FirstDot(t) + 1..]);
    }
  }

  lemma {:induction false} InToTheEnd(before: seq<Entry>, a: seq<Entry>, b: seq<Entry>, s: Bytes, t: Bytes)
    requires a <= b && InUpTo(a, s, t) && Has(b, t) && (Has(before, t) || FirstDot(t) == |t|)
    ensures AllIn(before, b, s)
  {
    if s != t {
      HasMore(a, b, s);
      InToTheEnd(before, a, b, s[FirstDot(s) + 1..], t);
    }
  }

  lemma HasMore(a: seq<Entry>, b: seq<Entry>, s: Bytes)
    requires a <= b && Has(a, s)
    ensures Has(b, s)
  {
    var i :| 0 <= i < |a| && a[i].suffix == s;
    assert b[i].suffix == s;
  }

  /** The answer of the model where the source writes behind its array, and answers one more than the length. */
  const OUTSIDE: int := -3

  /** The final zero of the name belongs behind the array. */
  ghost predicate Beyond(size: nat, bufLen: nat, j0: nat, labels: seq<Entry>, name: Bytes) {
    bufLen == size && EndsSpelled(labels, name) && j0 + PackedLen(labels, name) == bufLen + 1
  }

  /** dnsname_to_labels. The final zero is written without looking at `bufLen`. */
  method ToLabels(buf: array<Byte>, bufLen: nat, j0: nat, name: Bytes, table: LabelTable?) returns (r: int)
    requires j0 <= bufLen <= buf.Length
    requires 0 !in name
    requires table != null ==> bufLen <= 0x4000
    requires TableOk(Labels(table), buf[..j0])
    modifies buf, table
    ensures old(Labels(table)) <= Labels(table) && |Labels(table)| <= |old(Labels(table))| + |name| + 1
    ensures r >= 0 || r == OUTSIDE <==>
      |name| <= 255 && !LongSpelled(old(Labels(table)), name) && j0 + CheckedLen(old(Labels(table)), name) <= bufLen
    ensures r >= 0 || r == OUTSIDE ==> (r == OUTSIDE <==> Beyond(buf.Length, bufLen, j0, old(Labels(table)), name))
    ensures r < 0 ==> r == -1 || r == -2 || r == OUTSIDE
    ensures r == -1 ==> LongSpelled(old(Labels(table)), name)
    ensures r == -2 ==> |name| > 255 || j0 + CheckedLen(old(Labels(table)), name) > bufLen
    ensures r >= 0 ==> j0 < r <= buf.Length && r == j0 + PackedLen(old(Labels(table)), name)
    ensures r >= 0 ==> (r > bufLen <==> EndsSpelled(old(Labels(table)), name) && r == bufLen + 1)
    ensures r >= 0 ==> old(buf[..j0]) <= buf[..r] && Printed(name, j0, buf[..r], Labels(table))
    ensures r >= 0 && table != null && |table.labels| < 128 ==> AllIn(old(Labels(table)), table.labels, name)
  {
    hide Going, Longer, OnTrack, Printed, EndOf, Stem, TableOk, LongSpelled, EndsSpelled, PackedLen, Has, Settled, Pending, FirstDot, AllIn, InUpTo;
    if |name| > 255 { return -2; }
    ghost var labels0 := Labels(table);
    ghost var n0 := |labels0|;
    var s := name;
    var j := j0;
    GoingStart(labels0, buf[..j], name);
    assert InUpTo(Labels(table), name, name) by { InUpToSelf(Labels(table), name); }
    while true
      invariant j0 <= j <= bufLen
      invariant 0 !in s && |s| <= |name| && |Labels(table)| + |s| <= n0 + |name|
      invariant old(buf[..j0]) <= buf[..j]
      invariant labels0 <= Labels(table)
      invariant Going(Labels(table), n0, buf[..j], s) && Longer(Labels(table), n0, s) && OnTrack(name, j0, buf[..j], s)
      invariant j + PackedLen(labels0, s) == j0 + PackedLen(labels0, name)
      invariant (LongSpelled(labels0, s) <==> LongSpelled(labels0, name)) && (EndsSpelled(labels0, s) <==> EndsSpelled(labels0, name))
      invariant table != null && |table.labels| < MAX_LABELS ==> InUpTo(table.labels, name, s)
      decreases |s|
    {
      FoundBefore(Labels(table), n0, buf[..j], s);
      TextStep(labels0, s);
      CheckedSome(labels0, s);
      assert Labels(table)[..n0] == labels0;
      if table != null {
        var ref := table.GetPos(s);
        if ref >= 0 {
          if |table.labels| < MAX_LABELS { InToTheEnd(labels0, table.labels, table.labels, name, s); }
          r := WritePointer(buf, bufLen, j, table, s, ref, name, j0, n0);
          return;
        }
      }
      ghost var p := buf[..j];
      ghost var labels1 := Labels(table);
      r := SpellLabel(buf, bufLen, j, s, table, n0);
      if r < 0 { return; }
      if table != null && |table.labels| < MAX_LABELS {
        if FirstDot(s) == |s| { InToTheEnd(labels0, labels1, table.labels, name, s); } else { InUpToNext(labels1, table.labels, name, s); }
      }
      if FirstDot(s) == |s| {
        assert s[..|s|] == s;
        if s != [] && r == buf.Length { return OUTSIDE; }
        r := EndName(buf, r, s, p, name, j0, Labels(table), n0);
        return;
      }
      OnTrackLabel(name, j0, p, buf[..r], s);
      j := r;
      s := s[FirstDot(s) + 1..];
    }
  }

  /** The call that leaves its buffer: with two bytes announced, the name "a" takes three. */
  method ZeroBeyond() returns (r: int, bufLen: nat)
    ensures bufLen == 2 && r == bufLen + 1
  {
    bufLen := 2;
    var buf := new Byte[3](_ => 0);
    var name: Bytes := [97];
    assert FirstDot(name[1..]) == 0 && FirstDot(name) == 1;
    TextStep([], name);
    assert TableOk([], buf[..0]);
    r := ToLabels(buf, bufLen, 0, name, null);
  }
}
