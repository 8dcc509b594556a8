/**
 * The epoll backend's translation of a change of interest in one file descriptor
 * into kernel calls: the table of epolltable-internal.h, and epoll.c.
 */
module Epoll {

  /** A set of event kinds: EV_READ, EV_WRITE and EV_CLOSED, or EPOLLIN, EPOLLOUT and EPOLLRDHUP. */
  datatype Kinds = Kinds(read: bool, write: bool, close: bool)

  const NONE := Kinds(false, false, false)
  const R := Kinds(true, false, false)
  const W := Kinds(false, true, false)
  const C := Kinds(false, false, true)
  const RW := Kinds(true, true, false)
  const RC := Kinds(true, false, true)
  const WC := Kinds(false, true, true)
  const RWC := Kinds(true, true, true)

  /** EV_CHANGE_ADD is bit 0 and EV_CHANGE_DEL bit 1 of a change. */
  type Code = n: nat | n < 4

  const ADD: Code := 1
  const DEL: Code := 2

  /** struct event_change, without the edge-trigger flag. */
  datatype Change = Change(fd: int, was: Kinds, read: Code, write: Code, close: Code)

  datatype Operation = Skip | Xxx | Add(events: Kinds) | Mod(events: Kinds) | Del(events: Kinds)

  /** EPOLL_OP_TABLE_INDEX: bits 0-1 close, 2-3 read, 4-5 write, 6 old read, 7 old write, 8 old close. */
  function Index(c: Change): (i: nat)
    ensures i < 512
  {
    c.close + 4 * c.read + 16 * c.write
    + (if c.was.read then 64 else 0) + (if c.was.write then 128 else 0) + (if c.was.close then 256 else 0)
  }

  datatype Four<T> = Four(zero: T, one: T, two: T, three: T) {
    function At(i: Code): (t: T) {
      if i == 0 then zero else if i == 1 then one else if i == 2 then two else three
    }
  }

  /** Rows of the table, sixteen at a time: the column is the read and close change, the row the rest. */
  function TableRow(row: nat): (ops: Four<Four<Operation>>)
    requires row < 32
  {
    match row
      // old events: none
      case 0 => Four(Four(Skip, Add(C), Del(C), Xxx), Four(Add(R), Add(RC), Add(R), Xxx), Four(Del(R), Add(C), Del(RC), Xxx), Four(Xxx, Xxx, Xxx, Xxx))
      case 1 => Four(Four(Add(W), Add(WC), Add(W), Xxx), Four(Add(RW), Add(RWC), Add(RW), Xxx), Four(Add(W), Add(WC), Add(W), Xxx), Four(Xxx, Xxx, Xxx, Xxx))
      case 2 => Four(Four(Del(W), Add(C), Del(WC), Xxx), Four(Add(R), Add(RC), Add(R), Xxx), Four(Del(RW), Add(C), Del(RWC), Xxx), Four(Xxx, Xxx, Xxx, Xxx))
      case 3 => Four(Four(Xxx, Xxx, Xxx, Xxx), Four(Xxx, Xxx, Xxx, Xxx), Four(Xxx, Xxx, Xxx, Xxx), Four(Xxx, Xxx, Xxx, Xxx))
      // old events: read
      case 4 => Four(Four(Skip, Mod(RC), Mod(R), Xxx), Four(Mod(R), Mod(RC), Mod(R), Xxx), Four(Del(R), Mod(C), Del(RC), Xxx), Four(Xxx, Xxx, Xxx, Xxx))
      case 5 => Four(Four(Mod(RW), Mod(RWC), Mod(RW), Xxx), Four(Mod(RW), Mod(RWC), Mod(RW), Xxx), Four(Mod(W), Mod(WC), Mod(W), Xxx), Four(Xxx, Xxx, Xxx, Xxx))
      case 6 => Four(Four(Mod(R), Mod(RC), Mod(R), Xxx), Four(Mod(R), Mod(RC), Mod(R), Xxx), Four(Del(RW), Mod(C), Del(RWC), Xxx), Four(Xxx, Xxx, Xxx, Xxx))
      case 7 => Four(Four(Xxx, Xxx, Xxx, Xxx), Four(Xxx, Xxx, Xxx, Xxx), Four(Xxx, Xxx, Xxx, Xxx), Four(Xxx, Xxx, Xxx, Xxx))
      // old events: write
      case 8 => Four(Four(Skip, Mod(WC), Mod(W), Xxx), Four(Mod(RW), Mod(RWC), Mod(RW), Xxx), Four(Mod(W), Mod(WC), Mod(W), Xxx), Four(Xxx, Xxx, Xxx, Xxx))
      case 9 => Four(Four(Mod(W), Mod(WC), Mod(W), Xxx), Four(Mod(RW), Mod(RWC), Mod(RW), Xxx), Four(Mod(W), Mod(WC), Mod(W), Xxx), Four(Xxx, Xxx, Xxx, Xxx))
      case 10 => Four(Four(Del(W), Mod(C), Del(WC), Xxx), Four(Mod(R), Mod(RC), Mod(R), Xxx), Four(Del(RW), Mod(C), Del(RWC), Xxx), Four(Xxx, Xxx, Xxx, Xxx))
      case 11 => Four(Four(Xxx, Xxx, Xxx, Xxx), Four(Xxx, Xxx, Xxx, Xxx), Four(Xxx, Xxx, Xxx, Xxx), Four(Xxx, Xxx, Xxx, Xxx))
      // old events: read and write
      case 12 => Four(Four(Skip, Mod(RWC), Mod(RW), Xxx), Four(Mod(RW), Mod(RWC), Mod(RW), Xxx), Four(Mod(W), Mod(WC), Mod(W), Xxx), Four(Xxx, Xxx, Xxx, Xxx))
      case 13 => Four(Four(Mod(RW), Mod(RWC), Mod(RW), Xxx), Four(Mod(RW), Mod(RWC), Mod(RW), Xxx), Four(Mod(W), Mod(WC), Mod(W), Xxx), Four(Xxx, Xxx, Xxx, Xxx))
      case 14 => Four(Four(Mod(R), Mod(RC), Mod(R), Xxx), Four(Mod(R), Mod(RC), Mod(R), Xxx), Four(Del(RW), Mod(C), Del(RWC), Xxx), Four(Xxx, Xxx, Xxx, Xxx))
      case 15 => Four(Four(Xxx, Xxx, Xxx, Xxx), Four(Xxx, Xxx, Xxx, Xxx), Four(Xxx, Xxx, Xxx, Xxx), Four(Xxx, Xxx, Xxx, Xxx))
      // old events: close
      case 16 => Four(Four(Skip, Mod(C), Del(C), Xxx), Four(Mod(RC), Mod(RC), Mod(R), Xxx), Four(Mod(C), Mod(C), Del(RC), Xxx), Four(Xxx, Xxx, Xxx, Xxx))
      case 17 => Four(Four(Mod(WC), Mod(WC), Mod(W), Xxx), Four(Mod(RWC), Mod(RWC), Mod(RW), Xxx), Four(Mod(WC), Mod(WC), Mod(W), Xxx), Four(Xxx, Xxx, Xxx, Xxx))
      case 18 => Four(Four(Mod(C), Mod(C), Del(WC), Xxx), Four(Mod(RC), Mod(RC), Mod(R), Xxx), Four(Mod(C), Mod(C), Del(RWC), Xxx), Four(Xxx, Xxx, Xxx, Xxx))
      case 19 => Four(Four(Xxx, Xxx, Xxx, Xxx), Four(Xxx, Xxx, Xxx, Xxx), Four(Xxx, Xxx, Xxx, Xxx), Four(Xxx, Xxx, Xxx, Xxx))
      // old events: read and close
      case 20 => Four(Four(Skip, Mod(RC), Mod(R), Xxx), Four(Mod(RC), Mod(RC), Mod(R), Xxx), Four(Mod(C), Mod(C), Del(RC), Xxx), Four(Xxx, Xxx, Xxx, Xxx))
      case 21 => Four(Four(Mod(RWC), Mod(RWC), Mod(RW), Xxx), Four(Mod(RWC), Mod(RWC), Mod(RW), Xxx), Four(Mod(WC), Mod(WC), Mod(W), Xxx), Four(Xxx, Xxx, Xxx, Xxx))
      case 22 => Four(Four(Mod(RC), Mod(RC), Mod(R), Xxx), Four(Mod(RC), Mod(RC), Mod(R), Xxx), Four(Mod(C), Mod(C), Del(RWC), Xxx), Four(Xxx, Xxx, Xxx, Xxx))
      case 23 => Four(Four(Xxx, Xxx, Xxx, Xxx), Four(Xxx, Xxx, Xxx, Xxx), Four(Xxx, Xxx, Xxx, Xxx), Four(Xxx, Xxx, Xxx, Xxx))
      // old events: write and close
      case 24 => Four(Four(Skip, Mod(WC), Mod(W), Xxx), Four(Mod(RWC), Mod(RWC), Mod(RW), Xxx), Four(Mod(WC), Mod(WC), Mod(W), Xxx), Four(Xxx, Xxx, Xxx, Xxx))
      case 25 => Four(Four(Mod(WC), Mod(WC), Mod(W), Xxx), Four(Mod(RWC), Mod(RWC), Mod(RW), Xxx), Four(Mod(WC), Mod(WC), Mod(W), Xxx), Four(Xxx, Xxx, Xxx, Xxx))
      case 26 => Four(Four(Mod(C), Mod(C), Del(WC), Xxx), Four(Mod(RC), Mod(RC), Mod(R), Xxx), Four(Mod(C), Mod(C), Del(RWC), Xxx), Four(Xxx, Xxx, Xxx, Xxx))
      case 27 => Four(Four(Xxx, Xxx, Xxx, Xxx), Four(Xxx, Xxx, Xxx, Xxx), Four(Xxx, Xxx, Xxx, Xxx), Four(Xxx, Xxx, Xxx, Xxx))
      // old events: all
      case 28 => Four(Four(Skip, Mod(RWC), Mod(RW), Xxx), Four(Mod(RWC), Mod(RWC), Mod(RW), Xxx), Four(Mod(WC), Mod(WC), Mod(W), Xxx), Four(Xxx, Xxx, Xxx, Xxx))
      case 29 => Four(Four(Mod(RWC), Mod(RWC), Mod(RW), Xxx), Four(Mod(RWC), Mod(RWC), Mod(RW), Xxx), Four(Mod(WC), Mod(WC), Mod(W), Xxx), Four(Xxx, Xxx, Xxx, Xxx))
      case 30 => Four(Four(Mod(RC), Mod(RC), Mod(R), Xxx), Four(Mod(RC), Mod(RC), Mod(R), Xxx), Four(Mod(C), Mod(C), Del(RWC), Xxx), Four(Xxx, Xxx, Xxx, Xxx))
      case _ => Four(Four(Xxx, Xxx, Xxx, Xxx), Four(Xxx, Xxx, Xxx, Xxx), Four(Xxx, Xxx, Xxx, Xxx), Four(Xxx, Xxx, Xxx, Xxx))
  }

  function TableAt(i: nat): (op: Operation)
    requires i < 512
  {
    TableRow(i / 16).At(i % 16 / 4).At(i % 4)
  }

  // ---- what the table means ----

  ghost function NetOf(was: bool, code: Code): (now: bool) {
    if code == ADD then true else if code == DEL then false else was
  }

  /** The interest that should hold once the change is made. */
  ghost function Net(c: Change): (k: Kinds) {
    Kinds(NetOf(c.was.read, c.read), NetOf(c.was.write, c.write), NetOf(c.was.close, c.close))
  }

  ghost predicate HasCode(c: Change, code: Code) {
    c.read == code || c.write == code || c.close == code
  }

  /** The rule the table is generated from, as its comment gives it, extended to EPOLLRDHUP. */
  ghost function Rule(c: Change): (op: Operation) {
    if HasCode(c, 3) then Xxx
    else if HasCode(c, ADD) then (if c.was == NONE then Add(Net(c)) else Mod(Net(c)))
    else if HasCode(c, DEL) then
      (if Net(c) == NONE then Del(Kinds(c.read == DEL, c.write == DEL, c.close == DEL)) else Mod(Net(c)))
    else Skip
  }

  lemma TableFollowsRule(c: Change)
    ensures TableAt(Index(c)) == Rule(c)
  {
    var row := c.write + (if c.was.read then 4 else 0) + (if c.was.write then 8 else 0) + (if c.was.close then 16 else 0);
    assert Index(c) == 16 * row + 4 * c.read + c.close;
    assert Index(c) / 16 == row && Index(c) % 16 / 4 == c.read && Index(c) % 4 == c.close;
  }

  // ---- the kernel ----

  datatype Errno = NoError | EEXIST | ENOENT | EBADF

  /** The epoll instance: what it is told to watch, and the descriptors that are not open. */
  class Kernel {
    var interest: map<int, Kinds>
    var broken: set<int>

    constructor ()
      ensures interest == map[] && broken == {}
    {
      interest, broken := map[], {};
    }

    method Ctl(op: Operation, fd: int) returns (e: Errno)
      requires op.Add? || op.Mod? || op.Del?
      modifies this`interest
      ensures e == if fd in broken then EBADF
                   else if op.Add? then (if fd in old(interest) then EEXIST else NoError)
                   else if fd in old(interest) then NoError else ENOENT
      ensures interest == if e != NoError then old(interest)
                          else if op.Del? then old(interest) - {fd} else old(interest)[fd := op.events]
    {
      if fd in broken { return EBADF; }
      if op.Add? && fd in interest { return EEXIST; }
      if !op.Add? && fd !in interest { return ENOENT; }
      interest := if op.Del? then interest - {fd} else interest[fd := op.events];
      return NoError;
    }
  }

  /** The kernel watches exactly the kinds `k` on `fd`. */
  ghost function Watching(interest: map<int, Kinds>, fd: int, k: Kinds): (m: map<int, Kinds>) {
    if k == NONE then interest - {fd} else interest[fd := k]
  }

  ghost predicate NoChange(c: Change) {
    c.read == 0 && c.write == 0 && c.close == 0
  }

  /**
   * epoll_apply_one_change. Unless the change is none at all, the outcome does not
   * depend on what the kernel watched before.
   */
  method ApplyOne(kernel: Kernel, c: Change) returns (ok: bool)
    requires !HasCode(c, 3)
    modifies kernel`interest
    ensures NoChange(c) ==> ok && kernel.interest == old(kernel.interest)
    ensures !NoChange(c) && c.fd !in kernel.broken
      ==> ok && kernel.interest == Watching(old(kernel.interest), c.fd, Net(c))
    ensures c.fd in kernel.broken ==> kernel.interest == old(kernel.interest) && (ok <==> NoChange(c) || Rule(c).Del?)
  {
    TableFollowsRule(c);
    hide TableAt;
    var op := TableAt(Index(c));
    assert op != Xxx;
    if op.Skip? { return true; }
    var e := kernel.Ctl(op, c.fd);
    if e == NoError { return true; }
    match op {
      case Mod(events) =>
        if e == ENOENT {
          e := kernel.Ctl(Add(events), c.fd);
          return e == NoError;
        }
      case Add(events) =>
        if e == EEXIST {
          e := kernel.Ctl(Mod(events), c.fd);
          return e == NoError;
        }
      case Del(_) =>
        if e == ENOENT || e == EBADF { return true; }
    }
    return false;
  }
}
