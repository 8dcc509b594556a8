/**
 * evdns_getaddrinfo's state machine (evdns.c): one or two lookups, a timeout for the
 * second one, and a user who may cancel. Neither shutdown nor failure to allocate.
 */
module GetAddrInfos {
  import opened Wrappers

  datatype Family = V4 | V6

  datatype Addr = Addr(family: Family, octets: seq<nat>)

  /** How a lookup ends: DNS_ERR_NONE with addresses, DNS_ERR_NOTEXIST, DNS_ERR_CANCEL, or another error. */
  datatype Result = Found(addrs: seq<Addr>) | NotExist | Canceled | Failed

  /** getaddrinfo's error codes: 0 and those that occur here. */
  datatype Err = OK | NODATA | NONAME | FAIL | CANCEL | AGAIN

  /** A call of the user's callback. */
  datatype Call = Call(err: Err, addrs: seq<Addr>)

  /**
   * A lookup: `open` while its handle is held; `outcome` once its callback is scheduled,
   * after which evdns_cancel_request no longer changes it.
   */
  datatype Lookup = Lookup(open: bool, outcome: Option<Result>)

  function ErrOf(r: Result): (e: Err) {
    match r
    case Found(addrs) => if addrs == [] then NODATA else OK
    case NotExist => NONAME
    case Canceled => FAIL
    case Failed => FAIL
  }

  function Other(f: Family): (o: Family) { if f.V4? then V6 else V4 }

  function Answer(r: Result): (a: seq<Addr>) { if r.Found? then r.addrs else [] }

  class Request {
    var v4: Lookup
    var v6: Lookup
    var pendingResult: Option<seq<Addr>>
    var pendingErr: Err
    var timer: bool
    var userCb: bool         // still to be called
    var userCanceled: bool
    var requestDone: bool
    var freed: nat           // how often the state was freed
    var calls: seq<Call>     // the calls of the user's callback
    ghost var first: Option<Result>   // what the first of two lookups brought

    /** evdns_getaddrinfo from where it has to ask the resolver; the lookups that could be started are given. */
    constructor (started4: bool, started6: bool)
      ensures Valid() && first == None && !userCanceled
      ensures v4 == Lookup(started4, None) && v6 == Lookup(started6, None)
      ensures !started4 && !started6 ==> calls == [Call(FAIL, [])]
    {
      v4, v6 := Lookup(started4, None), Lookup(started6, None);
      pendingResult, pendingErr, timer, userCb := None, OK, false, true;
      userCanceled, requestDone, freed, calls, first := false, false, 0, [], None;
      if !started4 && !started6 {
        freed, calls := 1, [Call(FAIL, [])];
      }
    }

    function Of(f: Family): (l: Lookup)
      reads this
    {
      if f.V4? then v4 else v6
    }

    /**
     * Freed at most once, with nothing outstanding and the user told; until then something is
     * outstanding, and the user has been told exactly if the callback is cleared.
     */
    ghost predicate Valid()
      reads this
    {
      && (freed == 1 ==> !v4.open && !v6.open && !timer && |calls| == 1)
      && (freed == 0 ==> (v4.open || v6.open) && |calls| == if userCb then 0 else 1)
      && freed <= 1 && (requestDone ==> freed == 1)
      && (timer ==> freed == 0 && userCb && v4.open != v6.open)
      && (freed == 0 && !userCb ==> !timer && v4.open != v6.open)
      && LookupOk(v4) && LookupOk(v6)
      && FirstOk()
    }

    /** A lookup is canceled only by the user or by the timeout that told the user. */
    ghost predicate LookupOk(l: Lookup)
      reads this
    {
      (l.outcome.Some? ==> l.open) && (l.outcome == Some(Canceled) ==> userCanceled || !userCb)
    }

    /** While one of two lookups is awaited and nobody interfered, what the other brought is kept. */
    ghost predicate FirstOk()
      reads this
    {
      && (first.Some? && freed == 0 ==> v4.open != v6.open)
      && (freed == 0 && userCb && !userCanceled ==>
            && (first.None? ==> pendingResult.None? && pendingErr == OK)
            && (first.Some? && ErrOf(first.value) == OK ==> pendingResult == Some(Answer(first.value)) && pendingErr == OK)
            && (first.Some? && ErrOf(first.value) != OK ==> pendingResult.None? && pendingErr == ErrOf(first.value)))
    }

    method SetLookup(f: Family, l: Lookup)
      modifies this`v4, this`v6
      ensures Of(f) == l && Of(Other(f)) == old(Of(Other(f)))
    {
      if f.V4? { v4 := l; } else { v6 := l; }
    }

    /** The resolver has an outcome for a lookup; its callback will be run. */
    method Reply(f: Family, r: Result)
      requires Valid() && Of(f).open && Of(f).outcome.None? && !r.Canceled?
      modifies this`v4, this`v6
      ensures Valid() && Of(f) == Lookup(true, Some(r)) && Of(Other(f)) == old(Of(Other(f)))
    {
      SetLookup(f, Lookup(true, Some(r)));
    }

    /** evdns_cancel_request, which does nothing once the callback is scheduled. */
    method CancelLookup(f: Family)
      modifies this`v4, this`v6
      ensures Of(Other(f)) == old(Of(Other(f)))
      ensures Of(f) == if old(Of(f)).outcome.Some? then old(Of(f)) else old(Of(f)).(outcome := Some(Canceled))
    {
      if Of(f).outcome.None? { SetLookup(f, Of(f).(outcome := Some(Canceled))); }
    }

    /** evdns_getaddrinfo_cancel. */
    method Cancel()
      requires Valid() && freed == 0
      modifies this`v4, this`v6, this`timer, this`userCanceled
      ensures Valid() && v4.open == old(v4.open) && v6.open == old(v6.open)
      ensures userCanceled && (v4.open ==> v4.outcome.Some?) && (v6.open ==> v6.outcome.Some?)
    {
      if requestDone { return; }
      timer := false;
      userCanceled := true;
      if v4.open { CancelLookup(V4); }
      if v6.open { CancelLookup(V6); }
    }

    /** evdns_getaddrinfo_timeout_cb: the user is told, and the late lookup canceled. */
    method TimeoutCb()
      requires Valid() && timer
      modifies this
      ensures Valid() && freed == 0 && |calls| == 1 && !timer && userCanceled == old(userCanceled)
      ensures v4.open == old(v4.open) && v6.open == old(v6.open)
      ensures old(pendingResult).Some? ==> calls == [Call(OK, old(pendingResult).value)]
      ensures old(pendingResult).None? ==> calls == [Call(if old(pendingErr) == OK then AGAIN else old(pendingErr), [])]
      ensures old(first).Some? && !userCanceled ==> var r := old(first).value;
        calls == [if r.Found? && r.addrs != [] then Call(OK, r.addrs)
                  else Call(if r.Found? then NODATA else if r.NotExist? then NONAME else FAIL, [])]
    {
      timer := false;
      var timedout4, timedout6 := v4.open, v6.open;
      if v4.open { CancelLookup(V4); }
      if v6.open { CancelLookup(V6); }
      assert !timedout4 || !timedout6;
      if pendingResult.Some? {
        calls := calls + [Call(OK, pendingResult.value)];
        pendingResult := None;
      } else {
        calls := calls + [Call(if pendingErr == OK then AGAIN else pendingErr, [])];
      }
      userCb := false;
      assert timedout4 || timedout6;
    }

    method Tell(c: Call)
      modifies this`calls
      ensures calls == old(calls) + [c]
    {
      calls := calls + [c];
    }

    /** free_getaddrinfo_request. */
    method Free()
      modifies this`timer, this`freed, this`pendingResult
      ensures !timer && freed == old(freed) + 1 && pendingResult == None
    {
      pendingResult, timer, freed := None, false, freed + 1;
    }

    /** The rest of evdns_getaddrinfo_gotresolve: keep the result for the other lookup, or tell the user. */
    method Settle(f: Family, result: Result, other: bool)
      modifies this`pendingResult, this`pendingErr, this`timer, this`freed, this`calls
      ensures other ==> calls == old(calls) && freed == old(freed)
      ensures other && !userCanceled ==>
        timer && (if ErrOf(result) == OK then pendingResult == Some(Answer(result)) && pendingErr == old(pendingErr)
                  else pendingErr == ErrOf(result) && pendingResult == old(pendingResult))
      ensures other ==> timer == (old(timer) || !userCanceled || ErrOf(result) != OK)
      ensures !other ==> freed == old(freed) + 1 && !timer
      ensures !other ==> calls == old(calls) + [Told(f, result, old(pendingResult), userCanceled)]
    {
      var err := ErrOf(result);
      if err != OK {
        if other {
          timer, pendingErr := true, err;
          return;
        }
        if userCanceled {
          Tell(Call(CANCEL, []));
        } else if pendingResult.Some? {
          Tell(Call(OK, pendingResult.value));
          pendingResult := None;
        } else {
          Tell(Call(err, []));
        }
        Free();
        return;
      } else if userCanceled {
        if other { return; }
        Tell(Call(CANCEL, []));
        Free();
        return;
      }
      var res := Answer(result);
      if other {
        timer, pendingResult := true, Some(res);
        return;
      }
      if pendingResult.Some? {
        res := if f.V4? then res + pendingResult.value else pendingResult.value + res;
        pendingResult := None;
      }
      Tell(Call(OK, res));
      Free();
    }

    /** evdns_getaddrinfo_gotresolve: the scheduled callback of a lookup is run. */
    method Deliver(f: Family)
      requires Valid() && Of(f).open && Of(f).outcome.Some?
      modifies this
      ensures Valid() && !Of(f).open && Of(Other(f)) == old(Of(Other(f))) && userCanceled == old(userCanceled)
      ensures freed == 1 <==> !Of(Other(f)).open
      ensures freed == 0 ==> calls == [] && first == Some(old(Of(f)).outcome.value) && userCb
      ensures freed == 1 && old(userCb) ==> var r := old(Of(f)).outcome.value;
        var mine := if r.Found? then r.addrs else [];
        var others := if old(first).Some? && old(first).value.Found? then old(first).value.addrs else [];
        var all := if f.V4? then mine + others else others + mine;
        calls == [if userCanceled then Call(CANCEL, []) else if all != [] then Call(OK, all)
                  else Call(if r.Found? then NODATA else if r.NotExist? then NONAME else FAIL, [])]
      ensures !old(userCb) ==> calls == old(calls)
    {
      var result := Of(f).outcome.value;
      var other := Of(Other(f)).open;
      if !other { requestDone := true; }
      SetLookup(f, Lookup(false, None));
      if result.Canceled? && !userCanceled {
        if !other { Free(); }
        return;
      }
      if !userCb {
        Free();
        return;
      }
      if !other && !userCanceled { ToldOutcome(f, result, first, pendingResult); }
      if other { first := Some(result); }
      Settle(f, result, other);
    }
  }

  /** The same, from what was kept of the first lookup. */
  function Told(f: Family, result: Result, kept: Option<seq<Addr>>, canceled: bool): (c: Call) {
    if canceled then Call(CANCEL, [])
    else if ErrOf(result) != OK then (if kept.Some? then Call(OK, kept.value) else Call(ErrOf(result), []))
    else if kept.None? then Call(OK, Answer(result))
    else Call(OK, if f.V4? then Answer(result) + kept.value else kept.value + Answer(result))
  }

  /** All addresses found, the v4 ones first; if there are none, the error of the last lookup. */
  lemma ToldOutcome(f: Family, result: Result, first: Option<Result>, kept: Option<seq<Addr>>)
    requires kept == if first.Some? && ErrOf(first.value) == OK then Some(Answer(first.value)) else None
    ensures var mine := if result.Found? then result.addrs else [];
      var others := if first.Some? && first.value.Found? then first.value.addrs else [];
      var all := if f.V4? then mine + others else others + mine;
      Told(f, result, kept, false) == if all != [] then Call(OK, all)
                                      else Call(if result.Found? then NODATA else if result.NotExist? then NONAME else FAIL, [])
  {
    var a := Answer(result);
    assert a + [] == a == [] + a;
    if kept.Some? { assert kept.value + [] == kept.value == [] + kept.value; }
  }

  // ---- whole runs ----

  /**
   * Two lookups that nobody interrupts, in either order, the second answered before or after the first
   * is delivered: the user gets both answers, v4 before v6, or the one there is, or the error of the last.
   */
  method BothAnswer(v4: Result, v6: Result, last: Family, early: bool) returns (calls: seq<Call>)
    requires !v4.Canceled? && !v6.Canceled?
    ensures var four, six := if v4.Found? then v4.addrs else [], if v6.Found? then v6.addrs else [];
      four + six != [] ==> calls == [Call(OK, four + six)]
    ensures (v4.Found? ==> v4.addrs == []) && (v6.Found? ==> v6.addrs == []) ==> var r := if last.V4? then v4 else v6;
      calls == [Call(if r.Found? then NODATA else if r.NotExist? then NONAME else FAIL, [])]
  {
    var d := new Request(true, true);
    var head := Other(last);
    d.Reply(head, if head.V4? then v4 else v6);
    if early { d.Reply(last, if last.V4? then v4 else v6); }
    d.Deliver(head);
    if !early { d.Reply(last, if last.V4? then v4 else v6); }
    d.Deliver(last);
    calls := d.calls;
  }

  datatype Step = ReplyStep(f: Family, r: Result) | DeliverStep(f: Family) | TimeoutStep | CancelStep

  /** Whatever happens in whatever order, once no lookup is left the user was told once and the state freed once. */
  method Run(started4: bool, started6: bool, steps: seq<Step>) returns (calls: seq<Call>, freed: nat)
    ensures |calls| == 1 && freed == 1
  {
    var d := new Request(started4, started6);
    for i := 0 to |steps|
      invariant fresh(d) && d.Valid()
    {
      match steps[i]
      case ReplyStep(f, r) =>
        if d.Of(f).open && d.Of(f).outcome.None? && !r.Canceled? { d.Reply(f, r); }
      case DeliverStep(f) =>
        if d.Of(f).open && d.Of(f).outcome.Some? { d.Deliver(f); }
      case TimeoutStep =>
        if d.timer { d.TimeoutCb(); }
      case CancelStep =>
        if d.freed == 0 { d.Cancel(); }
    }
    // lookups always end
    if d.v4.open {
      if d.v4.outcome.None? { d.Reply(V4, Failed); }
      d.Deliver(V4);
    }
    if d.v6.open {
      if d.v6.outcome.None? { d.Reply(V6, Failed); }
      d.Deliver(V6);
    }
    return d.calls, d.freed;
  }
}
