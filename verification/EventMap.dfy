/**
 * The map from file descriptors to the events that watch them (evmap.c), and the
 * list of changes not yet told to the kernel.
 */
module EventMaps {
  import opened Wrappers
  import opened Epoll

  datatype Event = Event(id: nat, fd: int, kinds: Kinds)

  datatype Kind = Read | Write | Close

  /** struct evmap_io: how many of the events watch each kind, and the events, newest first. */
  datatype Ctx = Ctx(nread: nat, nwrite: nat, nclose: nat, events: seq<Event>)

  const NO_EVENTS := Ctx(0, 0, 0, [])

  type Io = map<int, Ctx>

  ghost predicate Has(k: Kinds, kind: Kind) {
    match kind case Read => k.read case Write => k.write case Close => k.close
  }

  ghost function Count(evs: seq<Event>, kind: Kind): (n: nat) {
    if evs == [] then 0 else (if Has(evs[0].kinds, kind) then 1 else 0) + Count(evs[1..], kind)
  }

  /** The counters agree with the list and fit the 16 bits they are stored in. */
  ghost predicate CtxOk(c: Ctx) {
    && c.nread == Count(c.events, Read) <= 0xffff
    && c.nwrite == Count(c.events, Write) <= 0xffff
    && c.nclose == Count(c.events, Close) <= 0xffff
  }

  function Wanted(c: Ctx): (k: Kinds) {
    Kinds(c.nread > 0, c.nwrite > 0, c.nclose > 0)
  }

  function CtxOf(io: Io, fd: int): (c: Ctx) {
    if fd in io then io[fd] else NO_EVENTS
  }

  ghost function Want(io: Io, fd: int): (k: Kinds) {
    Wanted(CtxOf(io, fd))
  }

  lemma WantAt(io: Io, fd: int)
    ensures Want(io, fd) == Wanted(CtxOf(io, fd))
  {
  }

  // ---- events on one descriptor ----

  function WithEvent(c: Ctx, ev: Event): (d: Ctx) {
    Ctx(c.nread + One(ev.kinds.read), c.nwrite + One(ev.kinds.write), c.nclose + One(ev.kinds.close), [ev] + c.events)
  }

  function Without(evs: seq<Event>, ev: Event): (r: seq<Event>)
    requires ev in evs
  {
    if evs[0] == ev then evs[1..] else [evs[0]] + Without(evs[1..], ev)
  }

  lemma {:induction false} CountWithout(evs: seq<Event>, ev: Event, kind: Kind)
    requires ev in evs
    ensures Count(Without(evs, ev), kind) + One(Has(ev.kinds, kind)) == Count(evs, kind)
  {
    if evs[0] != ev {
      CountWithout(evs[1..], ev, kind);
      var rest := Without(evs[1..], ev);
      assert ([evs[0]] + rest)[1..] == rest;
    }
  }

  /** Exactly its first occurrence is gone. */
  lemma {:induction false} WithoutFirst(evs: seq<Event>, ev: Event) returns (i: nat)
    requires ev in evs
    ensures i < |evs| && evs[i] == ev && ev !in evs[..i] && Without(evs, ev) == evs[..i] + evs[i + 1..]
  {
    if evs[0] == ev {
      i := 0;
      assert evs[..0] == [] && [] + evs[1..] == evs[1..];
    } else {
      var k := WithoutFirst(evs[1..], ev);
      i := k + 1;
      ShiftedOne(evs, k);
    }
  }

  lemma ShiftedOne(evs: seq<Event>, k: nat)
    requires k + 1 < |evs|
    ensures evs[1..][k] == evs[k + 1] && evs[..k + 1] == [evs[0]] + evs[1..][..k]
    ensures [evs[0]] + (evs[1..][..k] + evs[1..][k + 1..]) == evs[..k + 1] + evs[k + 2..]
  {
    assert evs[1..][k + 1..] == evs[k + 2..];
  }

  function WithoutEvent(c: Ctx, ev: Event): (d: Ctx)
    requires CtxOk(c) && ev in c.events
    ensures CtxOk(d)
  {
    CountWithout(c.events, ev, Read);
    CountWithout(c.events, ev, Write);
    CountWithout(c.events, ev, Close);
    Ctx(c.nread - One(ev.kinds.read), c.nwrite - One(ev.kinds.write), c.nclose - One(ev.kinds.close), Without(c.events, ev))
  }

  lemma WithEventOk(c: Ctx, ev: Event)
    requires CtxOk(c)
    ensures var d := WithEvent(c, ev); d.nread <= 0xffff && d.nwrite <= 0xffff && d.nclose <= 0xffff ==> CtxOk(d)
  {
    assert ([ev] + c.events)[1..] == c.events;
  }

  /** Interest is exactly the kinds some event on the descriptor asks for. */
  lemma {:induction false} WantedKinds(c: Ctx, kind: Kind)
    requires CtxOk(c)
    ensures Has(Wanted(c), kind) <==> exists i :: 0 <= i < |c.events| && Has(c.events[i].kinds, kind)
  {
    CountPositive(c.events, kind);
  }

  lemma {:induction false} CountPositive(evs: seq<Event>, kind: Kind)
    ensures Count(evs, kind) > 0 <==> exists i :: 0 <= i < |evs| && Has(evs[i].kinds, kind)
  {
    if evs != [] {
      CountPositive(evs[1..], kind);
      if i :| 0 <= i < |evs| && Has(evs[i].kinds, kind) && !Has(evs[0].kinds, kind) {
        assert Has(evs[1..][i - 1].kinds, kind);
      }
      if i :| 0 <= i < |evs[1..]| && Has(evs[1..][i].kinds, kind) {
        assert Has(evs[i + 1].kinds, kind);
      }
    }
  }

  // ---- changes ----

  /** event_changelist_add_ on one entry. */
  function AddTo(c: Change, events: Kinds): (d: Change) {
    c.(read := if events.read then ADD else c.read,
       write := if events.write then ADD else c.write,
       close := if events.close then ADD else c.close)
  }

  /** event_changelist_del_ on one entry: forgets an addition that was never made. */
  function DelFrom(c: Change, events: Kinds): (d: Change) {
    c.(read := if events.read then (if c.was.read then DEL else 0) else c.read,
       write := if events.write then (if c.was.write then DEL else 0) else c.write,
       close := if events.close then (if c.was.close then DEL else 0) else c.close)
  }

  ghost predicate Fits(was: bool, code: Code, want: bool) {
    code != 3 && (code == ADD ==> want) && (code == DEL ==> was && !want) && (code == 0 ==> want == was)
  }

  /** A pending change leads from what was told to the kernel to what is wanted now. */
  ghost predicate Agrees(c: Change, want: Kinds) {
    Fits(c.was.read, c.read, want.read) && Fits(c.was.write, c.write, want.write) && Fits(c.was.close, c.close, want.close)
  }

  function Union(a: Kinds, b: Kinds): (k: Kinds) {
    Kinds(a.read || b.read, a.write || b.write, a.close || b.close)
  }

  function Minus(a: Kinds, b: Kinds): (k: Kinds) {
    Kinds(a.read && !b.read, a.write && !b.write, a.close && !b.close)
  }

  /** Coalescing keeps the change right, and a pending change means what it should. */
  lemma Coalesce(c: Change, want: Kinds, events: Kinds)
    requires Agrees(c, want)
    ensures Agrees(AddTo(c, events), Union(want, events))
    ensures Agrees(DelFrom(c, events), Minus(want, events))
    ensures !HasCode(c, 3) && Net(c) == want
  {
  }

  // ---- the inverse index ----

  /** For the descriptors in `live`, `index` holds one more than the place of their change, or 0. */
  ghost predicate IndexOk(live: set<int>, index: map<int, nat>, changes: seq<Change>) {
    && live <= index.Keys
    && (forall i :: 0 <= i < |changes| ==> changes[i].fd in live && index[changes[i].fd] == i + 1)
    && (forall fd :: fd in live && index[fd] > 0 ==> index[fd] <= |changes| && changes[index[fd] - 1].fd == fd)
  }

  ghost predicate ChangesOk(io: Io, changes: seq<Change>) {
    forall i :: 0 <= i < |changes| ==> Agrees(changes[i], Want(io, changes[i].fd))
  }

  ghost predicate IoOk(io: Io) {
    forall fd :: fd in io ==> CtxOk(io[fd])
  }

  ghost predicate Pending(index: map<int, nat>, changes: seq<Change>, fd: int) {
    fd in index && 0 < index[fd] <= |changes|
  }

  /** What the kernel has been told to watch. */
  ghost function Told(io: Io, index: map<int, nat>, changes: seq<Change>, fd: int): (k: Kinds) {
    if Pending(index, changes, fd) then changes[index[fd] - 1].was else Want(io, fd)
  }

  datatype Watch = Unwatched | Watched(kinds: Kinds)

  ghost function Seen(interest: map<int, Kinds>, fd: int): (o: Watch) {
    if fd in interest then Watched(interest[fd]) else Unwatched
  }

  ghost function As(k: Kinds): (o: Watch) {
    if k == NONE then Unwatched else Watched(k)
  }

  /** The list and index after the entry for `fd` became `c`. */
  ghost predicate Entered(index: map<int, nat>, changes: seq<Change>, fd: int, c: Change,
                          index': map<int, nat>, changes': seq<Change>)
    requires fd in index
  {
    if index[fd] == 0 then index' == index[fd := |changes| + 1] && changes' == changes + [c]
    else index[fd] <= |changes| && index' == index && changes' == changes[index[fd] - 1 := c]
  }

  /** The entry that event_changelist_get_or_construct finds or makes. */
  ghost function EntryFor(index: map<int, nat>, changes: seq<Change>, fd: int, old_: Kinds): (c: Change) {
    if Pending(index, changes, fd) then changes[index[fd] - 1] else Change(fd, old_, 0, 0, 0)
  }

  lemma EnteredIndex(live: set<int>, index: map<int, nat>, changes: seq<Change>, fd: int, c: Change,
                     index': map<int, nat>, changes': seq<Change>)
    requires fd in live && IndexOk(live, index, changes) && c.fd == fd
    requires Entered(index, changes, fd, c, index', changes')
    ensures IndexOk(live, index', changes') && Pending(index', changes', fd) && changes'[index'[fd] - 1] == c
    ensures forall g :: g in live && g != fd ==> index'[g] == index[g]
    ensures forall i :: 0 <= i < |changes'| && changes'[i].fd != fd ==> i < |changes| && changes'[i] == changes[i]
  {
    assert forall i :: 0 <= i < |changes| && changes[i].fd == fd ==> index[fd] == i + 1;
  }

  lemma EnteredOk(live: set<int>, io: Io, index: map<int, nat>, changes: seq<Change>, fd: int, c: Change,
                  io': Io, index': map<int, nat>, changes': seq<Change>)
    requires fd in live && IndexOk(live, index, changes) && ChangesOk(io, changes) && c.fd == fd
    requires Entered(index, changes, fd, c, index', changes')
    requires forall g :: g != fd ==> Want(io', g) == Want(io, g)
    requires Agrees(c, Want(io', fd))
    ensures IndexOk(live, index', changes') && ChangesOk(io', changes')
    ensures Told(io', index', changes', fd) == c.was
    ensures forall g :: g in live && g != fd ==> Told(io', index', changes', g) == Told(io, index, changes, g)
  {
    hide Agrees, Want, Entered;
    EnteredIndex(live, index, changes, fd, c, index', changes');
    forall i | 0 <= i < |changes'| ensures Agrees(changes'[i], Want(io', changes'[i].fd)) {
      if changes'[i].fd == fd { assert changes'[i] == c; }
    }
    forall g | g in live && g != fd ensures Told(io', index', changes', g) == Told(io, index, changes, g) {
      if index[g] > 0 { assert changes[index[g] - 1].fd == g; }
      if index'[g] > 0 { assert changes'[index'[g] - 1].fd == g; }
    }
  }

  lemma WatchingSeen(m: map<int, Kinds>, fd: int, k: Kinds, g: int)
    ensures Seen(Watching(m, fd, k), g) == if g == fd then As(k) else Seen(m, g)
  {
  }

  /** One more change on `fd`, recorded in the list: belief about the kernel stays as it is. */
  lemma RecordedOk(io: Io, index: map<int, nat>, changes: seq<Change>, fd: int, d: Ctx, c: Change,
                   index': map<int, nat>, changes': seq<Change>)
    requires IoOk(io) && io.Keys == index.Keys && IndexOk(io.Keys, index, changes) && ChangesOk(io, changes)
    requires fd in io && CtxOk(d) && c.fd == fd && c.was == EntryFor(index, changes, fd, Want(io, fd)).was
    requires Entered(index, changes, fd, c, index', changes') && Agrees(c, Wanted(d))
    ensures var io' := io[fd := d];
      IoOk(io') && io'.Keys == index'.Keys && IndexOk(io'.Keys, index', changes') && ChangesOk(io', changes')
    ensures forall g :: Told(io[fd := d], index', changes', g) == Told(io, index, changes, g)
  {
    hide CtxOk, Agrees, IndexOk, ChangesOk;
    var io' := io[fd := d];
    assert io'.Keys == io.Keys;
    EnteredOk(io.Keys, io, index, changes, fd, c, io', index', changes');
  }

  lemma EntryAgrees(io: Io, index: map<int, nat>, changes: seq<Change>, fd: int)
    requires fd in io && IndexOk(io.Keys, index, changes) && ChangesOk(io, changes)
    ensures var c := EntryFor(index, changes, fd, Want(io, fd)); c.fd == fd && Agrees(c, Want(io, fd))
  {
  }

  /** A new event that changes no interest. */
  lemma SameWant(io: Io, index: map<int, nat>, changes: seq<Change>, fd: int, d: Ctx)
    requires IoOk(io) && io.Keys == index.Keys && IndexOk(io.Keys, index, changes) && ChangesOk(io, changes)
    requires fd in io && CtxOk(d) && Wanted(d) == Want(io, fd)
    ensures var io' := io[fd := d];
      IoOk(io') && io'.Keys == index.Keys && IndexOk(io'.Keys, index, changes) && ChangesOk(io', changes)
    ensures forall g :: Told(io[fd := d], index, changes, g) == Told(io, index, changes, g)
  {
    hide CtxOk, Agrees, IndexOk;
    assert io[fd := d].Keys == io.Keys;
    assert forall g :: Want(io[fd := d], g) == Want(io, g);
  }

  /** A descriptor without events, added to the map or already there. */
  lemma SlotOk(io: Io, index: map<int, nat>, changes: seq<Change>, fd: int)
    requires IoOk(io) && io.Keys == index.Keys && IndexOk(io.Keys, index, changes) && ChangesOk(io, changes)
    ensures fd in io ==> CtxOk(io[fd])
    ensures CtxOk(NO_EVENTS) && forall g :: Want(io[fd := CtxOf(io, fd)], g) == Want(io, g)
    ensures fd !in io ==>
      var io', index' := io[fd := NO_EVENTS], index[fd := 0];
      && IoOk(io') && io'.Keys == index'.Keys && IndexOk(io'.Keys, index', changes) && ChangesOk(io', changes)
      && forall g :: Told(io', index', changes, g) == Told(io, index, changes, g)
  {
    WantSlot(io, fd);
    if fd !in io {
      var io', index' := io[fd := NO_EVENTS], index[fd := 0];
      ForgetIndex(io.Keys, io, index, changes, fd);
      SlotIo(io, fd);
      hide IndexOk, CtxOk, Want, IoOk;
      assert io'.Keys == io.Keys + {fd};
      forall i | 0 <= i < |changes| ensures Agrees(changes[i], Want(io', changes[i].fd)) {}
      forall g ensures Told(io', index', changes, g) == Told(io, index, changes, g) {
        if g == fd { assert !Pending(index, changes, g); } else if g !in io { assert !Pending(index', changes, g); }
      }
    }
  }

  lemma WantSlot(io: Io, fd: int)
    ensures forall g :: Want(io[fd := CtxOf(io, fd)], g) == Want(io, g)
  {
  }

  lemma SlotIo(io: Io, fd: int)
    requires IoOk(io) && fd !in io
    ensures IoOk(io[fd := NO_EVENTS]) && forall g :: Want(io[fd := NO_EVENTS], g) == Want(io, g)
  {
  }

  class EventMap {
    const batched: bool
    const kernel: Kernel
    var io: Io
    var index: map<int, nat>
    var changes: seq<Change>

    constructor (batched: bool, kernel: Kernel)
      requires kernel.interest == map[]
      ensures Valid() && io == map[] && this.batched == batched && this.kernel == kernel
      ensures forall fd :: Synced(fd)
    {
      this.batched, this.kernel := batched, kernel;
      io, index, changes := map[], map[], [];
    }

    ghost predicate Valid()
      reads this
    {
      && IoOk(io) && io.Keys == index.Keys
      && IndexOk(io.Keys, index, changes) && ChangesOk(io, changes)
      && (!batched ==> changes == [])
    }

    /** The kernel watches on `fd` what it has been told to. */
    ghost predicate Synced(fd: int)
      reads this, kernel
    {
      Seen(kernel.interest, fd) == As(Told(io, index, changes, fd))
    }

    /** A change is waiting for `fd` that is more than an addition taken back. */
    ghost predicate RealChange(fd: int)
      reads this
    {
      Changed(index, changes, fd)
    }

    /** event_changelist_get_or_construct. */
    method GetOrConstruct(fd: int, old_: Kinds, ghost live: set<int>) returns (i: nat)
      requires fd in live && IndexOk(live, index, changes)
      modifies this`index, this`changes
      ensures i < |changes| && changes[i] == EntryFor(old(index), old(changes), fd, old_)
      ensures index == (if old(index)[fd] == 0 then old(index)[fd := |changes|] else old(index)) && index[fd] == i + 1
      ensures changes == if old(index)[fd] == 0 then old(changes) + [changes[i]] else old(changes)
    {
      if index[fd] == 0 {
        i := |changes|;
        changes := changes + [Change(fd, old_, 0, 0, 0)];
        index := index[fd := i + 1];
      } else {
        i := index[fd] - 1;
        assert changes[i].fd == fd;
      }
    }

    /** event_changelist_add_ or epoll_nochangelist_add, whichever the base uses. */
    method BackendAdd(fd: int, old_: Kinds, events: Kinds, ghost live: set<int>) returns (ok: bool)
      requires fd in live && IndexOk(live, index, changes)
      modifies this`index, this`changes, kernel`interest
      ensures batched ==> ok && kernel.interest == old(kernel.interest)
      ensures batched ==> Entered(old(index), old(changes), fd,
                                  AddTo(EntryFor(old(index), old(changes), fd, old_), events), index, changes)
      ensures !batched ==> index == old(index) && changes == old(changes)
      ensures !batched ==> (ok <==> events == NONE || fd !in kernel.broken)
      ensures !batched && ok && events != NONE ==> kernel.interest == Watching(old(kernel.interest), fd, Union(old_, events))
      ensures !ok || events == NONE ==> kernel.interest == old(kernel.interest)
    {
      if batched {
        var i := GetOrConstruct(fd, old_, live);
        changes := changes[i := AddTo(changes[i], events)];
        ok := true;
      } else {
        var c := Change(fd, old_, One(events.read), One(events.write), One(events.close));
        ok := ApplyOne(kernel, c);
      }
    }

    /** event_changelist_del_ or epoll_nochangelist_del. */
    method BackendDel(fd: int, old_: Kinds, events: Kinds, ghost live: set<int>) returns (ok: bool)
      requires fd in live && IndexOk(live, index, changes)
      requires events != NONE
      modifies this`index, this`changes, kernel`interest
      ensures batched ==> ok && kernel.interest == old(kernel.interest)
      ensures batched ==> Entered(old(index), old(changes), fd,
                                  DelFrom(EntryFor(old(index), old(changes), fd, old_), events), index, changes)
      ensures !batched ==> index == old(index) && changes == old(changes)
      ensures !batched && fd !in kernel.broken
        ==> kernel.interest == Watching(old(kernel.interest), fd, Minus(old_, events))
      ensures fd in kernel.broken ==> kernel.interest == old(kernel.interest)
      ensures ok <==> batched || fd !in kernel.broken || Minus(old_, events) == NONE
    {
      if batched {
        var i := GetOrConstruct(fd, old_, live);
        changes := changes[i := DelFrom(changes[i], events)];
        ok := true;
      } else {
        var c := Change(fd, old_, 2 * One(events.read), 2 * One(events.write), 2 * One(events.close));
        ok := ApplyOne(kernel, c);
      }
    }
  
    /** GET_IO_SLOT_AND_CTOR. */
    method MakeSlot(fd: int)
      requires Valid()
      modifies this`io, this`index
      ensures Valid() && io == old(io)[fd := CtxOf(old(io), fd)] && CtxOk(io[fd])
      ensures forall g :: Want(io, g) == Want(old(io), g)
      ensures forall g :: Told(io, index, changes, g) == Told(old(io), old(index), changes, g)
      ensures forall g :: old(Synced(g)) ==> Synced(g)
    {
      hide IoOk, IndexOk, ChangesOk, Told, CtxOk;
      SlotOk(io, index, changes, fd);
      if fd !in io {
        io, index := io[fd := NO_EVENTS], index[fd := 0];
      } else {
        assert io[fd := io[fd]] == io;
      }
    }

    /** The part of evmap_io_add_ that tells the backend and stores the new counts `d`. */
    method AddInterest(fd: int, old_: Kinds, res: Kinds, d: Ctx) returns (ok: bool)
      requires Valid() && fd in io && old_ == Want(io, fd)
      requires CtxOk(d) && Wanted(d) == Union(old_, res)
      modifies this`io, this`index, this`changes, kernel`interest
      ensures Valid() && io == (if ok then old(io)[fd := d] else old(io))
      ensures ok <==> batched || res == NONE || fd !in kernel.broken
      ensures batched ==> kernel.interest == old(kernel.interest)
      ensures batched ==> forall g :: Told(io, index, changes, g) == Told(old(io), old(index), old(changes), g)
      ensures forall g :: old(Synced(g)) ==> Synced(g)
      ensures !batched && ok && res != NONE ==> Synced(fd)
    {
      hide IoOk, IndexOk, ChangesOk, CtxOk, Agrees, Entered;
      ghost var io0, index0, changes0 := io, index, changes;
      if res == NONE {
        SameWant(io, index, changes, fd, d);
        ok := true;
        io := io[fd := d];
        return;
      }
      ok := BackendAdd(fd, old_, res, io.Keys);
      if !ok { return; }
      io := io[fd := d];
      ghost var c := EntryFor(index0, changes0, fd, old_);
      if batched {
        EntryAgrees(io0, index0, changes0, fd);
        Coalesce(c, old_, res);
        RecordedOk(io0, index0, changes0, fd, d, AddTo(c, res), index, changes);
      } else {
        ToldAtOnce(io0, index0, fd, d);
      }
    }

    /** The part of evmap_io_del_ that tells the backend and stores the new counts `d`. */
    method DelInterest(fd: int, old_: Kinds, res: Kinds, d: Ctx) returns (ok: bool)
      requires Valid() && fd in io && old_ == Want(io, fd)
      requires CtxOk(d) && Wanted(d) == Minus(old_, res)
      modifies this`io, this`index, this`changes, kernel`interest
      ensures Valid() && io == old(io)[fd := d]
      ensures ok <==> batched || res == NONE || fd !in kernel.broken || Wanted(d) == NONE
      ensures batched ==> kernel.interest == old(kernel.interest)
      ensures batched ==> forall g :: Told(io, index, changes, g) == Told(old(io), old(index), old(changes), g)
      ensures forall g :: old(Synced(g)) && g !in kernel.broken ==> Synced(g)
      ensures !batched && res != NONE && fd !in kernel.broken ==> Synced(fd)
    {
      hide IoOk, IndexOk, ChangesOk, CtxOk, Agrees, Entered;
      ghost var io0, index0, changes0 := io, index, changes;
      if res == NONE {
        SameWant(io, index, changes, fd, d);
        ok := true;
        io := io[fd := d];
        return;
      }
      ok := BackendDel(fd, old_, res, io.Keys);
      io := io[fd := d];
      ghost var c := EntryFor(index0, changes0, fd, old_);
      if batched {
        EntryAgrees(io0, index0, changes0, fd);
        Coalesce(c, old_, res);
        RecordedOk(io0, index0, changes0, fd, d, DelFrom(c, res), index, changes);
      } else {
        ToldAtOnce(io0, index0, fd, d);
      }
    }

    /** evmap_io_add_: -1 on error, 1 if the backend was told something, else 0. */
    method Add(ev: Event) returns (r: int)
      requires Valid()
      modifies this`io, this`index, this`changes, kernel`interest
      ensures Valid()
      ensures ev.fd < 0 ==> r == 0 && io == old(io)
      ensures ev.fd >= 0 ==> var c := CtxOf(old(io), ev.fd); var k := ev.kinds;
        var full := (k.read && c.nread == 65535) || (k.write && c.nwrite == 65535) || (k.close && c.nclose == 65535);
        var first := (k.read && c.nread == 0) || (k.write && c.nwrite == 0) || (k.close && c.nclose == 0);
        r == if full then -1 else if !first then 0 else if !batched && ev.fd in kernel.broken then -1 else 1
      ensures ev.fd >= 0 ==> ev.fd in io && io == old(io)[ev.fd := io[ev.fd]]
      ensures ev.fd >= 0 ==> var before := if ev.fd in old(io) then old(io)[ev.fd].events else [];
        io[ev.fd].events == if r < 0 then before else [ev] + before
      ensures batched ==> kernel.interest == old(kernel.interest)
      ensures batched ==> forall g :: Told(io, index, changes, g) == Told(old(io), old(index), old(changes), g)
      ensures forall g :: old(Synced(g)) ==> Synced(g)
      ensures !batched && r == 1 ==> Synced(ev.fd)
    {
      hide IoOk, IndexOk, ChangesOk, CtxOk, Agrees, Entered, Told, Synced, Valid, Want;
      if ev.fd < 0 { return 0; }
      MakeSlot(ev.fd);
      var ctx := io[ev.fd];
      AddMeans(ctx, ev);
      var old_ := Wanted(ctx);
      assert old_ == Want(io, ev.fd) by { WantAt(io, ev.fd); }
      var nread, nwrite, nclose := ctx.nread, ctx.nwrite, ctx.nclose;
      var res := NONE;
      if ev.kinds.read { nread := nread + 1; if nread == 1 { res := res.(read := true); } }
      if ev.kinds.write { nwrite := nwrite + 1; if nwrite == 1 { res := res.(write := true); } }
      if ev.kinds.close { nclose := nclose + 1; if nclose == 1 { res := res.(close := true); } }
      if nread > 0xffff || nwrite > 0xffff || nclose > 0xffff { return -1; }
      WithEventOk(ctx, ev);
      var ok := AddInterest(ev.fd, old_, res, Ctx(nread, nwrite, nclose, [ev] + ctx.events));
      return if !ok then -1 else if res != NONE then 1 else 0;
    }

    /** evmap_io_del_: an error from the backend does not keep the event. */
    method Del(ev: Event) returns (r: int)
      requires Valid()
      requires ev.fd >= 0 && ev.fd in io ==> ev in io[ev.fd].events
      modifies this`io, this`index, this`changes, kernel`interest
      ensures Valid()
      ensures ev.fd < 0 || ev.fd !in old(io) ==> r == (if ev.fd < 0 then 0 else -1) && io == old(io)
      ensures ev.fd >= 0 && ev.fd in old(io) ==> ev.fd in io && io == old(io)[ev.fd := io[ev.fd]]
      ensures ev.fd >= 0 && ev.fd in old(io) ==> var before := old(io)[ev.fd].events;
        exists i :: 0 <= i < |before| && before[i] == ev && ev !in before[..i] && io[ev.fd].events == before[..i] + before[i + 1..]
      ensures ev.fd >= 0 && ev.fd in old(io) ==> io[ev.fd].events == Without(old(io)[ev.fd].events, ev)
      ensures ev.fd >= 0 && ev.fd in old(io) ==> var c, k := old(io)[ev.fd], ev.kinds; var d := io[ev.fd];
        var last := (k.read && c.nread == 1) || (k.write && c.nwrite == 1) || (k.close && c.nclose == 1);
        var left := d.nread > 0 || d.nwrite > 0 || d.nclose > 0;
        r == if !last then 0 else if batched || ev.fd !in kernel.broken || !left then 1 else -1
      ensures batched ==> kernel.interest == old(kernel.interest)
      ensures batched ==> forall g :: Told(io, index, changes, g) == Told(old(io), old(index), old(changes), g)
      ensures forall g :: old(Synced(g)) && g !in kernel.broken ==> Synced(g)
      ensures !batched && r == 1 && ev.fd !in kernel.broken ==> Synced(ev.fd)
    {
      hide IndexOk, ChangesOk, Agrees, Entered, Told;
      if ev.fd < 0 { return 0; }
      if ev.fd !in io { return -1; }
      var ctx := io[ev.fd];
      ghost var i := WithoutFirst(ctx.events, ev);
      ghost var d := WithoutEvent(ctx, ev);
      var old_ := Wanted(ctx);
      var nread, nwrite, nclose := ctx.nread, ctx.nwrite, ctx.nclose;
      var res := NONE;
      if ev.kinds.read { nread := nread - 1; if nread == 0 { res := res.(read := true); } }
      if ev.kinds.write { nwrite := nwrite - 1; if nwrite == 0 { res := res.(write := true); } }
      if ev.kinds.close { nclose := nclose - 1; if nclose == 0 { res := res.(close := true); } }
      var ok := DelInterest(ev.fd, old_, res, Ctx(nread, nwrite, nclose, Without(ctx.events, ev)));
      return if res == NONE then 0 else if ok then 1 else -1;
    }
  
    /** event_changelist_remove_all_. */
    method RemoveAll()
      requires Valid()
      modifies this`index, this`changes
      ensures Valid() && changes == []
    {
      hide IoOk, Agrees;
      for i := 0 to |changes|
        invariant index.Keys == io.Keys && changes == old(changes)
        invariant Cleared(io.Keys, index, changes, i)
      {
        var c := changes[i];
        assert index[c.fd] == i + 1;
        ghost var index0 := index;
        index := index[c.fd := 0];
        ClearedStep(io.Keys, index0, changes, i);
      }
      changes := [];
    }

    /** epoll_dispatch, up to the wait. */
    method Dispatch() returns (ok: bool)
      requires Valid()
      modifies this`index, this`changes, kernel`interest
      ensures Valid() && changes == []
      ensures forall fd ::
        fd !in kernel.broken && (old(Synced(fd)) || old(RealChange(fd)))
        ==> Seen(kernel.interest, fd) == As(Want(io, fd))
      ensures kernel.broken == {} ==> ok
      ensures kernel.broken == {} && (forall fd :: old(Synced(fd))) ==> forall fd :: Synced(fd)
    {
      hide IoOk, IndexOk, ChangesOk;
      ghost var interest0, index0, changes0 := kernel.interest, index, changes;
      NoXxx(io, changes);
      ok := ApplyChanges(kernel, changes, io.Keys, index);
      forall fd | fd !in kernel.broken && (old(Synced(fd)) || old(RealChange(fd)))
        ensures Seen(kernel.interest, fd) == As(Want(io, fd))
      {
        if Pending(index0, changes0, fd) { PendingNet(io, index0, changes0, fd); }
      }
      RemoveAll();
    }
  
    /** The descriptors in `done` have been told to the new epoll instance again. */
    ghost predicate Retold(done: set<int>)
      reads this, kernel
    {
      && IndexOk(done, index, changes) && ChangesOk(io, changes)
      && (batched ==> kernel.interest == map[] && forall g :: g in done ==> Told(io, index, changes, g) == NONE)
      && (!batched ==> changes == [])
      && (!batched ==> forall g :: Seen(kernel.interest, g) == if g in done && g !in kernel.broken then As(Want(io, g)) else Unwatched)
    }

    /** evmap_io_reinit_iter_fn. */
    method ReinitOne(fd: int, ghost done: set<int>) returns (ok: bool)
      requires fd in io && fd !in done && io.Keys == index.Keys && Retold(done)
      modifies this`index, this`changes, kernel`interest
      ensures Retold(done + {fd}) && index.Keys == old(index.Keys) && (kernel.broken == {} ==> ok)
    {
      hide IndexOk, ChangesOk, Agrees, Entered, Told;
      ForgetIndex(done, io, index, changes, fd);
      index := index[fd := 0];
      ghost var index0, changes0 := index, changes;
      ok := BackendAdd(fd, NONE, Wanted(io[fd]), done + {fd});
      ghost var c := Change(fd, NONE, 0, 0, 0);
      if batched {
        Coalesce(c, NONE, Wanted(io[fd]));
        EnteredOk(done + {fd}, io, index0, changes0, fd, AddTo(c, Wanted(io[fd])), io, index, changes);
      }
    }

    /** event_reinit's part for descriptors: a new epoll instance, told everything again by evmap_reinit_. */
    method Reinit() returns (ok: bool)
      requires Valid()
      modifies this`index, this`changes, kernel`interest
      ensures Valid() && (kernel.broken == {} ==> ok)
      ensures forall fd :: fd !in kernel.broken ==> Synced(fd)
    {
      hide IoOk, IndexOk, ChangesOk, Agrees, Entered;
      changes, kernel.interest, ok := [], map[], true;
      var todo := io.Keys;
      ghost var done: set<int> := {};
      NothingYet(io, index);
      while todo != {}
        invariant done + todo == io.Keys == index.Keys && done !! todo && (kernel.broken == {} ==> ok)
        invariant Retold(done)
        decreases |todo|
      {
        var fd := Pick(todo);
        todo := todo - {fd};
        var one := ReinitOne(fd, done);
        if !one { ok := false; }
        done := done + {fd};
      }
    }
  }

  method Pick(s: set<int>) returns (x: int)
    requires s != {}
    ensures x in s
  {
    assert (forall y :: y !in s) ==> s == {};
    x :| x in s;
  }

  lemma ForgetIndex(done: set<int>, io: Io, index: map<int, nat>, changes: seq<Change>, fd: int)
    requires IndexOk(done, index, changes) && fd !in done
    ensures var index' := index[fd := 0];
      && IndexOk(done + {fd}, index', changes) && !Pending(index', changes, fd)
      && forall g :: g in done ==> Told(io, index', changes, g) == Told(io, index, changes, g)
  {
    hide Want;
    var index' := index[fd := 0];
    forall g | g in done ensures index'[g] == index[g] {}
    forall i | 0 <= i < |changes| ensures changes[i].fd in done + {fd} && index'[changes[i].fd] == i + 1 {
      assert changes[i].fd in done;
    }
    forall g | g in done + {fd} && index'[g] > 0 ensures index'[g] <= |changes| && changes[index'[g] - 1].fd == g {
      assert g in done;
    }
  }

  lemma NothingYet(io: Io, index: map<int, nat>)
    ensures IndexOk({}, index, []) && ChangesOk(io, [])
  {
  }

  /** event_changelist_remove_all_'s loop has cleared the entries of the first `i` changes. */
  ghost predicate Cleared(live: set<int>, index: map<int, nat>, changes: seq<Change>, i: nat) {
    && live == index.Keys
    && (forall fd :: fd in live && index[fd] > 0 ==> i < index[fd] <= |changes| && changes[index[fd] - 1].fd == fd)
    && (forall k :: i <= k < |changes| ==> changes[k].fd in live && index[changes[k].fd] == k + 1)
  }

  lemma ClearedStep(live: set<int>, index: map<int, nat>, changes: seq<Change>, i: nat)
    requires Cleared(live, index, changes, i) && i < |changes|
    ensures Cleared(live, index[changes[i].fd := 0], changes, i + 1)
  {
    assert index[changes[i].fd] == i + 1;
  }

  lemma NoXxx(io: Io, changes: seq<Change>)
    requires ChangesOk(io, changes)
    ensures forall i :: 0 <= i < |changes| ==> !HasCode(changes[i], 3)
  {
  }

  lemma PendingNet(io: Io, index: map<int, nat>, changes: seq<Change>, fd: int)
    requires index.Keys == io.Keys && IndexOk(io.Keys, index, changes) && ChangesOk(io, changes)
    requires Pending(index, changes, fd)
    ensures var c := changes[index[fd] - 1]; Net(c) == Want(io, fd) && (NoChange(c) ==> c.was == Want(io, fd))
  {
    var c := changes[index[fd] - 1];
    Coalesce(c, Want(io, c.fd), NONE);
  }

  ghost predicate Changed(index: map<int, nat>, changes: seq<Change>, fd: int) {
    Pending(index, changes, fd) && !NoChange(changes[index[fd] - 1])
  }

  /** What the kernel watches on `fd` once the changes are made. */
  ghost function Outcome(interest: map<int, Kinds>, broken: set<int>, index: map<int, nat>, changes: seq<Change>, fd: int): (w: Watch) {
    if Changed(index, changes, fd) && fd !in broken then As(Net(changes[index[fd] - 1])) else Seen(interest, fd)
  }

  /** epoll_apply_changes. */
  method ApplyChanges(kernel: Kernel, changes: seq<Change>, ghost live: set<int>, ghost index: map<int, nat>) returns (ok: bool)
    requires live == index.Keys && IndexOk(live, index, changes)
    requires forall i :: 0 <= i < |changes| ==> !HasCode(changes[i], 3)
    modifies kernel`interest
    ensures forall fd :: Seen(kernel.interest, fd) == Outcome(old(kernel.interest), kernel.broken, index, changes, fd)
    ensures kernel.broken == {} ==> ok
  {
    ok := true;
    ghost var before, broken := kernel.interest, kernel.broken;
    for i := 0 to |changes|
      invariant broken == kernel.broken && (broken == {} ==> ok)
      invariant forall fd :: Seen(kernel.interest, fd) == Outcome(before, broken, index, changes[..i], fd)
    {
      ghost var interest := kernel.interest;
      var one := ApplyOne(kernel, changes[i]);
      if !one { ok := false; }
      forall fd ensures Seen(kernel.interest, fd) == Outcome(before, broken, index, changes[..i + 1], fd) {
        OutcomeStep(before, interest, broken, live, index, changes, i, fd);
      }
    }
    assert changes[..|changes|] == changes;
  }

  /** One more change made: only its own descriptor is affected. */
  lemma OutcomeStep(before: map<int, Kinds>, interest: map<int, Kinds>, broken: set<int>, live: set<int>,
                    index: map<int, nat>, changes: seq<Change>, i: nat, fd: int)
    requires live == index.Keys && IndexOk(live, index, changes) && i < |changes|
    requires Seen(interest, fd) == Outcome(before, broken, index, changes[..i], fd)
    ensures var c := changes[i];
      Outcome(before, broken, index, changes[..i + 1], fd)
      == if NoChange(c) || c.fd in broken then Seen(interest, fd) else Seen(Watching(interest, c.fd, Net(c)), fd)
  {
    var c := changes[i];
    WatchingSeen(interest, c.fd, Net(c), fd);
    assert index[c.fd] == i + 1;
  }

  lemma ToldAtOnce(io: Io, index: map<int, nat>, fd: int, d: Ctx)
    requires IoOk(io) && fd in io && CtxOk(d)
    ensures IoOk(io[fd := d]) && io[fd := d].Keys == io.Keys
    ensures ChangesOk(io[fd := d], []) && (IndexOk(io.Keys, index, []) ==> IndexOk(io[fd := d].Keys, index, []))
    ensures forall g :: Told(io[fd := d], index, [], g) == if g == fd then Wanted(d) else Told(io, index, [], g)
  {
    hide CtxOk;
    var io' := io[fd := d];
    assert io'.Keys == io.Keys;
    forall g ensures Told(io', index, [], g) == if g == fd then Wanted(d) else Told(io, index, [], g) {
      assert !Pending(index, [], g);
    }
  }

  lemma AddMeans(c: Ctx, ev: Event)
    requires CtxOk(c)
    ensures c.nread <= 65535 && c.nwrite <= 65535 && c.nclose <= 65535
  {
  }

  // ---- the two backends compared ----

  datatype Step = AddStep(ev: Event) | DelStep(ev: Event) | DispatchStep

  /** The events on a descriptor after a run, newest first. An event for which a counter is full is refused. */
  ghost function Live(steps: seq<Step>, fd: int): (evs: seq<Event>) {
    if steps == [] then [] else
      var evs, step := Live(steps[..|steps| - 1], fd), steps[|steps| - 1];
      if step.AddStep? && step.ev.fd == fd >= 0 && RoomFor(evs, step.ev) then [step.ev] + evs
      else if step.DelStep? && step.ev.fd == fd && step.ev in evs then Without(evs, step.ev)
      else evs
  }

  ghost predicate RoomFor(evs: seq<Event>, ev: Event) {
    forall kind :: Has(ev.kinds, kind) ==> Count(evs, kind) < 65535
  }

  function EventsOf(io: Io, fd: int): (evs: seq<Event>) { CtxOf(io, fd).events }

  /** A batching and an immediate base with the same events, each kernel watching what it was told. */
  ghost predicate Alike(a: EventMap, b: EventMap)
    reads a, b, a.kernel, b.kernel
  {
    && a != b && a.kernel != b.kernel && a.batched && !b.batched
    && a.Valid() && b.Valid() && a.io == b.io && a.kernel.broken == b.kernel.broken == {}
    && (forall fd :: a.Synced(fd)) && (forall fd :: b.Synced(fd)) && forall fd :: fd in a.io ==> fd >= 0
  }

  lemma SameCtx(io: Io, io': Io, fd: int)
    requires IoOk(io) && IoOk(io') && fd in io && fd in io' && io[fd].events == io'[fd].events
    ensures io[fd] == io'[fd]
  {
  }

  lemma HasRoom(io: Io, ev: Event)
    requires IoOk(io)
    ensures var c, k := CtxOf(io, ev.fd), ev.kinds;
      RoomFor(c.events, ev) <==> !((k.read && c.nread == 65535) || (k.write && c.nwrite == 65535) || (k.close && c.nclose == 65535))
  {
    var c, k := CtxOf(io, ev.fd), ev.kinds;
    assert CtxOk(c);
    assert (Has(k, Read) <==> k.read) && (Has(k, Write) <==> k.write) && (Has(k, Close) <==> k.close);
  }

  /** Adding an event where every descriptor is open and in step. */
  method AddInStep(m: EventMap, ev: Event)
    requires m.Valid() && m.kernel.broken == {} && forall fd :: m.Synced(fd)
    modifies m, m.kernel`interest
    ensures m.Valid() && forall fd :: m.Synced(fd)
    ensures m.io.Keys == old(m.io).Keys + if ev.fd >= 0 then {ev.fd} else {}
    ensures forall fd :: EventsOf(m.io, fd) == if fd == ev.fd >= 0 && RoomFor(EventsOf(old(m.io), fd), ev) then [ev] + EventsOf(old(m.io), fd)
                                               else EventsOf(old(m.io), fd)
  {
    HasRoom(m.io, ev);
    hide Told, IndexOk, ChangesOk, IoOk, CtxOk, EventMap.Synced, EventMap.Valid, Seen, As, Want, RoomFor;
    var _ := m.Add(ev);
  }

  lemma SameIo(io: Io, io': Io)
    requires IoOk(io) && IoOk(io') && io.Keys == io'.Keys && forall fd :: EventsOf(io, fd) == EventsOf(io', fd)
    ensures io == io'
  {
    forall fd | fd in io ensures io[fd] == io'[fd] {
      assert EventsOf(io, fd) == EventsOf(io', fd);
      SameCtx(io, io', fd);
    }
  }

  method AddBoth(a: EventMap, b: EventMap, ev: Event)
    requires Alike(a, b)
    modifies a, b, a.kernel`interest, b.kernel`interest
    ensures Alike(a, b)
    ensures forall fd :: EventsOf(a.io, fd) == if fd == ev.fd >= 0 && RoomFor(EventsOf(old(a.io), fd), ev) then [ev] + EventsOf(old(a.io), fd)
                                               else EventsOf(old(a.io), fd)
  {
    hide IndexOk, ChangesOk, IoOk, EventMap.Synced, RoomFor, EventsOf;
    AddInStep(a, ev);
    AddInStep(b, ev);
    SameIo(a.io, b.io);
  }

  method DelBoth(a: EventMap, b: EventMap, ev: Event)
    requires Alike(a, b)
    modifies a, b, a.kernel`interest, b.kernel`interest
    ensures Alike(a, b)
    ensures forall fd :: EventsOf(a.io, fd) == if fd == ev.fd && ev in EventsOf(old(a.io), fd) then Without(EventsOf(old(a.io), fd), ev)
                                               else EventsOf(old(a.io), fd)
  {
    hide Told, IndexOk, ChangesOk, IoOk, CtxOk, EventMap.Synced, EventMap.RealChange, Seen, As, Want, Without;
    if ev.fd in a.io && ev in a.io[ev.fd].events {
      var _ := a.Del(ev);
      var _ := b.Del(ev);
      SameCtx(a.io, b.io, ev.fd);
    }
  }

  method StepBoth(a: EventMap, b: EventMap, step: Step, ghost done: seq<Step>)
    requires Alike(a, b) && forall fd :: EventsOf(a.io, fd) == Live(done, fd)
    modifies a, b, a.kernel`interest, b.kernel`interest
    ensures Alike(a, b) && forall fd :: EventsOf(a.io, fd) == Live(done + [step], fd)
  {
    hide Told, IndexOk, ChangesOk, IoOk, CtxOk, EventMap.Synced, EventMap.RealChange, Seen, As, Want, Without, RoomFor, CtxOf;
    assert (done + [step])[..|done|] == done;
    match step
    case AddStep(ev) => AddBoth(a, b, ev);
    case DelStep(ev) => DelBoth(a, b, ev);
    case DispatchStep =>
      var _ := a.Dispatch();
      var _ := b.Dispatch();
  }

  /**
   * Whatever is added and deleted between dispatches, batching the changes and making each at once
   * leave the kernel watching the same: on each descriptor, the kinds that some event of the run
   * that is still there asks for.
   */
  method BatchedEqualsImmediate(steps: seq<Step>) returns (batched: map<int, Kinds>, immediate: map<int, Kinds>)
    ensures batched == immediate
    ensures forall fd :: fd in batched && batched[fd].read <==> exists ev :: ev in Live(steps, fd) && ev.kinds.read
    ensures forall fd :: fd in batched && batched[fd].write <==> exists ev :: ev in Live(steps, fd) && ev.kinds.write
    ensures forall fd :: fd in batched && batched[fd].close <==> exists ev :: ev in Live(steps, fd) && ev.kinds.close
    ensures forall fd :: fd in batched ==> batched[fd].read || batched[fd].write || batched[fd].close
  {
    hide IndexOk, ChangesOk, IoOk, Told, Seen, As, CtxOk, CtxOf, Live, RoomFor;
    var ka := new Kernel();
    var kb := new Kernel();
    var a := new EventMap(true, ka);
    var b := new EventMap(false, kb);
    NoneLive(a.io);
    for i := 0 to |steps|
      invariant Alike(a, b) && fresh(a) && fresh(b) && fresh(a.kernel) && fresh(b.kernel)
      invariant forall fd :: EventsOf(a.io, fd) == Live(steps[..i], fd)
    {
      StepBoth(a, b, steps[i], steps[..i]);
      assert steps[..i + 1] == steps[..i] + [steps[i]];
    }
    assert steps[..|steps|] == steps;
    var io;
    batched, immediate, io := DispatchBoth(a, b);
    WatchedKinds(batched, io, steps);
  }

  lemma NoneLive(io: Io)
    requires io == map[]
    ensures forall fd :: EventsOf(io, fd) == Live([], fd)
  {
  }

  lemma WatchedKinds(interest: map<int, Kinds>, io: Io, steps: seq<Step>)
    requires IoOk(io) && (forall fd :: Seen(interest, fd) == As(Want(io, fd))) && forall fd :: EventsOf(io, fd) == Live(steps, fd)
    ensures forall fd :: fd in interest && interest[fd].read <==> exists ev :: ev in Live(steps, fd) && ev.kinds.read
    ensures forall fd :: fd in interest && interest[fd].write <==> exists ev :: ev in Live(steps, fd) && ev.kinds.write
    ensures forall fd :: fd in interest && interest[fd].close <==> exists ev :: ev in Live(steps, fd) && ev.kinds.close
    ensures forall fd :: fd in interest ==> interest[fd].read || interest[fd].write || interest[fd].close
  {
    hide Live, CtxOf, IoOk;
    forall fd
      ensures fd in interest && interest[fd].read <==> exists ev :: ev in Live(steps, fd) && ev.kinds.read
      ensures fd in interest && interest[fd].write <==> exists ev :: ev in Live(steps, fd) && ev.kinds.write
      ensures fd in interest && interest[fd].close <==> exists ev :: ev in Live(steps, fd) && ev.kinds.close
      ensures fd in interest ==> interest[fd].read || interest[fd].write || interest[fd].close
    {
      assert Seen(interest, fd) == As(Want(io, fd));
      assert EventsOf(io, fd) == Live(steps, fd);
      WantIs(io, fd);
    }
  }

  lemma WantIs(io: Io, fd: int)
    requires IoOk(io)
    ensures Want(io, fd).read <==> exists ev :: ev in EventsOf(io, fd) && ev.kinds.read
    ensures Want(io, fd).write <==> exists ev :: ev in EventsOf(io, fd) && ev.kinds.write
    ensures Want(io, fd).close <==> exists ev :: ev in EventsOf(io, fd) && ev.kinds.close
  {
    var c := CtxOf(io, fd);
    assert CtxOk(c);
    CountPositive(c.events, Read);
    CountPositive(c.events, Write);
    CountPositive(c.events, Close);
  }

  method DispatchBoth(a: EventMap, b: EventMap) returns (batched: map<int, Kinds>, immediate: map<int, Kinds>, io: Io)
    requires Alike(a, b)
    modifies a, b, a.kernel`interest, b.kernel`interest
    ensures batched == immediate && io == old(a.io)
    ensures IoOk(io) && forall fd :: Seen(batched, fd) == As(Want(io, fd))
  {
    hide IndexOk, ChangesOk, Told, Seen, As;
    var _ := a.Dispatch();
    var _ := b.Dispatch();
    batched, immediate, io := a.kernel.interest, b.kernel.interest, a.io;
    SameMap(batched, immediate);
  }

  lemma SameMap(m: map<int, Kinds>, n: map<int, Kinds>)
    requires forall fd :: Seen(m, fd) == Seen(n, fd)
    ensures m == n
  {
    forall fd ensures (fd in m <==> fd in n) && (fd in m ==> m[fd] == n[fd]) {
      assert Seen(m, fd) == Seen(n, fd);
    }
  }
}
