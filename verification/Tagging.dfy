/**
 * The tagged stream in an evbuffer (event_tagging.c): marshalling, looking ahead,
 * skipping and unmarshalling.
 */
module Tagging {
  import opened Flat
  import opened Chains
  import opened Evbuffers
  import opened Wrappers
  import opened TagCodec

  /** A buffer that may be changed at both ends. */
  ghost predicate Ready(buf: Evbuffer)
    reads buf, buf.view.chains
  {
    buf.Valid() && !buf.freezeStart && !buf.freezeEnd
  }

  datatype Item = Item(tag: nat, payload: Bytes)

  /** Tags are 32 bits wide, and a payload is added as one chain: evtag_marshal would lose a larger one. */
  ghost predicate ItemOk(x: Item) {
    x.tag < WORD && |x.payload| <= LARGEST
  }

  ghost function EncItem(x: Item): (s: Bytes)
    requires ItemOk(x)
    ensures |s| > 0
  {
    LengthFits(|x.payload|);
    EncTag(x.tag) + EncInt(|x.payload|) + x.payload
  }

  lemma LengthFits(n: nat)
    requires n < WORD
    ensures n < Pow16(8) < Pow16(16)
  {
    assert Pow16(8) == WORD by { assert Pow16(4) == 65536; }
    PowGrows(9, 16);
  }

  /** Tag and length at the front of a stream, and the bytes they take. */
  datatype Header = Header(len: nat, tag: nat, payload: nat)

  ghost function DecHeader(s: Bytes): (h: Option<Header>)
    ensures h.Some? ==> 0 < h.value.len <= |s|
  {
    var t := DecTag(s);
    if t.None? then None else
      var l := DecInt(s[t.value.len..], 8);
      if l.None? then None else Some(Header(t.value.len + l.value.len, t.value.number, l.value.number))
  }

  /** What evtag_peek_length reports, in 32 bits. */
  ghost function PeekLen(s: Bytes): (n: Option<nat>) {
    var h := DecHeader(s);
    if h.None? then None else Some((h.value.payload + h.value.len) % WORD)
  }

  lemma ItemHeader(x: Item, s: Bytes)
    requires ItemOk(x) && EncItem(x) <= s
    ensures DecHeader(s) == Some(Header(|EncItem(x)| - |x.payload|, x.tag, |x.payload|))
    ensures s[|EncItem(x)| - |x.payload|..|EncItem(x)|] == x.payload
  {
    hide EncTag, EncInt, Pow16, DecTag, DecInt;
    LengthFits(|x.payload|);
    var t, l := EncTag(x.tag), EncInt(|x.payload|);
    ThreeParts(t, l, x.payload, s);
    TagRoundTrip(x.tag, s);
    IntRoundTrip(|x.payload|, 8, s[|t|..]);
  }

  lemma ThreeParts(t: Bytes, l: Bytes, p: Bytes, s: Bytes)
    requires t + l + p <= s
    ensures t <= s && l <= s[|t|..] && s[|t| + |l|..|t| + |l| + |p|] == p
  {
    var e := t + l + p;
    assert s[..|e|] == e;
    assert s[|t|..][..|l|] == s[..|e|][|t|..|t| + |l|];
    assert s[|t| + |l|..|e|] == s[..|e|][|t| + |l|..];
  }

  // ---- reading ----

  /** evbuffer_pullup, and the first `n` bytes it makes available. */
  method PullBytes(buf: Evbuffer, n: nat) returns (ok: bool, data: Bytes)
    requires buf.Valid()
    modifies buf`first, buf`last, buf`lastWithDataOwner, buf`totalLen, buf`view, buf.view.chains
    ensures buf.Valid() && NewChains(old(buf.view.chains), buf.view.chains) && buf.Contents() == old(buf.Contents())
    ensures ok <==> 0 < n <= |buf.Contents()|
    ensures data == if ok then buf.Contents()[..n] else []
  {
    hide Join, Distinct, Link;
    ok := buf.Pullup(n);
    if !ok { return false, []; }
    FirstBytes(buf.view.segs, n);
    DataAt(buf.view.chains, buf.view.segs, 0);
    var chain := buf.first;
    SliceSlice(chain.buffer, chain.misalign, chain.misalign + chain.off, 0, n);
    data := chain.buffer[chain.misalign..chain.misalign + n];
  }

  lemma FirstBytes(segs: Segs, n: nat)
    requires segs != [] && |segs[0]| >= n
    ensures n <= |Join(segs)| && Join(segs)[..n] == segs[0][..n]
  {
    JoinPrefix(segs, 1);
    assert segs[..1] == [segs[0]];
    JoinOne(segs[0]);
  }

  /** decode_tag_internal. */
  method DecodeTag(buf: Evbuffer, drain: bool) returns (r: Option<Decoded>)
    requires Ready(buf)
    modifies buf`first, buf`last, buf`lastWithDataOwner, buf`totalLen, buf`view, buf.view.chains
    ensures Ready(buf) && NewChains(old(buf.view.chains), buf.view.chains)
    ensures r == DecTag(old(buf.Contents()))
    ensures buf.Contents() == if drain && r.Some? then old(buf.Contents())[r.value.len..] else old(buf.Contents())
  {
    hide Join, Distinct, Link, Data, DecTagAt;
    ghost var c := buf.Contents();
    var len := buf.totalLen;
    DecTagPrefix(c, 0);
    DecTagEmpty();
    var ok, data := PullBytes(buf, if len < 5 then len else 5);
    if !ok { return None; }
    r := DecodeTagBytes(data, len);
    if drain && r.Some? {
      var _ := buf.Drain(r.value.len);
    }
  }

  lemma DecTagEmpty()
    ensures DecTag([]) == None
  {
  }

  /** DECODE_INT_INTERNAL: the number that starts `offset` bytes into the buffer. */
  method DecodeIntAt(buf: Evbuffer, offset: nat, max: nat) returns (r: Option<Decoded>)
    requires Ready(buf) && max <= 16
    modifies buf`first, buf`last, buf`lastWithDataOwner, buf`totalLen, buf`view, buf.view.chains
    ensures Ready(buf) && NewChains(old(buf.view.chains), buf.view.chains) && buf.Contents() == old(buf.Contents())
    ensures r == if offset >= |buf.Contents()| then None else DecInt(buf.Contents()[offset..], max)
  {
    hide Join, Evbuffer.Valid, Val;
    ghost var c := buf.Contents();
    TotalOf(buf);
    var len := buf.totalLen - offset;
    if len <= 0 { return None; }
    var ok, data := PullBytes(buf, offset + 1);
    TotalOf(buf);
    var n := data[offset] as int / 16 + 1;
    assert data[offset] == c[offset..][0];
    if n > max || n / 2 + 1 > len { return None; }
    len := n / 2 + 1;
    ok, data := PullBytes(buf, offset + len);
    TotalOf(buf);
    var number := DecodeNibbles(data[offset..], n, max);
    assert data[offset..] == c[offset..][..len];
    ValPrefix(c[offset..], 0, n, len);
    return Some(Decoded(len, number));
  }

  lemma {:induction false} ValPrefix(s: Bytes, m: nat, n: nat, len: nat)
    requires n / 2 < len <= |s|
    ensures Val(s[..len], m, n) == Val(s, m, n)
    decreases n - m
  {
    if m < n { ValPrefix(s, m + 1, n, len); }
  }

  /** evtag_decode_int and evtag_decode_int64. */
  method DecodeInt(buf: Evbuffer, max: nat) returns (r: Option<Decoded>)
    requires Ready(buf) && max <= 16
    modifies buf`first, buf`last, buf`lastWithDataOwner, buf`totalLen, buf`view, buf.view.chains
    ensures Ready(buf) && NewChains(old(buf.view.chains), buf.view.chains)
    ensures r == DecInt(old(buf.Contents()), max)
    ensures buf.Contents() == if r.Some? then old(buf.Contents())[r.value.len..] else old(buf.Contents())
  {
    hide Join, Distinct, Link, Data, Val;
    assert buf.Contents()[0..] == buf.Contents();
    r := DecodeIntAt(buf, 0, max);
    if r.Some? {
      var _ := buf.Drain(r.value.len);
    }
  }

  /** evtag_unmarshal_header: -1 on error, else the length of what follows. */
  method UnmarshalHeader(buf: Evbuffer) returns (r: int, tag: nat)
    requires Ready(buf)
    modifies buf`first, buf`last, buf`lastWithDataOwner, buf`totalLen, buf`view, buf.view.chains
    ensures Ready(buf) && NewChains(old(buf.view.chains), buf.view.chains)
    ensures var c := old(buf.Contents()); var h := DecHeader(c);
      && (r == -1 <==> h.None? || |c| - h.value.len < h.value.payload)
      && (r != -1 ==> tag == h.value.tag && r % WORD == h.value.payload && buf.Contents() == c[h.value.len..])
  {
    hide Join, Evbuffer.Shape, DecTag, DecInt, Signed;
    ghost var c := buf.Contents();
    var t := DecodeTag(buf, true);
    if t.None? { return -1, 0; }
    var l := DecodeInt(buf, 8);
    if l.None? { return -1, 0; }
    assert c[t.value.len..][l.value.len..] == c[t.value.len + l.value.len..];
    if buf.totalLen < l.value.number { return -1, 0; }
    SignedBack(l.value.number);
    return Signed(l.value.number), t.value.number;
  }

  /** evtag_peek_length. */
  method PeekLength(buf: Evbuffer) returns (r: Option<nat>)
    requires Ready(buf)
    modifies buf`first, buf`last, buf`lastWithDataOwner, buf`totalLen, buf`view, buf.view.chains
    ensures Ready(buf) && NewChains(old(buf.view.chains), buf.view.chains) && buf.Contents() == old(buf.Contents())
    ensures r == PeekLen(buf.Contents())
  {
    hide Join, Distinct, Link, Data, DecTag, DecInt;
    ghost var c := buf.Contents();
    var t := DecodeTag(buf, false);
    if t.None? { return None; }
    var l := DecodeIntAt(buf, t.value.len, 8);
    if t.value.len >= buf.totalLen { DecIntNil(8); }
    if l.None? { return None; }
    return Some((l.value.number + (l.value.len + t.value.len)) % WORD);
  }

  /** evtag_consume: removes exactly the bytes that evtag_peek_length announced. */
  method Consume(buf: Evbuffer) returns (ok: bool)
    requires Ready(buf)
    modifies buf`first, buf`last, buf`lastWithDataOwner, buf`totalLen, buf`view, buf.view.chains
    ensures Ready(buf) && NewChains(old(buf.view.chains), buf.view.chains)
    ensures ok ==> PeekLen(old(buf.Contents())) == Some(|old(buf.Contents())| - |buf.Contents()|)
    ensures ok ==> buf.Contents() == old(buf.Contents())[|old(buf.Contents())| - |buf.Contents()|..]
    ensures var c := old(buf.Contents()); var h := DecHeader(c);
      ok <==> h.Some? && h.value.len + h.value.payload <= |c|
  {
    hide Join, Evbuffer.Valid, DecHeader;
    ghost var c := buf.Contents();
    TotalOf(buf);
    var len, tag := UnmarshalHeader(buf);
    if len == -1 { return false; }
    var n := len % WORD;
    ghost var h := DecHeader(c).value;
    DropDrop(c, h.len, n);
    DropBytes(buf, n);
    return true;
  }

  /** evtag_unmarshal; `payload` is what it adds to the destination buffer. */
  method Unmarshal(src: Evbuffer) returns (r: int, tag: nat, payload: Bytes)
    requires Ready(src)
    modifies src`first, src`last, src`lastWithDataOwner, src`totalLen, src`view, src.view.chains
    ensures Ready(src) && NewChains(old(src.view.chains), src.view.chains)
    ensures var c := old(src.Contents()); var h := DecHeader(c);
      && (r == -1 <==> h.None? || |c| - h.value.len < h.value.payload)
      && (r != -1 ==>
            && tag == h.value.tag && r % WORD == |payload|
            && payload == c[h.value.len..h.value.len + h.value.payload]
            && src.Contents() == c[h.value.len + h.value.payload..])
  {
    hide Join, Evbuffer.Valid, DecHeader;
    payload := [];
    ghost var c := src.Contents();
    r, tag := UnmarshalHeader(src);
    if r == -1 { return; }
    ghost var h := DecHeader(c).value;
    payload := Take(src, r % WORD);
    SliceSlice(c, h.len, |c|, 0, h.payload);
    ToEnd(c, h.len);
    DropDrop(c, h.len, h.payload);
  }

  /** The first `n` bytes, pulled up, used and drained. */
  method Take(buf: Evbuffer, n: nat) returns (data: Bytes)
    requires Ready(buf) && n <= |buf.Contents()|
    modifies buf`first, buf`last, buf`lastWithDataOwner, buf`totalLen, buf`view, buf.view.chains
    ensures Ready(buf) && NewChains(old(buf.view.chains), buf.view.chains)
    ensures data == old(buf.Contents())[..n] && buf.Contents() == old(buf.Contents())[n..]
  {
    hide Join, Distinct, Link, Data;
    var ok;
    ok, data := PullBytes(buf, n);
    var _ := buf.Drain(n);
  }

  // ---- writing ----

  /** What evbuffer_add makes of the contents; nobody looks at its result. */
  ghost function Added(c: Bytes, data: Bytes): (d: Bytes) {
    if |c| + |data| > SIZE_MAX then c else c + data
  }

  /** Tag, length and payload, each as far as there is room for it. */
  ghost function Marshalled(c: Bytes, x: Item): (d: Bytes)
    requires ItemOk(x)
  {
    LengthFits(|x.payload|);
    Added(Added(Added(c, EncTag(x.tag)), EncInt(|x.payload|)), x.payload)
  }

  lemma MarshalledWhole(c: Bytes, x: Item)
    requires ItemOk(x) && |c| <= SIZE_MAX
    ensures Marshalled(c, x) == c + EncItem(x) <==> |c| + |EncItem(x)| <= SIZE_MAX
  {
    hide EncTag, EncInt, Pow16;
    LengthFits(|x.payload|);
    var t, l := EncTag(x.tag), EncInt(|x.payload|);
    assert c + t + l + x.payload == c + (t + l + x.payload);
  }

  lemma ItemParts(x: Item)
    requires ItemOk(x)
    ensures |x.payload| < Pow16(16) && EncItem(x) == EncTag(x.tag) + EncInt(|x.payload|) + x.payload
  {
    LengthFits(|x.payload|);
  }

  /** evtag_marshal: the item is in the stream if and only if there is room for all of it. */
  method Marshal(buf: Evbuffer, x: Item)
    requires Ready(buf) && ItemOk(x)
    modifies buf`first, buf`last, buf`lastWithDataOwner, buf`totalLen, buf`view, buf.view.chains
    ensures Ready(buf) && NewChains(old(buf.view.chains), buf.view.chains)
    ensures buf.Contents() == Marshalled(old(buf.Contents()), x)
    ensures buf.Contents() == old(buf.Contents()) + EncItem(x) <==> |old(buf.Contents())| + |EncItem(x)| <= SIZE_MAX
  {
    hide Join, Evbuffer.Valid, EncTag, EncInt, EncItem, Pow16, Added;
    LengthFits(|x.payload|);
    TotalOf(buf);
    MarshalledWhole(buf.Contents(), x);
    var t, l := Codes(x.tag, |x.payload|);
    Put(buf, t);
    Put(buf, l);
    Put(buf, x.payload);
  }

  method Codes(tag: nat, n: nat) returns (t: Bytes, l: Bytes)
    requires tag < WORD && n < Pow16(8)
    ensures n < Pow16(16) && t == EncTag(tag) && l == EncInt(n)
  {
    hide EncTag, EncInt, Pow16, Pow128;
    t := EncodeTag(tag);
    l := EncodeInt(n, 8);
  }

  /** evbuffer_add, whose result is ignored. */
  method Put(buf: Evbuffer, data: Bytes)
    requires Ready(buf)
    modifies buf`first, buf`last, buf`lastWithDataOwner, buf`totalLen, buf`view, buf.view.chains
    ensures Ready(buf) && NewChains(old(buf.view.chains), buf.view.chains)
    ensures buf.Contents() == Added(old(buf.Contents()), data)
  {
    hide Join, Distinct, Link, Data;
    var _ := buf.Add(data);
  }

  /** evtag_marshal_int and evtag_marshal_int64, for numbers of up to 8 or 16 nibbles. */
  method MarshalInt(buf: Evbuffer, tag: nat, x: nat, max: nat)
    requires Ready(buf) && tag < WORD && (max == 8 || max == 16) && x < Pow16(max)
    modifies buf`first, buf`last, buf`lastWithDataOwner, buf`totalLen, buf`view, buf.view.chains
    ensures Ready(buf) && NewChains(old(buf.view.chains), buf.view.chains) && x < Pow16(16)
    ensures var e := Item(tag, EncInt(x)); var c := old(buf.Contents());
      buf.Contents() == Marshalled(c, e) && (buf.Contents() == c + EncItem(e) <==> |c| + |EncItem(e)| <= SIZE_MAX)
  {
    hide Join, Evbuffer.Valid, EncTag, EncInt, Pow16, Marshalled, EncItem;
    var data := EncodeInt(x, max);
    Marshal(buf, Item(tag, data));
  }

  /** evtag_unmarshal_int and evtag_unmarshal_int64. */
  method UnmarshalInt(buf: Evbuffer, needTag: nat, max: nat) returns (r: Option<nat>)
    requires Ready(buf) && max <= 16
    modifies buf`first, buf`last, buf`lastWithDataOwner, buf`totalLen, buf`view, buf.view.chains
    ensures Ready(buf) && NewChains(old(buf.view.chains), buf.view.chains)
    ensures var c := old(buf.Contents()); var h := DecHeader(c);
      if h.Some? && h.value.tag == needTag && h.value.len + h.value.payload <= |c|
      then var d := DecInt(c[h.value.len..], max);
        && buf.Contents() == c[h.value.len + h.value.payload..]
        && r == if d.Some? && d.value.len <= h.value.payload then Some(d.value.number) else None
      else r.None?
  {
    hide Join, Evbuffer.Valid, DecTag, DecInt;
    ghost var c := buf.Contents();
    var len, ok := IntHeader(buf, needTag);
    if !ok { return None; }
    assert buf.Contents()[0..] == buf.Contents();
    ghost var h := DecHeader(c).value;
    if |c[h.len..]| == 0 { DecIntNil(max); }
    var d := DecodeIntAt(buf, 0, max);
    var _ := Take(buf, len);
    assert c[h.len..][len..] == c[h.len + len..];
    if d.None? || d.value.len > len { return None; }
    return Some(d.value.number);
  }

  lemma DecIntNil(max: nat)
    ensures DecInt([], max) == None
  {
  }

  method IntHeader(buf: Evbuffer, needTag: nat) returns (len: nat, ok: bool)
    requires Ready(buf)
    modifies buf`first, buf`last, buf`lastWithDataOwner, buf`totalLen, buf`view, buf.view.chains
    ensures Ready(buf) && NewChains(old(buf.view.chains), buf.view.chains)
    ensures var c := old(buf.Contents()); var h := DecHeader(c);
      && (ok <==> h.Some? && h.value.tag == needTag && h.value.len + h.value.payload <= |c|)
      && (ok ==> len == h.value.payload && buf.Contents() == c[h.value.len..])
  {
    hide Join, Distinct, Link, Data, DecTag, DecInt;
    ghost var c := buf.Contents();
    var t := DecodeTag(buf, true);
    if t.None? || t.value.number != needTag { return 0, false; }
    var l := DecodeInt(buf, 8);
    if l.None? { return 0, false; }
    assert c[t.value.len..][l.value.len..] == c[t.value.len + l.value.len..];
    return l.value.number, buf.totalLen >= l.value.number;
  }

  /** What evtag_marshal_int wrote is what evtag_unmarshal_int reads. */
  lemma IntItem(tag: nat, x: nat, max: nat, c: Bytes)
    requires tag < WORD && 1 <= max <= 16 && x < Pow16(max) && x < Pow16(16) && EncItem(Item(tag, EncInt(x))) <= c
    ensures var h := DecHeader(c);
      && h.Some? && h.value.tag == tag && h.value.len + h.value.payload == |EncItem(Item(tag, EncInt(x)))| <= |c|
      && DecInt(c[h.value.len..], max) == Some(Decoded(h.value.payload, x))
  {
    hide EncTag, EncInt, Pow16, DecTag, DecInt, DecHeader;
    var e := Item(tag, EncInt(x));
    ItemHeader(e, c);
    var h := DecHeader(c).value;
    assert c[h.len..][..|EncInt(x)|] == c[h.len..h.len + |EncInt(x)|] == EncInt(x);
    IntRoundTrip(x, max, c[h.len..]);
  }

  // ---- whole streams ----

  ghost predicate ItemsOk(items: seq<Item>) {
    forall i :: 0 <= i < |items| ==> ItemOk(items[i])
  }

  ghost function EncAll(items: seq<Item>): (s: Bytes)
    requires ItemsOk(items)
  {
    if items == [] then [] else EncItem(items[0]) + EncAll(items[1..])
  }

  method MarshalAll(buf: Evbuffer, items: seq<Item>)
    requires Ready(buf) && ItemsOk(items) && |buf.Contents()| + |EncAll(items)| <= SIZE_MAX
    modifies buf`first, buf`last, buf`lastWithDataOwner, buf`totalLen, buf`view, buf.view.chains
    ensures Ready(buf) && NewChains(old(buf.view.chains), buf.view.chains)
    ensures buf.Contents() == old(buf.Contents()) + EncAll(items)
    decreases |items|
  {
    hide Join, Evbuffer.Valid, EncItem;
    if items != [] {
      ghost var c := buf.Contents();
      Marshal(buf, items[0]);
      MarshalAll(buf, items[1..]);
      assert c + EncItem(items[0]) + EncAll(items[1..]) == c + EncAll(items);
    }
  }

  /** Unmarshals until the buffer is empty or an item is malformed. */
  method UnmarshalAll(buf: Evbuffer) returns (out: seq<Item>)
    requires Ready(buf)
    modifies buf`first, buf`last, buf`lastWithDataOwner, buf`totalLen, buf`view, buf.view.chains
    ensures Ready(buf) && NewChains(old(buf.view.chains), buf.view.chains)
    ensures forall items :: ItemsOk(items) && old(buf.Contents()) == EncAll(items) ==> out == items && buf.Contents() == []
    decreases |buf.Contents()|
  {
    hide Join, Evbuffer.Valid, EncItem, EncAll, DecHeader;
    ghost var c := buf.Contents();
    TotalOf(buf);
    NoItems();
    if buf.totalLen == 0 { return []; }
    var r, tag, payload := Unmarshal(buf);
    forall items | ItemsOk(items) && c == EncAll(items)
      ensures r != -1 && items != [] && items[0] == Item(tag, payload) && buf.Contents() == EncAll(items[1..])
    {
      FirstItem(items, c);
    }
    if r == -1 { return []; }
    var rest := UnmarshalAll(buf);
    out := [Item(tag, payload)] + rest;
    forall items | ItemsOk(items) && c == EncAll(items) ensures out == items {
      assert ItemsOk(items[1..]);
      assert items == [items[0]] + items[1..];
    }
  }

  lemma NoItems()
    ensures forall items :: ItemsOk(items) && EncAll(items) == [] ==> items == []
  {
  }

  /** The first of a list of items, as the stream has it. */
  lemma FirstItem(items: seq<Item>, c: Bytes)
    requires ItemsOk(items) && c == EncAll(items) && c != []
    ensures items != [] && ItemsOk(items[1..]) && var x := items[0]; var h := DecHeader(c);
      && h.Some? && h.value.tag == x.tag && h.value.len + h.value.payload <= |c|
      && c[h.value.len..h.value.len + h.value.payload] == x.payload
      && c[h.value.len + h.value.payload..] == EncAll(items[1..])
  {
    hide EncItem, DecHeader;
    assert EncItem(items[0]) <= c;
    ItemHeader(items[0], c);
  }

  /** Marshalling a list and unmarshalling until the buffer is empty gives the list back. */
  method StreamRoundTrip(items: seq<Item>) returns (out: seq<Item>)
    requires ItemsOk(items) && |EncAll(items)| <= SIZE_MAX
    ensures out == items
  {
    hide Join, Evbuffer.Valid, EncItem, EncAll;
    var buf := new Evbuffer();
    assert Ready(buf) by { TotalOf(buf); }
    MarshalAll(buf, items);
    assert buf.Contents() == EncAll(items);
    out := UnmarshalAll(buf);
  }

  // ---- a known stream ----

  lemma KnownCodes()
    ensures EncTag(129) == [0x81, 0x01] && EncTag(1) == [0x01]
    ensures 0x123 < Pow16(8) && 0x123 < Pow16(16) && EncInt(1) == [0x01] && EncInt(2) == [0x02] && EncInt(0x123) == [0x23, 0x21]
  {
    LengthFits(0x123);
    assert EncTag(1) == [0x01];
    assert Nibbles(1) == 1 && Nibbles(2) == 1 && Nibbles(0x12) == 2 && Nibbles(0x123) == 3;
    assert Shr(0x123, 1) == 0x12 && Shr(0x123, 2) == 0x1;
    assert EncByte(0x123, 3, 0) == 0x23 && EncByte(0x123, 3, 1) == 0x21;
    assert EncByte(1, 1, 0) == 0x01 && EncByte(2, 1, 0) == 0x02;
  }

  /** The item 129 with one byte of data, and the number 0x123 as item 1. */
  method KnownStream() returns (buf: Evbuffer)
    ensures buf.Valid() && buf.Contents() == [0x81, 0x01, 0x01, 0x07, 0x01, 0x02, 0x23, 0x21]
  {
    KnownCodes();
    hide Join, Evbuffer.Valid, EncTag, EncInt, EncItem, Pow16, Marshalled;
    buf := new Evbuffer();
    var x, y := Item(129, [7]), Item(1, [0x23, 0x21]);
    ItemParts(x);
    ItemParts(y);
    TotalOf(buf);
    Marshal(buf, x);
    MarshalInt(buf, 1, 0x123, 8);
  }
}
