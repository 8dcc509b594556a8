/**
 * DNS queries as messages: the builder of a request, the question section of a
 * server's response, and the parser of a request, from evdns.c.
 */
module DnsMessages {
  import opened Flat
  import opened Wrappers
  import opened DnsNames

  type U16 = n: nat | n < 0x10000

  datatype Question = Question(name: Bytes, kind: U16, qclass: U16)

  datatype Request = Rejected | Request(transId: U16, flags: U16, questions: seq<Question>)

  function Get16(p: Bytes, i: nat): (x: U16)
    requires i + 2 <= |p|
  {
    p[i] as int * 256 + p[i + 1] as int
  }

  function Bytes16(x: U16): (b: Bytes)
    ensures |b| == 2 && Get16(b, 0) == x
  {
    [(x / 256) as Byte, (x % 256) as Byte]
  }

  /** A name that survives the trip: no empty label and short enough for the parser's buffer. */
  ghost predicate Sound(name: Bytes) {
    Good(name) && 0 !in name && |name| <= 255
  }

  ghost predicate AllSound(qs: seq<Question>) {
    forall i :: 0 <= i < |qs| ==> Sound(qs[i].name)
  }

  /** From `pos` to `end`, message `p` holds the question `x`. */
  ghost predicate QuestionAt(p: Bytes, pos: nat, x: Question, end: nat) {
    var e := EndOf(p, pos, Stem(x.name));
    0 < e && e + 4 == end <= |p| && Get16(p, e) == x.kind && Get16(p, e + 2) == x.qclass
  }

  /** From `pos` to `end`, message `p` holds the questions `qs`. */
  ghost predicate Section(p: Bytes, pos: nat, qs: seq<Question>, end: nat)
    decreases |qs|
  {
    if qs == [] then pos == end else
      var e := EndOf(p, pos, Stem(qs[0].name)) + 4;
      QuestionAt(p, pos, qs[0], e) && Section(p, e, qs[1..], end)
  }

  /** A message with the given header fields and questions. */
  ghost predicate Holds(p: Bytes, transId: U16, flags: U16, qs: seq<Question>) {
    && 12 <= |p| && |qs| < 0x10000
    && Get16(p, 0) == transId && Get16(p, 2) == flags && Get16(p, 4) == |qs|
    && Section(p, 12, qs, |p|)
  }

  lemma QuestionKept(p: Bytes, q: Bytes, pos: nat, x: Question, end: nat)
    requires QuestionAt(p, pos, x, end) && p <= q
    ensures QuestionAt(q, pos, x, end)
  {
    StoredLater(Entry(x.name, pos), p, q);
  }

  lemma SectionCons(p: Bytes, pos: nat, qs: seq<Question>)
    ensures qs == [] ==> forall end: nat :: Section(p, pos, qs, end) <==> pos == end
    ensures qs != [] ==> forall e: nat, end: nat ::
      QuestionAt(p, pos, qs[0], e) ==> (Section(p, pos, qs, end) <==> Section(p, e, qs[1..], end))
    ensures qs != [] ==> forall end: nat :: Section(p, pos, qs, end) ==> QuestionAt(p, pos, qs[0], EndOf(p, pos, Stem(qs[0].name)) + 4)
  {
  }

  /** Writing one more question changes nothing in the ones before it. */
  lemma {:induction false} SectionSnoc(p: Bytes, q: Bytes, pos: nat, qs: seq<Question>, x: Question)
    requires Section(p, pos, qs, |p|) && p <= q && QuestionAt(q, |p|, x, |q|)
    ensures Section(q, pos, qs + [x], |q|)
    decreases |qs|
  {
    hide Section, QuestionAt, EndOf, Stem;
    SectionCons(p, pos, qs);
    SectionCons(q, pos, qs + [x]);
    if qs == [] {
      assert (qs + [x])[0] == x && (qs + [x])[1..] == [];
      SectionCons(q, |q|, []);
    } else {
      assert (qs + [x])[0] == qs[0] && (qs + [x])[1..] == qs[1..] + [x];
      var e := EndOf(p, pos, Stem(qs[0].name)) + 4;
      QuestionKept(p, q, pos, qs[0], e);
      SectionSnoc(p, q, e, qs[1..], x);
    }
  }

  /** APPEND16: nothing is written when the buffer is full. */
  method Append16(buf: array<Byte>, bufLen: nat, j: nat, x: U16) returns (r: int)
    requires bufLen <= buf.Length
    modifies buf
    ensures r == if j + 2 > bufLen then -1 else j + 2
    ensures r >= 0 ==> buf[..r] == old(buf[..j]) + Bytes16(x)
  {
    if j + 2 > bufLen { return -1; }
    CopyInto(buf, j, Bytes16(x));
    return j + 2;
  }

  /** The twelve bytes of the header, for messages whose other three counts are given. */
  method AppendHeader(buf: array<Byte>, bufLen: nat, fields: seq<U16>) returns (r: int)
    requires bufLen <= buf.Length && |fields| == 6
    modifies buf
    ensures r == if bufLen < 12 then -1 else 12
    ensures r >= 0 ==> forall k :: 0 <= k < 6 ==> Get16(buf[..12], 2 * k) == fields[k]
  {
    r := 0;
    for i := 0 to 6
      invariant r == 2 * i <= buf.Length && r <= bufLen
      invariant forall k :: 0 <= k < i ==> Get16(buf[..r], 2 * k) == fields[k]
    {
      ghost var p := buf[..r];
      r := Append16(buf, bufLen, r, fields[i]);
      if r < 0 { return; }
      forall k | 0 <= k < i + 1 ensures Get16(buf[..r], 2 * k) == fields[k] {
        if k < i { assert Get16(buf[..r], 2 * k) == Get16(p, 2 * k); }
      }
    }
  }

  /** One question: the name, its type and its class. */
  method AddQuestion(buf: array<Byte>, bufLen: nat, j: nat, x: Question, table: LabelTable?) returns (r: int)
    requires j <= bufLen <= buf.Length
    requires 0 !in x.name
    requires table != null ==> bufLen <= 0x4000
    requires TableOk(Labels(table), buf[..j])
    modifies buf, table
    ensures r >= 0 <==>
      |x.name| <= 255 && !LongSpelled(old(Labels(table)), x.name) && j + PackedLen(old(Labels(table)), x.name) + 4 <= bufLen
    ensures r == OUTSIDE <==> |x.name| <= 255 && !LongSpelled(old(Labels(table)), x.name)
                               && Beyond(buf.Length, bufLen, j, old(Labels(table)), x.name)
    ensures r >= 0 ==> j < r <= bufLen && r == j + PackedLen(old(Labels(table)), x.name) + 4
    ensures r >= 0 ==> old(buf[..j]) <= buf[..r] && TableOk(Labels(table), buf[..r])
    ensures r >= 0 && NoInnerEmpty(x.name) ==> QuestionAt(buf[..r], j, x, r)
    ensures r >= 0 ==> buf[r - 4] as int * 256 + buf[r - 3] as int == x.kind && buf[r - 2] as int * 256 + buf[r - 1] as int == x.qclass
  {
    hide EndOf, Stem, TableOk, PackedLen, LongSpelled, EndsSpelled, NoInnerEmpty;
    r := ToLabels(buf, bufLen, j, x.name, table);
    if r < 0 { return; }
    ghost var p := buf[..r];
    var e := r;
    r := Append16(buf, bufLen, e, x.kind);
    if r < 0 { return; }
    r := Append16(buf, bufLen, r, x.qclass);
    if r < 0 { return; }
    StillStored(x.name, j, p, buf[..r], Labels(table));
    LastFour(buf[..r], p, x.kind, x.qclass);
  }

  /** Numbers are written with the high byte first. */
  lemma LastFour(q: Bytes, p: Bytes, x: U16, y: U16)
    requires q == p + Bytes16(x) + Bytes16(y)
    ensures q[|q| - 4] as int * 256 + q[|q| - 3] as int == x && q[|q| - 2] as int * 256 + q[|q| - 1] as int == y
  {
    assert q[|p|..|p| + 2] == Bytes16(x) && q[|p| + 2..] == Bytes16(y);
  }

  lemma StillStored(name: Bytes, start: nat, p: Bytes, q: Bytes, labels: seq<Entry>)
    requires Printed(name, start, p, labels) && p <= q
    ensures TableOk(labels, q)
    ensures EndOf(q, start, Stem(name)) == EndOf(p, start, Stem(name))
  {
    hide EndOf, Stem;
    forall i | 0 <= i < |labels| ensures Stored(labels[i], q) { StoredLater(labels[i], p, q); }
    StoredLater(Entry(name, start), p, q);
  }

  /** The bytes the questions take at most. */
  ghost function Need(qs: seq<Question>): (n: nat) {
    if qs == [] then 0 else |qs[0].name| + 6 + Need(qs[1..])
  }

  ghost predicate Spellable(qs: seq<Question>) {
    forall i :: 0 <= i < |qs| ==> |qs[i].name| <= 255 && !LongSpelled([], qs[i].name)
  }

  /**
   * The loop of evdns_server_request_format_response over the questions; they share one table.
   * A name whose zero belongs behind the array does not fit, and stops it.
   */
  method AddQuestions(buf: array<Byte>, bufLen: nat, j: nat, qs: seq<Question>, table: LabelTable) returns (r: int)
    requires j <= bufLen <= buf.Length && bufLen <= 0x4000
    requires forall i :: 0 <= i < |qs| ==> Good(qs[i].name) && 0 !in qs[i].name
    requires TableOk(table.labels, buf[..j])
    modifies buf, table
    ensures Spellable(qs) && j + Need(qs) <= bufLen ==> r >= 0
    ensures r >= 0 ==> j <= r <= bufLen && old(buf[..j]) <= buf[..r] && TableOk(table.labels, buf[..r])
    ensures r >= 0 ==> Section(buf[..r], j, qs, r) && AllSound(qs) && r <= j + Need(qs)
    ensures r == OUTSIDE ==> bufLen == buf.Length
  {
    hide EndOf, Stem, TableOk, NoInnerEmpty, Good, LongSpelled, EndsSpelled, PackedLen, QuestionAt, Section;
    r := j;
    assert qs[0..] == qs && qs[..0] == [];
    SectionCons(buf[..r], j, []);
    for i := 0 to |qs|
      invariant j <= r <= bufLen && old(buf[..j]) <= buf[..r] && TableOk(table.labels, buf[..r])
      invariant Section(buf[..r], j, qs[..i], r) && AllSound(qs[..i]) && r + Need(qs[i..]) <= j + Need(qs)
    {
      ghost var p := buf[..r];
      GoodNoInnerEmpty(qs[i].name);
      DropDrop(qs, i, 1);
      if LongSpelled(table.labels, qs[i].name) { LongAnyway(table.labels, qs[i].name); }
      r := AddQuestion(buf, bufLen, r, qs[i], table);
      if r < 0 { return; }
      SectionSnoc(p, buf[..r], j, qs[..i], qs[i]);
      assert qs[..i + 1] == qs[..i] + [qs[i]];
    }
    assert qs[..|qs|] == qs;
  }

  lemma {:induction false} GoodNoInnerEmpty(s: Bytes)
    requires Good(s)
    ensures NoInnerEmpty(s)
  {
    if FirstDot(s) < |s| { GoodNoInnerEmpty(s[FirstDot(s) + 1..]); }
  }

  /** evdns_request_data_build. */
  method RequestBuild(name: Bytes, transId: U16, kind: U16, qclass: U16, buf: array<Byte>, bufLen: nat) returns (r: int)
    requires bufLen <= buf.Length && 0 !in name
    modifies buf
    ensures r >= 0 <==> |name| <= 255 && !LongSpelled([], name) && 12 + PackedLen([], name) + 4 <= bufLen
    ensures r >= 0 ==> r == 12 + PackedLen([], name) + 4
    ensures r >= 0 && Good(name) ==> Holds(buf[..r], transId, 0x0100, [Question(name, kind, qclass)])
    ensures r >= 0 ==> buf[0] as int * 256 + buf[1] as int == transId && buf[2..6] == [1, 0, 0, 1] && buf[6..12] == [0, 0, 0, 0, 0, 0]
    ensures r >= 0 ==> buf[r - 4] as int * 256 + buf[r - 3] as int == kind && buf[r - 2] as int * 256 + buf[r - 1] as int == qclass
  {
    hide EndOf, Stem, NoInnerEmpty, Good, LongSpelled, EndsSpelled, PackedLen, QuestionAt;
    r := AppendHeader(buf, bufLen, [transId, 0x0100, 1, 0, 0, 0]);
    if r < 0 { return; }
    ghost var p := buf[..12];
    var x := Question(name, kind, qclass);
    r := AddQuestion(buf, bufLen, 12, x, null);
    if r < 0 { return; }
    HeaderBytes(p, buf[..r], transId);
    assert buf[2..6] == buf[..r][2..6] && buf[6..12] == buf[..r][6..12];
    if Good(name) {
      GoodNoInnerEmpty(name);
      ghost var q := buf[..r];
      HeaderKept(p, q, [transId, 0x0100, 1, 0, 0, 0]);
      SectionSnoc(p, q, 12, [], x);
      assert [] + [x] == [x];
    }
  }

  lemma HeaderBytes(p: Bytes, q: Bytes, transId: U16)
    requires |p| == 12 && p <= q && forall k :: 0 <= k < 6 ==> Get16(p, 2 * k) == [transId, 0x0100, 1, 0, 0, 0][k]
    ensures q[0] as int * 256 + q[1] as int == transId && q[2..6] == [1, 0, 0, 1] && q[6..12] == [0, 0, 0, 0, 0, 0]
  {
    assert Get16(p, 2 * 0) == transId && Get16(p, 2 * 1) == 256 && Get16(p, 2 * 2) == 1;
    assert Get16(p, 2 * 3) == 0 && Get16(p, 2 * 4) == 0 && Get16(p, 2 * 5) == 0;
    assert p == q[..12];
  }

  lemma HeaderKept(p: Bytes, q: Bytes, fields: seq<U16>)
    requires |p| == 12 && p <= q && |fields| == 6
    requires forall k :: 0 <= k < 6 ==> Get16(p, 2 * k) == fields[k]
    ensures Get16(q, 0) == fields[0] && Get16(q, 2) == fields[1] && Get16(q, 4) == fields[2]
  {
    assert Get16(p, 2 * 0) == fields[0] && Get16(p, 2 * 1) == fields[1] && Get16(p, 2 * 2) == fields[2];
  }

  // ---- parsing a request ----

  /** What a C string that starts with these bytes ends with at the latest. */
  function BeforeZero(s: Bytes): (t: Bytes) {
    if s == [] || s[0] == 0 then [] else [s[0]] + BeforeZero(s[1..])
  }

  lemma {:induction false} BeforeZeroAt(s: Bytes, n: nat)
    requires n <= |s| && 0 !in s[..n] && (n < |s| ==> s[n] == 0)
    ensures BeforeZero(s) == s[..n]
  {
    if n > 0 {
      assert s[0] == s[..n][0];
      assert s[1..][..n - 1] == s[..n][1..] && s[..n] == [s[0]] + s[..n][1..];
      BeforeZeroAt(s[1..], n - 1);
    }
  }

  /** strlen, on an array that holds `text` and a zero. */
  method Strlen(a: array<Byte>, ghost text: Bytes) returns (n: nat)
    requires |text| < a.Length && a[..|text| + 1] == text + [0]
    ensures n < a.Length && a[..n] == BeforeZero(text)
  {
    hide BeforeZero;
    n := 0;
    assert a[|text|] == a[..|text| + 1][|text|] == 0;
    assert a[..|text|] == a[..|text| + 1][..|text|] == text;
    while a[n] != 0
      invariant n <= |text| && forall k :: 0 <= k < n ==> text[k] != 0
      decreases |text| - n
    {
      assert a[n] == a[..|text|][n];
      n := n + 1;
    }
    if n < |text| { assert a[n] == a[..|text|][n]; }
    BeforeZeroAt(text, n);
    assert a[..n] == a[..|text|][..n];
  }

  datatype Taken = Taken(x: Question, next: nat)

  /** The question that a message has at `pos`, however its name is put together: cut at a zero, at most 255 bytes. */
  ghost function ReadQuestion(p: Bytes, pos: nat): (r: Option<Taken>)
    ensures r.Some? ==> r.value.next <= |p|
  {
    var w := Walk(p, pos, |p|);
    var e := EndInPlace(p, pos);
    if w.None? || |Dotted(w.value)| > 255 || e + 4 > |p| then None
    else Some(Taken(Question(BeforeZero(Dotted(w.value)), Get16(p, e), Get16(p, e + 2)), e + 4))
  }

  ghost function ReadAll(p: Bytes, pos: nat, n: nat): (r: Option<seq<Question>>)
    decreases n
  {
    if n == 0 then Some([]) else
      var q := ReadQuestion(p, pos);
      if q.None? then None else Prefixed([q.value.x], ReadAll(p, q.value.next, n - 1))
  }

  ghost function Prefixed(qs: seq<Question>, r: Option<seq<Question>>): (t: Option<seq<Question>>) {
    if r.None? then None else Some(qs + r.value)
  }

  /** A well-formed section is read as its questions. */
  lemma {:induction false} SectionRead(p: Bytes, pos: nat, qs: seq<Question>, end: nat)
    requires Section(p, pos, qs, end) && AllSound(qs)
    ensures ReadAll(p, pos, |qs|) == Some(qs)
    decreases |qs|
  {
    hide EndOf, Stem, Dotted, Good, Walk, EndInPlace;
    if qs != [] {
      var x := qs[0];
      var e := EndOf(p, pos, Stem(x.name)) + 4;
      assert Sound(x.name);
      DottedStem(x.name);
      EndOfWalks(p, pos, Stem(x.name), |p|);
      assert x.name[..|x.name|] == x.name;
      BeforeZeroAt(x.name, |x.name|);
      SectionRead(p, e, qs[1..], end);
      assert [x] + qs[1..] == qs;
    }
  }

  /** A question's type and class are the four bytes before its end, each with the high byte first. */
  ghost predicate EndsIn(p: Bytes, end: nat, x: Question) {
    && 4 <= end <= |p| && x.kind == p[end - 4] as int * 256 + p[end - 3] as int
    && x.qclass == p[end - 2] as int * 256 + p[end - 1] as int
  }

  /** One turn of the loop of request_parse over the questions. */
  method ParseQuestion(packet: Bytes, j: nat) returns (ok: bool, x: Question, next: nat)
    requires j <= |packet|
    ensures (if ok then Some(Taken(x, next)) else None) == ReadQuestion(packet, j)
    ensures ok ==> j + 4 < next <= |packet| && EndsIn(packet, next, x)
  {
    hide EndOf, Walk, Dotted, EndInPlace, BeforeZero;
    x, next := Question([], 0, 0), j;
    var tmp := new Byte[256];
    ok, next := NameParse(packet, j, tmp);
    if !ok { return; }
    if next + 2 > |packet| { return false, x, next; }
    var kind := Get16(packet, next);
    next := next + 2;
    if next + 2 > |packet| { return false, x, next; }
    var qclass := Get16(packet, next);
    next := next + 2;
    var n := Strlen(tmp, Dotted(Walk(packet, j, |packet|).value));
    x := Question(tmp[..n], kind, qclass);
  }

  /** request_parse's loop over the questions. */
  method ParseQuestions(packet: Bytes, j: nat, count: nat) returns (ok: bool, qs: seq<Question>, ghost ends: seq<nat>)
    requires j <= |packet|
    ensures (if ok then Some(qs) else None) == ReadAll(packet, j, count)
    ensures ok ==> |qs| == |ends| == count && (forall i :: 0 <= i < count ==> EndsIn(packet, ends[i], qs[i]))
    ensures ok ==> (forall i :: 0 <= i < count ==> j < ends[i] <= |packet|) && forall i, m :: 0 <= i < m < count ==> ends[i] < ends[m]
  {
    hide ReadQuestion, EndsIn;
    qs, ends := [], [];
    var k: nat := j;
    PrefixedNone(ReadAll(packet, j, count));
    for i := 0 to count
      invariant k <= |packet| && ReadAll(packet, j, count) == Prefixed(qs, ReadAll(packet, k, count - i))
      invariant |qs| == |ends| == i && j <= k
      invariant forall m :: 0 <= m < i ==> EndsIn(packet, ends[m], qs[m])
      invariant (forall m :: 0 <= m < i ==> j < ends[m] <= k) && forall m, n :: 0 <= m < n < i ==> ends[m] < ends[n]
    {
      var x, next;
      ok, x, next := ParseQuestion(packet, k);
      if !ok { return; }
      PrefixedTwice(qs, x, ReadAll(packet, next, count - i - 1));
      qs, ends := qs + [x], ends + [next];
      k := next;
    }
    assert qs + [] == qs;
    ok := true;
  }

  lemma PrefixedNone(r: Option<seq<Question>>)
    ensures Prefixed([], r) == r
  {
    if r.Some? { assert [] + r.value == r.value; }
  }

  lemma PrefixedTwice(qs: seq<Question>, x: Question, r: Option<seq<Question>>)
    ensures Prefixed(qs, Prefixed([x], r)) == Prefixed(qs + [x], r)
  {
    if r.Some? { Assoc(qs, [x], r.value); }
  }

  /** Of a query's flags only RD and CD are kept. */
  function KeptFlags(flags: U16): (r: U16) {
    flags / 0x100 % 2 * 0x100 + flags / 0x10 % 2 * 0x10
  }

  /**
   * request_parse, up to the user's callback. A query without questions is refused, because the
   * library's calloc returns nothing for no elements. The test for a non-standard query reads
   * flags that KeptFlags has already cleared, so its branch is never taken.
   */
  method RequestParse(packet: Bytes) returns (req: Request, ghost ends: seq<nat>)
    ensures req == Parse(packet)
    ensures req.Request? ==> |packet| >= 12 && packet[2] < 128 && req.transId == packet[0] as int * 256 + packet[1] as int
    ensures req.Request? ==> req.flags == (if packet[2] % 2 == 1 then 0x100 else 0) + (if packet[3] / 16 % 2 == 1 then 0x10 else 0)
    ensures req.Request? ==> |req.questions| == |ends| == packet[4] as int * 256 + packet[5] as int > 0
    ensures req.Request? ==> forall i :: 0 <= i < |ends| ==> 12 < ends[i] <= |packet| && EndsIn(packet, ends[i], req.questions[i])
    ensures forall i, m :: 0 <= i < m < |ends| && req.Request? ==> ends[i] < ends[m]
    ensures forall transId, flags, qs ::
      Holds(packet, transId, flags, qs) && AllSound(qs)
      ==> req == if flags >= 0x8000 || qs == [] then Rejected else Request(transId, KeptFlags(flags), qs)
  {
    HoldsParsed(packet);
    hide Holds, AllSound, ReadAll, EndsIn, KeptFlags;
    ends := [];
    req := Rejected;
    if |packet| < 12 { return; }
    var flags := Get16(packet, 2);
    if flags >= 0x8000 { return; }
    var count := Get16(packet, 4);
    if count == 0 { return; }
    var ok, qs;
    ok, qs, ends := ParseQuestions(packet, 12, count);
    if !ok { return; }
    KeptBits(packet[2], packet[3]);
    req := Request(Get16(packet, 0), KeptFlags(flags), qs);
  }

  lemma HoldsParsed(packet: Bytes)
    ensures forall transId, flags, qs ::
      Holds(packet, transId, flags, qs) && AllSound(qs)
      ==> Parse(packet) == if flags >= 0x8000 || qs == [] then Rejected else Request(transId, KeptFlags(flags), qs)
  {
    hide Section, ReadAll, KeptFlags;
    forall transId, flags, qs | Holds(packet, transId, flags, qs) && AllSound(qs)
      ensures Parse(packet) == if flags >= 0x8000 || qs == [] then Rejected else Request(transId, KeptFlags(flags), qs)
    {
      SectionRead(packet, 12, qs, |packet|);
    }
  }

  /** Bit 0 of the first byte of the flags, and bit 4 of the second. */
  lemma KeptBits(high: Byte, low: Byte)
    ensures KeptFlags(high as int * 256 + low as int)
      == (if high % 2 == 1 then 0x100 else 0) + (if low / 16 % 2 == 1 then 0x10 else 0)
  {
    var flags := high as int * 256 + low as int;
    assert flags / 0x100 == high as int && flags / 0x10 == high as int * 16 + low as int / 16;
  }

  /** What a message is read as, well formed or not. */
  ghost function Parse(packet: Bytes): (req: Request) {
    if |packet| < 12 || Get16(packet, 2) >= 0x8000 || Get16(packet, 4) == 0 then Rejected else
      var qs := ReadAll(packet, 12, Get16(packet, 4));
      if qs.None? then Rejected else Request(Get16(packet, 0), KeptFlags(Get16(packet, 2)), qs.value)
  }

  // ---- a known message ----

  /** The name "a.b". */
  lemma TwoLabels()
    ensures FirstDot([98]) == 1 && FirstDot([97, 46, 98]) == 1 && Stem([98]) == [[98]] && Stem([97, 46, 98]) == [[97], [98]]
    ensures Good([97, 46, 98]) && PackedLen([], [98]) == 3 && PackedLen([], [97, 46, 98]) == 5 && !LongSpelled([], [97, 46, 98])
  {
    var b: Bytes, ab: Bytes := [98], [97, 46, 98];
    assert b[1..] == [] && FirstDot(b[1..]) == 0 && FirstDot(b) == 1;
    assert ab[1..][0] == DOT && FirstDot(ab[1..]) == 0 && FirstDot(ab) == 1;
    assert ab[2..] == b && ab[..1] == [97];
    TextStep([], b);
    TextStep([], ab);
  }

  /** A name spelled out in as many bytes as its labels take has them on the wire one after the other. */
  lemma TwoLabelsSpelled(p: Bytes, pos: nat)
    requires EndOf(p, pos, [[97], [98]]) == pos + 5
    ensures pos + 5 <= |p| && p[pos..pos + 5] == [1, 97, 1, 98, 0]
  {
    hide EndOf;
    var ls: seq<Bytes> := [[97], [98]];
    EndOfCases(p, pos, ls);
    assert ls[1..] == [[98]] && p[pos + 1..pos + 2] == [97] && p[pos + 1] == p[pos + 1..pos + 2][0];
    EndOfCases(p, pos + 2, [[98]]);
    assert [[98]][1..] == [] && p[pos + 3..pos + 4] == [98] && p[pos + 3] == p[pos + 3..pos + 4][0];
    EndOfCases(p, pos + 4, []);
  }

  /** The query 0x1234 for the addresses of "a.b". */
  method KnownQuery() returns (buf: array<Byte>, r: int)
    ensures buf.Length == 32 && r == 21
    ensures buf[..21] == [0x12, 0x34, 1, 0, 0, 1, 0, 0, 0, 0, 0, 0, 1, 97, 1, 98, 0, 0, 1, 0, 1]
  {
    hide EndOf, Stem, PackedLen, LongSpelled, Good;
    TwoLabels();
    buf := new Byte[32](_ => 0);
    r := RequestBuild([97, 46, 98], 0x1234, 1, 1, buf, 32);
    ghost var q := buf[..21];
    OnlyQuestion(q, Question([97, 46, 98], 1, 1));
    TwoLabelsSpelled(q, 12);
    InFive(q, buf[..2], buf[2..6], buf[6..12], q[12..17], buf[17..21]);
  }

  lemma OnlyQuestion(q: Bytes, x: Question)
    requires Section(q, 12, [x], |q|)
    ensures EndOf(q, 12, Stem(x.name)) + 4 == |q|
  {
    hide EndOf, Stem;
    assert [x][1..] == [];
    SectionCons(q, |q|, []);
  }

  lemma InFive(q: Bytes, a: Bytes, b: Bytes, c: Bytes, d: Bytes, e: Bytes)
    requires |q| == 21 && a == q[..2] && b == q[2..6] && c == q[6..12] && d == q[12..17] && e == q[17..21]
    requires a[0] as int * 256 + a[1] as int == 0x1234 && b == [1, 0, 0, 1] && c == [0, 0, 0, 0, 0, 0] && d == [1, 97, 1, 98, 0]
    requires e[0] as int * 256 + e[1] as int == 1 && e[2] as int * 256 + e[3] as int == 1
    ensures q == [0x12, 0x34, 1, 0, 0, 1, 0, 0, 0, 0, 0, 0, 1, 97, 1, 98, 0, 0, 1, 0, 1]
  {
    assert q == a + b + c + d + e;
    assert a == [0x12, 0x34] && e == [0, 1, 0, 1];
  }

  /** Of all places in a message with nothing but zeros before it, "a.b" is only where it was spelled. */
  lemma OnlyThere(p: Bytes, t: nat)
    requires |p| >= 263 && (forall i :: 0 <= i < 258 ==> p[i] == 0) && p[258..263] == [1, 97, 1, 98, 0]
    requires t < 263 && EndOf(p, t, [[97], [98]]) > 0
    ensures t == 258
  {
    hide EndOf;
    var ls: seq<Bytes> := [[97], [98]];
    var w := p[258..263];
    assert p[258] == w[0] && p[259] == w[1] && p[260] == w[2] && p[261] == w[3] && p[262] == w[4];
    EndOfCases(p, t, ls);
  }

  /** A second "a.b", behind the first, is a pointer to offset 258. */
  method KnownPointer() returns (buf: array<Byte>, r: int)
    ensures buf.Length == 300 && r == 265 && buf[258..265] == [1, 97, 1, 98, 0, 0xc1, 0x02]
  {
    hide EndOf, Stem, PackedLen, LongSpelled, Good, EndsSpelled, TableOk, AllIn, Printed;
    TwoLabels();
    buf := new Byte[300](_ => 0);
    var table := new LabelTable();
    ghost var zeros := buf[..258];
    EmptyTable(zeros);
    var name: Bytes := [97, 46, 98];
    r := ToLabels(buf, 300, 258, name, table);
    ghost var p := buf[..263];
    SpelledThere(p, table.labels, zeros);
    Reused(table.labels, name);
    r := ToLabels(buf, 300, 263, name, table);
    PointsThere(p, buf[..265], table.labels);
    assert buf[258..265] == buf[..265][258..265];
  }

  lemma SpelledThere(p: Bytes, labels: seq<Entry>, zeros: Bytes)
    requires Printed([97, 46, 98], 258, p, labels) && |p| == 263 && zeros <= p && |zeros| == 258 && forall i :: 0 <= i < 258 ==> zeros[i] == 0
    ensures TableOk(labels, p) && (forall i :: 0 <= i < 258 ==> p[i] == 0) && p[258..263] == [1, 97, 1, 98, 0]
  {
    hide EndOf, Stem;
    TwoLabels();
    GoodNoInnerEmpty([97, 46, 98]);
    TwoLabelsSpelled(p, 258);
    assert zeros == p[..258];
  }

  lemma PointsThere(p: Bytes, q: Bytes, labels: seq<Entry>)
    requires |p| == 263 && (forall i :: 0 <= i < 258 ==> p[i] == 0) && p[258..263] == [1, 97, 1, 98, 0]
    requires p <= q && |q| == 265 && Printed([97, 46, 98], 263, q, labels)
    ensures q[258..265] == [1, 97, 1, 98, 0, 0xc1, 0x02]
  {
    hide EndOf, Stem;
    TwoLabels();
    GoodNoInnerEmpty([97, 46, 98]);
    assert p == q[..263] && q[258..263] == p[258..263];
    var ls: seq<Bytes> := [[97], [98]];
    EndOfCases(q, 263, ls);
    OnlyThere(q, PointerTarget(q, 263));
    assert q[258..265] == q[258..263] + [q[263], q[264]];
  }

  lemma Reused(labels: seq<Entry>, name: Bytes)
    requires AllIn([], labels, name)
    ensures PackedLen(labels, name) == 2 && !LongSpelled(labels, name) && !EndsSpelled(labels, name)
  {
  }

  lemma EmptyTable(p: Bytes)
    ensures TableOk([], p)
  {
  }
}
