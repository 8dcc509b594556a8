/**
 * The integers of the tagged stream (event_tagging.c): tags in groups of seven bits,
 * and numbers in nibbles behind a nibble that counts them.
 */
module TagCodec {
  import opened Flat
  import opened Wrappers

  /** A decoded number and the bytes it took. */
  datatype Decoded = Decoded(len: nat, number: nat)

  // ---- nibbles ----

  function Shr(x: nat, k: nat): (r: nat)
    ensures r <= x
  {
    if k == 0 then x else Shr(x, k - 1) / 16
  }

  function Pow16(k: nat): (p: nat)
    ensures p > 0
  {
    if k == 0 then 1 else 16 * Pow16(k - 1)
  }

  /** The number of nibbles a number has; none for zero. */
  function Nibbles(x: nat): (n: nat)
    ensures x == 0 <==> n == 0
  {
    if x == 0 then 0 else 1 + Nibbles(x / 16)
  }

  lemma {:induction false} ShrStep(x: nat, k: nat)
    ensures Shr(x, k + 1) == Shr(x / 16, k)
  {
    if k > 0 { ShrStep(x, k - 1); }
  }

  lemma {:induction false} ShrNibbles(x: nat, k: nat)
    ensures Shr(x, k) == 0 <==> Nibbles(x) <= k
    ensures Nibbles(Shr(x, k)) == if Nibbles(x) <= k then 0 else Nibbles(x) - k
  {
    if k > 0 {
      if x == 0 { ShrNibbles(x, k - 1); } else { ShrStep(x, k - 1); ShrNibbles(x / 16, k - 1); }
    }
  }

  lemma {:induction false} NibblesBound(x: nat, k: nat)
    ensures x < Pow16(k) <==> Nibbles(x) <= k
  {
    if k > 0 && x > 0 { NibblesBound(x / 16, k - 1); }
  }

  /** How many nibbles follow the first: even zero has one. */
  function Count(x: nat): (n: nat)
    ensures n >= 1
  {
    if x == 0 then 1 else Nibbles(x)
  }

  /** Byte `i` of an encoding that has got as far as nibble position `off`, before the count is put in. */
  function Cell(x: nat, off: nat, i: nat): (b: Byte) {
    var hi := if 0 < 2 * i < off then Shr(x, 2 * i - 1) % 16 else 0;
    var lo := if 2 * i + 1 < off then Shr(x, 2 * i) % 16 else 0;
    (16 * hi + lo) as Byte
  }

  /** Byte `i` of the encoding of a number of `n` nibbles. */
  function EncByte(x: nat, n: nat, i: nat): (b: Byte)
    requires 1 <= n <= 16
  {
    if i == 0 then (16 * (n - 1) + x % 16) as Byte else Cell(x, n + 1, i)
  }

  /** The encoding of a number. */
  function EncInt(x: nat): (s: Bytes)
    requires x < Pow16(16)
    ensures |s| == Count(x) / 2 + 1 <= 9
  {
    NibblesBound(x, 16);
    hide Pow16, Nibbles;
    var n := Count(x);
    seq(n / 2 + 1, (i: nat) => EncByte(x, n, i))
  }

  /** The nibble at position `p` of a byte string: the upper half of a byte comes first. */
  function NibbleAt(s: Bytes, p: nat): (n: nat)
    requires p / 2 < |s|
    ensures n < 16
  {
    if p % 2 == 0 then s[p / 2] as int / 16 else s[p / 2] as int % 16
  }

  /** The number whose nibbles, least significant first, are those at positions m+1 to n. */
  function Val(s: Bytes, m: nat, n: nat): (x: nat)
    requires n / 2 < |s|
    decreases n - m
  {
    if m >= n then 0 else NibbleAt(s, m + 1) + 16 * Val(s, m + 1, n)
  }

  /** What decode_int_internal makes of the front of `s`; at most `max` nibbles are taken. */
  function DecInt(s: Bytes, max: nat): (r: Option<Decoded>)
    ensures r.Some? ==> 0 < r.value.len <= |s|
  {
    if s == [] then None else
      var n := s[0] as int / 16 + 1;
      if n > max || n / 2 + 1 > |s| then None else Some(Decoded(n / 2 + 1, Val(s, 0, n)))
  }

  lemma {:induction false} ValBound(s: Bytes, m: nat, n: nat)
    requires n / 2 < |s| && m <= n
    ensures Val(s, m, n) < Pow16(n - m)
    decreases n - m
  {
    if m < n { ValBound(s, m + 1, n); }
  }

  /** If the nibbles are those of `x`, the value is `x`. */
  lemma {:induction false} ValShr(s: Bytes, x: nat, m: nat, n: nat)
    requires n / 2 < |s| && m <= n && Shr(x, n) == 0
    requires forall p :: 0 < p <= n ==> NibbleAt(s, p) == Shr(x, p - 1) % 16
    ensures Val(s, m, n) == Shr(x, m)
    decreases n - m
  {
    if m < n { ValShr(s, x, m + 1, n); }
  }

  lemma ShrZero(x: nat)
    ensures Shr(x, 0) == x
  {
  }

  lemma CellNibble(x: nat, n: nat, p: nat)
    requires 1 <= n <= 16 && 0 < p <= n
    ensures var b := EncByte(x, n, p / 2) as int; (if p % 2 == 0 then b / 16 else b % 16) == Shr(x, p - 1) % 16
  {
    ShrZero(x);
    hide Shr;
    var i := p / 2;
    if p % 2 == 0 { assert 2 * i == p; } else { assert 2 * i + 1 == p; }
  }

  lemma EncHeader(x: nat, s: Bytes)
    requires x < Pow16(16) && EncInt(x) <= s
    ensures Count(x) <= 16 && s[0] as int / 16 == Count(x) - 1
  {
    NibblesBound(x, 16);
    hide Pow16, Nibbles;
    assert s[0] == EncInt(x)[0] == EncByte(x, Count(x), 0);
  }

  lemma EncNibble(x: nat, s: Bytes, p: nat)
    requires x < Pow16(16) && EncInt(x) <= s && 0 < p <= Count(x)
    ensures NibbleAt(s, p) == Shr(x, p - 1) % 16
  {
    NibblesBound(x, 16);
    hide Pow16, Nibbles, Shr;
    CellNibble(x, Count(x), p);
    assert p / 2 < |EncInt(x)|;
    assert s[p / 2] == EncInt(x)[p / 2] == EncByte(x, Count(x), p / 2);
  }

  /** Every number survives, whatever follows it in the stream. */
  lemma IntRoundTrip(x: nat, max: nat, s: Bytes)
    requires x < Pow16(max) && 1 <= max <= 16 && (x < Pow16(16) ==> EncInt(x) <= s)
    ensures x < Pow16(16) && DecInt(s, max) == Some(Decoded(|EncInt(x)|, x))
  {
    hide Pow16, Nibbles, Val, EncInt;
    NibblesBound(x, max);
    NibblesBound(x, 16);
    EncHeader(x, s);
    EncValue(x, s);
  }

  lemma EncValue(x: nat, s: Bytes)
    requires x < Pow16(16) && EncInt(x) <= s
    ensures Val(s, 0, Count(x)) == x
  {
    ShrZero(x);
    var n := Count(x);
    ShrNibbles(x, n);
    assert Shr(x, n) == 0;
    hide Pow16, Nibbles, Shr, Val, NibbleAt, EncInt, Count;
    forall p | 0 < p <= n ensures NibbleAt(s, p) == Shr(x, p - 1) % 16 { EncNibble(x, s, p); }
    ValShr(s, x, 0, n);
  }

  /**
   * encode_int_internal and encode_int64_internal, for numbers of up to `max` nibbles:
   * 8 or 16. The array has room for one byte more than the number.
   */
  method EncodeInt(number0: nat, max: nat) returns (data: Bytes)
    requires (max == 8 || max == 16) && number0 < Pow16(max)
    ensures number0 < Pow16(16) && data == EncInt(number0)
    ensures var n := data[0] as int / 16 + 1; |data| == n / 2 + 1 && number0 < Pow16(n) && (n > 1 ==> Pow16(n - 1) <= number0)
    ensures forall p :: 0 < p <= data[0] as int / 16 + 1 && p / 2 < |data| ==>
      (if p % 2 == 0 then data[p / 2] as int / 16 else data[p / 2] as int % 16) == number0 / Pow16(p - 1) % 16
  {
    hide Pow16, Nibbles, Cell, EncInt, EncByte;
    NibblesBound(number0, max);
    NibblesBound(number0, 16);
    var a := new Byte[max / 2 + 1](_ => 0);
    var off := WriteNibbles(a, number0, max);
    WrittenFirst(number0, off);
    var nibbles := if off > 2 then off - 2 else 0;
    a[0] := (a[0] as int % 16 + nibbles % 16 * 16) as Byte;
    data := a[..(off + 1) / 2];
    EncIntIs(number0, data);
    EncIntMeans(number0);
  }

  lemma EncIntIs(x: nat, data: Bytes)
    requires x < Pow16(16) && Count(x) <= 16 && |data| == Count(x) / 2 + 1
    requires forall i :: 0 <= i < |data| ==> data[i] == EncByte(x, Count(x), i)
    ensures data == EncInt(x)
  {
    hide Pow16, Nibbles, EncByte;
  }

  /** The first nibble counts the others, which are the digits of the number, the last one first. */
  lemma EncIntMeans(x: nat)
    requires x < Pow16(16)
    ensures var s := EncInt(x); var n := s[0] as int / 16 + 1;
      && |s| == n / 2 + 1 && x < Pow16(n) && (n > 1 ==> Pow16(n - 1) <= x)
      && forall p :: 0 < p <= n && p / 2 < |s| ==> (if p % 2 == 0 then s[p / 2] as int / 16 else s[p / 2] as int % 16) == x / Pow16(p - 1) % 16
  {
    hide Pow16, Nibbles, EncInt, Shr;
    var s, n := EncInt(x), Count(x);
    EncHeader(x, s);
    CountBound(x);
    forall p | 0 < p <= n && p / 2 < |s|
      ensures (if p % 2 == 0 then s[p / 2] as int / 16 else s[p / 2] as int % 16) == x / Pow16(p - 1) % 16
    {
      EncNibble(x, s, p);
      ShrDiv(x, p - 1);
    }
  }

  lemma CountBound(x: nat)
    ensures x < Pow16(Count(x)) && (Count(x) > 1 ==> Pow16(Count(x) - 1) <= x)
  {
    NibblesBound(x, Count(x));
    NibblesBound(x, Count(x) - 1);
  }

  lemma {:induction false} ShrDiv(x: nat, k: nat)
    ensures Shr(x, k) == x / Pow16(k)
  {
    if k > 0 {
      ShrDiv(x, k - 1);
      DivDiv(x, Pow16(k - 1), 16);
    }
  }

  lemma DivDiv(x: nat, p: nat, q: nat)
    requires p > 0 && q > 0
    ensures p * q > 0 && x / p / q == x / (p * q)
  {
    var a, r := x / p, x % p;
    assert x == p * a + r;
    var b, m := a / q, a % q;
    assert a == q * b + m;
    DivOf(x, p, q, b, m, r);
  }

  lemma DivOf(x: nat, p: nat, q: nat, b: nat, m: nat, r: nat)
    requires m < q && r < p && x == p * (q * b + m) + r
    ensures p * q > 0 && x / (p * q) == b
  {
    Regrouped(p, q, b, m, r);
    DivUnique(b, p * m + r, p * q);
  }

  lemma Regrouped(p: nat, q: nat, b: nat, m: nat, r: nat)
    requires m < q && r < p
    ensures p * (q * b + m) + r == b * (p * q) + (p * m + r) && p * m + r < p * q
  {
    Spread(p, q * b, m);
    Reordered(p, q, b);
    Spread(p, m, q - m);
    AtLeast(p, q - m);
  }

  lemma Spread(p: nat, u: nat, v: nat)
    ensures p * (u + v) == p * u + p * v
  {
  }

  lemma Reordered(p: nat, q: nat, b: nat)
    ensures p * (q * b) == b * (p * q)
  {
  }

  lemma AtLeast(p: nat, k: nat)
    requires k > 0
    ensures p * k >= p
  {
  }

  /** The loop of ENCODE_INT_INTERNAL. */
  method WriteNibbles(a: array<Byte>, number0: nat, max: nat) returns (off: nat)
    requires a.Length == max / 2 + 1 && Nibbles(number0) <= max && max % 2 == 0 && forall i :: 0 <= i < a.Length ==> a[i] == 0
    modifies a
    ensures off == Nibbles(number0) + 1 && forall i :: 0 <= i < a.Length ==> a[i] == Cell(number0, off, i)
  {
    ShrZero(number0);
    CellsNone(number0);
    hide Nibbles, Shr, Cell;
    off := 1;
    var number := number0;
    ShrNibbles(number0, 0);
    while number != 0
      invariant 1 <= off <= Nibbles(number0) + 1 && number == Shr(number0, off - 1)
      invariant forall i :: 0 <= i < a.Length ==> a[i] == Cell(number0, off, i)
      decreases number
    {
      ShrNibbles(number0, off - 1);
      ShrNext(number0, off);
      CellStep(number0, off);
      if off % 2 == 1 {
        a[off / 2] := (a[off / 2] as int / 16 * 16 + number % 16) as Byte;
      } else {
        a[off / 2] := (a[off / 2] as int % 16 + number % 16 * 16) as Byte;
      }
      number := number / 16;
      off := off + 1;
    }
    ShrNibbles(number0, off - 1);
  }

  /** With the count put in, the bytes written are the encoding. */
  lemma WrittenFirst(x: nat, off: nat)
    requires off == Nibbles(x) + 1 <= 17
    ensures var nibbles := if off > 2 then off - 2 else 0;
      nibbles == Count(x) - 1 && (Cell(x, off, 0) as int % 16 + nibbles % 16 * 16) as Byte == EncByte(x, Count(x), 0)
    ensures (off + 1) / 2 == Count(x) / 2 + 1 && forall i: nat :: i > 0 && x > 0 ==> Cell(x, off, i) == EncByte(x, Count(x), i)
  {
    CellFirst(x, off);
    hide Nibbles, Cell;
  }

  lemma ShrNext(x: nat, off: nat)
    requires off >= 1
    ensures Shr(x, off) == Shr(x, off - 1) / 16
  {
  }

  lemma CellsNone(x: nat)
    ensures forall i: nat :: Cell(x, 1, i) == 0
  {
  }

  lemma CellFirst(x: nat, off: nat)
    ensures off > 1 ==> Cell(x, off, 0) as int % 16 == x % 16
    ensures off <= 1 ==> Cell(x, off, 0) == 0
  {
    ShrZero(x);
  }

  /** Writing one more nibble changes one half of one byte. */
  lemma CellStep(x: nat, off: nat)
    requires off >= 1
    ensures forall i: nat :: i != off / 2 ==> Cell(x, off + 1, i) == Cell(x, off, i)
    ensures var b := Cell(x, off, off / 2) as int; var c := Cell(x, off + 1, off / 2) as int;
      if off % 2 == 1 then c == b / 16 * 16 + Shr(x, off - 1) % 16 else c == b % 16 + Shr(x, off - 1) % 16 * 16
  {
    hide Shr;
    forall i: nat | i != off / 2 ensures Cell(x, off + 1, i) == Cell(x, off, i) {
      assert (0 < 2 * i < off + 1 <==> 0 < 2 * i < off) && (2 * i + 1 < off + 1 <==> 2 * i + 1 < off);
    }
    if off % 2 == 1 { assert 2 * (off / 2) + 1 == off; } else { assert 2 * (off / 2) == off; }
  }

  /** The loop of DECODE_INT_INTERNAL, in arithmetic modulo 2 to the 4 `max`. */
  method DecodeNibbles(s: Bytes, n0: nat, max: nat) returns (number: nat)
    requires 1 <= n0 <= max && n0 / 2 < |s|
    ensures number == Val(s, 0, n0) < Pow16(max)
  {
    hide Pow16, Val;
    number := 0;
    var nibbles := n0;
    ValStep(s, n0, n0);
    while nibbles > 0
      invariant 0 <= nibbles <= n0 && number == Val(s, nibbles, n0)
    {
      ValStep(s, nibbles - 1, n0);
      ValBound(s, nibbles - 1, n0);
      PowGrows(n0 - nibbles + 1, max);
      SmallMod(number * 16, Pow16(max));
      number := number * 16 % Pow16(max) + NibbleAt(s, nibbles);
      nibbles := nibbles - 1;
    }
    ValBound(s, 0, n0);
    PowGrows(n0, max);
  }

  lemma ValStep(s: Bytes, m: nat, n: nat)
    requires n / 2 < |s|
    ensures Val(s, m, n) == if m >= n then 0 else NibbleAt(s, m + 1) + 16 * Val(s, m + 1, n)
  {
  }

  lemma SmallMod(a: nat, m: nat)
    requires a < m
    ensures a % m == a
  {
  }

  lemma {:induction false} PowGrows(a: nat, b: nat)
    requires a <= b
    ensures Pow16(a) <= Pow16(b)
  {
    if a < b { PowGrows(a, b - 1); }
  }

  // ---- tags ----

  function EncTag(tag: nat): (s: Bytes)
    ensures |s| >= 1
  {
    if tag < 128 then [tag as Byte] else [(tag % 128 + 128) as Byte] + EncTag(tag / 128)
  }

  /** What decode_tag_internal makes of the bytes from index `i` on: at most five, and 32 bits. */
  function DecTagAt(s: Bytes, i: nat): (r: Option<Decoded>)
    ensures r.Some? ==> i < r.value.len <= |s| && r.value.len <= 5
    decreases 5 - i
  {
    if i >= |s| || i > 4 then None
    else if i == 4 && s[i] % 128 > 15 then None
    else if s[i] < 128 then Some(Decoded(i + 1, s[i] as int))
    else
      var r := DecTagAt(s, i + 1);
      if r.None? then None else Some(Decoded(r.value.len, s[i] as int % 128 + 128 * r.value.number))
  }

  function DecTag(s: Bytes): (r: Option<Decoded>)
    ensures r.Some? ==> 0 < r.value.len <= |s|
  {
    DecTagAt(s, 0)
  }

  /** What is left of 32 bits after `i` groups of seven. */
  function Room(i: nat): (n: nat) {
    if i == 0 then WORD else Room(i - 1) / 128
  }

  lemma RoomAt(i: nat)
    requires i <= 4
    ensures i == 4 ==> Room(i) == 16
    ensures i < 4 ==> Room(i) == 128 * Room(i + 1)
  {
    assert Room(1) == WORD / 128;
    assert Room(2) == Room(1) / 128;
    assert Room(3) == Room(2) / 128;
  }

  lemma EncTagAt(tag: nat, s: Bytes, i: nat)
    requires i <= |s| && EncTag(tag) <= s[i..]
    ensures i < |s| && s[i] as int == if tag < 128 then tag else tag % 128 + 128
    ensures tag < 128 ==> |EncTag(tag)| == 1
    ensures tag >= 128 ==> EncTag(tag / 128) <= s[i + 1..] && |EncTag(tag)| == 1 + |EncTag(tag / 128)|
  {
    assert s[i] == s[i..][0] == EncTag(tag)[0];
    assert s[i + 1..] == s[i..][1..];
  }

  lemma {:induction false} TagFrom(tag: nat, s: Bytes, i: nat)
    requires i <= 4 && tag < Room(i) && i <= |s| && EncTag(tag) <= s[i..]
    ensures DecTagAt(s, i) == Some(Decoded(i + |EncTag(tag)|, tag))
    decreases 4 - i
  {
    hide EncTag, Room;
    RoomAt(i);
    EncTagAt(tag, s, i);
    if tag >= 128 { TagFrom(tag / 128, s, i + 1); }
  }

  /** Every 32-bit tag survives, whatever follows it in the stream. */
  lemma TagRoundTrip(tag: nat, s: Bytes)
    requires tag < WORD && EncTag(tag) <= s
    ensures DecTag(s) == Some(Decoded(|EncTag(tag)|, tag))
  {
    assert s[0..] == s;
    TagFrom(tag, s, 0);
  }

  lemma EncTagShort(tag: nat)
    requires tag < WORD
    ensures |EncTag(tag)| <= 5
  {
    TagRoundTrip(tag, EncTag(tag));
  }

  /** evtag_encode_tag's loop. */
  method EncodeTag(tag0: nat) returns (data: Bytes)
    requires tag0 < WORD
    ensures data == EncTag(tag0) && 1 <= |data| <= 5
    ensures forall i :: 0 <= i < |data| ==> data[i] as int % 128 == tag0 / Pow128(i) % 128 && (data[i] < 128 <==> i == |data| - 1)
    ensures tag0 < Pow128(|data|) && (|data| > 1 ==> Pow128(|data| - 1) <= tag0)
  {
    EncTagShort(tag0);
    EncTagMeans(tag0);
    data := WriteTag(tag0);
  }

  method WriteTag(tag0: nat) returns (data: Bytes)
    ensures data == EncTag(tag0)
  {
    data := [];
    var tag := tag0;
    while true
      invariant EncTag(tag0) == data + EncTag(tag)
      decreases tag
    {
      var lower := tag % 128;
      tag := tag / 128;
      if tag == 0 {
        data := data + [lower as Byte];
        return;
      }
      data := data + [(lower + 128) as Byte];
    }
  }

  function Pow128(k: nat): (p: nat)
    ensures p > 0
  {
    if k == 0 then 1 else 128 * Pow128(k - 1)
  }

  /** Groups of seven bits, the lowest first; all but the last have the upper bit set. */
  lemma {:induction false} EncTagMeans(tag: nat)
    ensures var s := EncTag(tag);
      && (forall i :: 0 <= i < |s| ==> s[i] as int % 128 == tag / Pow128(i) % 128 && (s[i] < 128 <==> i == |s| - 1))
      && tag < Pow128(|s|) && (|s| > 1 ==> Pow128(|s| - 1) <= tag)
  {
    var s := EncTag(tag);
    if tag < 128 {
      assert Pow128(0) == 1 && Pow128(1) == 128;
    } else {
      var t := EncTag(tag / 128);
      EncTagMeans(tag / 128);
      assert s == [(tag % 128 + 128) as Byte] + t;
      hide Pow128, EncTag;
      TagDigits(tag, s, t);
      TagSize(tag, |t|);
    }
  }

  lemma TagDigits(tag: nat, s: Bytes, t: Bytes)
    requires tag >= 128 && s == [(tag % 128 + 128) as Byte] + t && t != []
    requires forall i :: 0 <= i < |t| ==> t[i] as int % 128 == tag / 128 / Pow128(i) % 128 && (t[i] < 128 <==> i == |t| - 1)
    ensures forall i :: 0 <= i < |s| ==> s[i] as int % 128 == tag / Pow128(i) % 128 && (s[i] < 128 <==> i == |s| - 1)
  {
    forall i | 0 <= i < |s| ensures s[i] as int % 128 == tag / Pow128(i) % 128 && (s[i] < 128 <==> i == |s| - 1) {
      if i == 0 {
        assert Pow128(0) == 1;
      } else {
        assert s[i] == t[i - 1];
        DivDiv(tag, 128, Pow128(i - 1));
      }
    }
  }

  lemma TagSize(tag: nat, n: nat)
    requires n >= 1 && tag / 128 < Pow128(n) && (n > 1 ==> Pow128(n - 1) <= tag / 128) && tag >= 128
    ensures tag < Pow128(n + 1) && Pow128(n) <= tag
  {
    assert Pow128(n + 1) == 128 * Pow128(n);
    if n == 1 { assert Pow128(1) == 128 * Pow128(0); } else { assert Pow128(n) == 128 * Pow128(n - 1); }
  }

  /** decode_tag_internal's loop over the bytes pulled up, at most five of `len`. */
  method DecodeTagBytes(s: Bytes, len: nat) returns (r: Option<Decoded>)
    requires |s| == if len < 5 then len else 5
    ensures r == DecTag(s)
  {
    ScaledStart(s);
    hide DecTagAt, Pow128, DecTag, Scaled;
    var count, number: nat := 0, 0;
    while count < len
      invariant 0 <= count <= len && count <= 5
      invariant DecTag(s) == Scaled(DecTagAt(s, count), number, Pow128(count))
    {
      ScaledStep(s, count, number);
      if count > 4 { return None; }
      var lower := s[count] as int;
      if count == 4 && lower % 128 > 15 { return None; }
      number := number + lower % 128 * Pow128(count);
      count := count + 1;
      if lower < 128 { return Some(Decoded(count, number)); }
    }
    ScaledStep(s, count, number);
    return None;
  }

  lemma ScaledStart(s: Bytes)
    ensures DecTag(s) == Scaled(DecTagAt(s, 0), 0, Pow128(0))
  {
  }

  ghost function Scaled(r: Option<Decoded>, number: nat, scale: nat): (q: Option<Decoded>) {
    if r.None? then None else Some(Decoded(r.value.len, number + scale * r.value.number))
  }

  lemma ScaledStep(s: Bytes, i: nat, number: nat)
    ensures i >= |s| || i > 4 || (i == 4 && s[i] % 128 > 15) ==> Scaled(DecTagAt(s, i), number, Pow128(i)).None?
    ensures i < |s| && i <= 4 && (i == 4 ==> s[i] % 128 <= 15) && s[i] < 128
      ==> Scaled(DecTagAt(s, i), number, Pow128(i)) == Some(Decoded(i + 1, number + s[i] as int % 128 * Pow128(i)))
    ensures i < |s| && i <= 4 && (i == 4 ==> s[i] % 128 <= 15) && s[i] >= 128
      ==> Scaled(DecTagAt(s, i), number, Pow128(i)) == Scaled(DecTagAt(s, i + 1), number + s[i] as int % 128 * Pow128(i), Pow128(i + 1))
  {
    hide DecTagAt, Pow128, Scaled;
    DecTagCases(s, i);
    NextPower(i);
    ScaledNone(number, Pow128(i));
    if i < |s| && i <= 4 {
      ScaledOne(i + 1, s[i] as int % 128, number, Pow128(i));
      ScaledMore(DecTagAt(s, i + 1), number, Pow128(i), s[i] as int % 128);
    }
  }

  lemma NextPower(i: nat)
    ensures Pow128(i + 1) == 128 * Pow128(i)
  {
  }

  lemma DecTagCases(s: Bytes, i: nat)
    ensures i >= |s| || i > 4 || (i == 4 && s[i] % 128 > 15) ==> DecTagAt(s, i) == None
    ensures i < |s| && i <= 4 && (i == 4 ==> s[i] % 128 <= 15) ==>
      DecTagAt(s, i) == if s[i] < 128 then Some(Decoded(i + 1, s[i] as int % 128)) else Behind(DecTagAt(s, i + 1), s[i] as int % 128)
  {
  }

  /** A number with a lower group put in front. */
  ghost function Behind(r: Option<Decoded>, low: nat): (q: Option<Decoded>) {
    if r.None? then None else Some(Decoded(r.value.len, low + 128 * r.value.number))
  }

  lemma ScaledNone(number: nat, p: nat)
    ensures Scaled(None, number, p) == None
  {
  }

  lemma ScaledOne(len: nat, low: nat, number: nat, p: nat)
    ensures Scaled(Some(Decoded(len, low)), number, p) == Some(Decoded(len, number + low * p))
  {
  }

  lemma ScaledMore(r: Option<Decoded>, number: nat, p: nat, low: nat)
    ensures Scaled(Behind(r, low), number, p) == Scaled(r, number + low * p, 128 * p)
  {
    if r.Some? { Regroup(p, low, r.value.number); }
  }

  lemma Regroup(p: nat, a: nat, v: nat)
    ensures p * (a + 128 * v) == a * p + 128 * p * v
  {
  }

  lemma {:induction false} DecTagPrefix(s: Bytes, i: nat)
    requires i <= 5
    ensures DecTagAt(s[..if |s| < 5 then |s| else 5], i) == DecTagAt(s, i)
    decreases 5 - i
  {
    if i < 5 { DecTagPrefix(s, i + 1); }
  }
}
