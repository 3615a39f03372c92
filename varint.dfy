/** The MOJO variable-length integer: `to_varint` and the resumable
    `int_reader` generator of austin/format/mojo.py.

    The first byte holds the continuation bit 0x80, the sign bit 0x40 and
    the low six bits of the magnitude; every further byte holds the
    continuation bit and the next seven bits. Bit operations on
    non-negative Python ints are written arithmetically: `n & 0x3F` is
    `n % 64`, `n >> 6` is `n / 64`, `b & 0x80` is `b >= 128`, and or-ing in
    a bit that is known to be clear is an addition. */
module MojoVarint {
  import opened Wrappers

  type Byte = b: int | 0 <= b < 256

  function Abs(n: int): nat {
    if n < 0 then -n else n
  }

  function Pow2(k: nat): (r: nat)
    ensures r >= 1
  {
    if k == 0 then 1 else 2 * Pow2(k - 1)
  }

  function Pow128(k: nat): (r: nat)
    ensures r >= 1
  {
    if k == 0 then 1 else 128 * Pow128(k - 1)
  }

  /** A byte with the continuation bit 0x80 set. */
  predicate Continues(b: Byte) {
    b >= 128
  }

  // ---------------------------------------------------------------- encoding

  /** The seven-bit groups after the first byte, least significant first. */
  function EncodeTail(m: nat): (r: seq<Byte>)
    ensures |r| == 0 <==> m == 0
    ensures forall j :: 0 <= j < |r| ==> (Continues(r[j]) <==> j < |r| - 1)
    decreases m
  {
    if m == 0 then []
    else
      var rest := m / 128;
      [if rest != 0 then m % 128 + 128 else m % 128] + EncodeTail(rest)
  }

  /** The bytes `to_varint(n)` returns. */
  function Encode(n: int): seq<Byte> {
    var a := Abs(n);
    var first := (if n < 0 then 64 else 0) + a % 64 + (if a / 64 != 0 then 128 else 0);
    [first] + EncodeTail(a / 64)
  }

  /** `to_varint`: the source's loop, which appends one byte per seven-bit
      group until the magnitude is exhausted. */
  method ToVarint(n: int) returns (result: seq<Byte>)
    ensures result == Encode(n)
  {
    var b := 0;
    var m := n;
    if m < 0 {
      b := b + 64;
      m := -m;
    }
    b := b + m % 64;
    m := m / 64;
    if m != 0 {
      b := b + 128;
    }
    result := [b];
    while m != 0
      invariant m >= 0
      invariant result + EncodeTail(m) == Encode(n)
      decreases m
    {
      ghost var before := m;
      b := m % 128;
      m := m / 128;
      if m != 0 {
        b := b + 128;
      }
      assert EncodeTail(before) == [b] + EncodeTail(m);
      result := result + [b];
    }
  }

  /** The layout of an encoding: it is never empty; the first byte carries
      0x40 exactly for negative numbers and the low six bits of the
      magnitude; every byte but the last carries 0x80. */
  lemma EncodeLayout(n: int)
    ensures |Encode(n)| >= 1
    ensures (Encode(n)[0] / 64) % 2 == 1 <==> n < 0
    ensures Encode(n)[0] % 64 == Abs(n) % 64
    ensures forall j :: 0 <= j < |Encode(n)| ==> (Continues(Encode(n)[j]) <==> j < |Encode(n)| - 1)
  {
    var a := Abs(n);
    var tail := EncodeTail(a / 64);
    assert |tail| == 0 <==> a / 64 == 0;
    forall j | 0 <= j < |Encode(n)|
      ensures Continues(Encode(n)[j]) <==> j < |Encode(n)| - 1
    {
      if j > 0 {
        assert Encode(n)[j] == tail[j - 1];
      }
    }
  }

  /** Each later byte holds seven bits of the magnitude: the tail groups
      read back, least significant first, give the magnitude shifted right
      by six. */
  lemma {:induction false} EncodeTailValue(m: nat)
    ensures TailValue(EncodeTail(m)) == m
    decreases m
  {
    if m != 0 {
      var t := EncodeTail(m);
      EncodeTailValue(m / 128);
      assert t[1..] == EncodeTail(m / 128);
      assert t[0] % 128 == m % 128;
    }
  }

  // ---------------------------------------------------------------- decoding

  /** The value of seven-bit groups, least significant first. */
  function TailValue(t: seq<Byte>): nat {
    if t == [] then 0 else t[0] % 128 + 128 * TailValue(t[1..])
  }

  /** The magnitude held by the bytes of one varint. */
  function Magnitude(v: seq<Byte>): nat
    requires |v| >= 1
  {
    v[0] % 64 + 64 * TailValue(v[1..])
  }

  /** Whether the first byte of a varint carries the sign bit. */
  predicate Negative(b: Byte) {
    (b / 64) % 2 == 1
  }

  /** The signed value of the bytes of one varint. */
  function VarintValue(v: seq<Byte>): int
    requires |v| >= 1
  {
    var m: int := Magnitude(v);
    if Negative(v[0]) then -m else m
  }

  /** The varint that starts at position `p`: its value and its length, or
      None when the bytes run out before a byte without 0x80. */
  function VarintAt(bs: seq<Byte>, p: nat): (r: Option<(int, nat)>)
    requires p <= |bs|
    ensures r.Some? ==>
      var len := r.value.1;
      1 <= len && p + len <= |bs| && !Continues(bs[p + len - 1]) &&
      r.value.0 == VarintValue(bs[p..p + len])
  {
    if p == |bs| then None
    else
      match VarintEnd(bs, p)
      case None => None
      case Some(q) => Some((VarintValue(bs[p..q + 1]), q + 1 - p))
  }

  /** The position of the first byte without 0x80 at or after `p`. */
  function VarintEnd(bs: seq<Byte>, p: nat): (r: Option<nat>)
    requires p <= |bs|
    ensures r.Some? ==> p <= r.value < |bs| && !Continues(bs[r.value])
    decreases |bs| - p
  {
    if p == |bs| then None
    else if !Continues(bs[p]) then Some(p)
    else VarintEnd(bs, p + 1)
  }

  /** Every byte before the end of a varint has 0x80 set, and so has every
      byte left when there is no end. */
  lemma {:induction false} VarintEndSpan(bs: seq<Byte>, p: nat)
    requires p <= |bs|
    ensures VarintEnd(bs, p).Some? ==> forall j :: p <= j < VarintEnd(bs, p).value ==> Continues(bs[j])
    ensures VarintEnd(bs, p).None? ==> forall j :: p <= j < |bs| ==> Continues(bs[j])
    decreases |bs| - p
  {
    if p < |bs| && Continues(bs[p]) {
      VarintEndSpan(bs, p + 1);
    }
  }

  /** Conversely, the first byte without 0x80 ends the varint. */
  lemma {:induction false} VarintEndAt(bs: seq<Byte>, p: nat, q: nat)
    requires p <= q < |bs| && !Continues(bs[q])
    requires forall j :: p <= j < q ==> Continues(bs[j])
    ensures VarintEnd(bs, p) == Some(q)
    decreases q - p
  {
    if p < q {
      VarintEndAt(bs, p + 1, q);
    }
  }

  /** Bytes that all have 0x80 set hold no complete varint. */
  lemma {:induction false} VarintEndNone(bs: seq<Byte>, p: nat)
    requires p <= |bs|
    requires forall j :: p <= j < |bs| ==> Continues(bs[j])
    ensures VarintEnd(bs, p).None?
    decreases |bs| - p
  {
    if p < |bs| {
      VarintEndNone(bs, p + 1);
    }
  }

  /** Whatever follows, the varint read at the start of an encoding is the
      encoded number and it spans the whole encoding. */
  lemma EncodeRoundTrip(n: int, rest: seq<Byte>)
    ensures VarintAt(Encode(n) + rest, 0) == Some((n, |Encode(n)|))
  {
    var e := Encode(n);
    var bs := e + rest;
    EncodeLayout(n);
    EncodeTailValue(Abs(n) / 64);
    assert bs[..|e|] == e;
    assert forall j :: 0 <= j < |e| ==> bs[j] == e[j];
    assert !Continues(bs[|e| - 1]);
    assert forall j :: 0 <= j < |e| - 1 ==> Continues(bs[j]);
    VarintEndAt(bs, 0, |e| - 1);
    assert e[1..] == EncodeTail(Abs(n) / 64);
    assert Magnitude(e) == Abs(n);
  }

  // ------------------------------------------------------- int_reader state

  /** The suspended state of `int_reader`: waiting for the first byte of a
      varint, or in the middle of one with the magnitude `n` gathered so
      far, the shift `s` for the next group and the sign. */
  datatype IntState = Fresh | Partial(n: nat, s: nat, negative: bool)

  /** `x << s` on a non-negative int. */
  function Shl(x: nat, s: nat): nat {
    if s == 0 then x else 2 * Shl(x, s - 1)
  }

  lemma {:induction false} ShlPow2(x: nat, s: nat)
    ensures Shl(x, s) == x * Pow2(s)
  {
    if s > 0 {
      ShlPow2(x, s - 1);
      assert x * Pow2(s) == 2 * (x * Pow2(s - 1));
    }
  }

  /** One `send` of a byte to `int_reader`: the new suspended state and
      the value yielded, None while the varint is incomplete. */
  function FeedInt(st: IntState, b: Byte): (IntState, Option<int>) {
    var (n, s, negative) :=
      match st
      case Fresh => (b % 64, 6, Negative(b))
      case Partial(n, s, negative) => (n + Shl(b % 128, s), s + 7, negative);
    if Continues(b) then (Partial(n, s, negative), None)
    else (Fresh, Some(if negative then -n else n))
  }

  /** The state after the bytes of an unfinished varint. */
  function PartialAfter(v: seq<Byte>): IntState
    requires |v| >= 1
  {
    Partial(Magnitude(v), 6 + 7 * (|v| - 1), Negative(v[0]))
  }

  lemma {:induction false} Pow2Groups(k: nat)
    ensures Pow2(6 + 7 * k) == 64 * Pow128(k)
  {
    if k > 0 {
      Pow2Groups(k - 1);
      var s := 6 + 7 * (k - 1);
      Pow2Seven(s);
      assert s + 7 == 6 + 7 * k;
      assert Pow128(k) == 128 * Pow128(k - 1);
      calc {
        Pow2(6 + 7 * k);
        128 * Pow2(s);
        128 * (64 * Pow128(k - 1));
        64 * (128 * Pow128(k - 1));
      }
    } else {
      assert Pow2(1) == 2 && Pow2(2) == 4 && Pow2(3) == 8;
      assert Pow2(4) == 16 && Pow2(5) == 32 && Pow2(6) == 64;
    }
  }

  lemma Pow2Seven(s: nat)
    ensures Pow2(s + 7) == 128 * Pow2(s)
  {
    assert Pow2(s + 7) == 2 * Pow2(s + 6);
    assert Pow2(s + 6) == 2 * Pow2(s + 5);
    assert Pow2(s + 5) == 2 * Pow2(s + 4);
    assert Pow2(s + 4) == 2 * Pow2(s + 3);
    assert Pow2(s + 3) == 2 * Pow2(s + 2);
    assert Pow2(s + 2) == 2 * Pow2(s + 1);
  }

  lemma ScaleShift(x: nat, y: nat)
    ensures x * (128 * y) == 128 * (x * y)
  {
  }

  lemma {:induction false} TailValueAppend(t: seq<Byte>, b: Byte)
    ensures TailValue(t + [b]) == TailValue(t) + (b % 128) * Pow128(|t|)
  {
    if t != [] {
      assert (t + [b])[1..] == t[1..] + [b];
      TailValueAppend(t[1..], b);
      ScaleShift(b % 128, Pow128(|t| - 1));
    } else {
      assert [b][1..] == [];
    }
  }

  /** Feeding one more byte to `int_reader` in the middle of the varint
      `v`: the generator either suspends with the longer prefix or yields
      the value of the whole varint. */
  lemma FeedIntStep(v: seq<Byte>, b: Byte)
    requires |v| >= 1
    ensures FeedInt(PartialAfter(v), b) ==
      if Continues(b) then (PartialAfter(v + [b]), None)
      else (Fresh, Some(VarintValue(v + [b])))
  {
    var w := v + [b];
    assert w[0] == v[0];
    assert w[1..] == v[1..] + [b];
    TailValueAppend(v[1..], b);
    Pow2Groups(|v| - 1);
    ShlPow2(b % 128, 6 + 7 * (|v| - 1));
    var x, y := b % 128, Pow128(|v| - 1);
    assert x * (64 * y) == 64 * (x * y);
    assert Magnitude(w) == Magnitude(v) + x * Pow2(6 + 7 * (|v| - 1));
  }

  /** Feeding the first byte of a varint to a fresh `int_reader`. */
  lemma FeedIntFirst(b: Byte)
    ensures FeedInt(Fresh, b) ==
      if Continues(b) then (PartialAfter([b]), None)
      else (Fresh, Some(VarintValue([b])))
  {
    assert [b][1..] == [];
  }

  /** Feeding the byte at `q` to the state left by the bytes from `p`. */
  lemma FeedIntAt(bs: seq<Byte>, p: nat, q: nat, st: IntState)
    requires p <= q < |bs|
    requires q == p ==> st == Fresh
    requires q > p ==> st == PartialAfter(bs[p..q])
    ensures FeedInt(st, bs[q]) ==
      if Continues(bs[q]) then (PartialAfter(bs[p..q + 1]), None)
      else (Fresh, Some(VarintValue(bs[p..q + 1])))
  {
    assert bs[p..q + 1] == bs[p..q] + [bs[q]];
    if q == p {
      FeedIntFirst(bs[q]);
      assert bs[p..q] + [bs[q]] == [bs[q]];
    } else {
      FeedIntStep(bs[p..q], bs[q]);
    }
  }

  /** `int_reader` fed a whole byte sequence: the last state and every
      value it yielded, in order. */
  function FeedAll(st: IntState, bs: seq<Byte>): (IntState, seq<int>)
    decreases |bs|
  {
    if bs == [] then (st, [])
    else
      var step := FeedInt(st, bs[0]);
      var rest := FeedAll(step.0, bs[1..]);
      (rest.0, (if step.1.Some? then [step.1.value] else []) + rest.1)
  }

  /** Feeding `int_reader` the bytes of a varint after the part `v`
      already fed: it yields exactly the value of the whole varint and is
      then fresh again. */
  lemma {:induction false} FeedRest(v: seq<Byte>, w: seq<Byte>)
    requires |v| >= 1 && |w| >= 1
    requires forall j :: 0 <= j < |w| - 1 ==> Continues(w[j])
    requires !Continues(w[|w| - 1])
    ensures FeedAll(PartialAfter(v), w) == (Fresh, [VarintValue(v + w)])
    decreases |w|
  {
    FeedIntStep(v, w[0]);
    if |w| == 1 {
      assert v + w == v + [w[0]];
      assert w[1..] == [];
      assert FeedAll(Fresh, w[1..]) == (Fresh, []);
      assert [VarintValue(v + w)] + [] == [VarintValue(v + w)];
    } else {
      assert v + w == (v + [w[0]]) + w[1..];
      FeedRest(v + [w[0]], w[1..]);
      assert FeedInt(PartialAfter(v), w[0]) == (PartialAfter(v + [w[0]]), None);
      var rest := FeedAll(PartialAfter(v + [w[0]]), w[1..]);
      assert FeedAll(PartialAfter(v), w) == (rest.0, [] + rest.1);
      assert [] + rest.1 == rest.1;
    }
  }

  /** The round trip of the generator pair: feeding the bytes of
      `to_varint(n)` one by one into a fresh `int_reader` yields exactly
      `n`, once, and leaves the reader fresh for the next varint. */
  lemma IntReaderRoundTrip(n: int)
    ensures FeedAll(Fresh, Encode(n)) == (Fresh, [n])
  {
    var e := Encode(n);
    EncodeLayout(n);
    EncodeRoundTrip(n, []);
    assert e + [] == e;
    assert e[0..|e|] == e;
    FeedIntFirst(e[0]);
    if |e| == 1 {
      assert e[1..] == [];
      assert e == [e[0]];
      assert FeedAll(Fresh, e[1..]) == (Fresh, []);
      assert [n] + [] == [n];
    } else {
      assert e == [e[0]] + e[1..];
      FeedRest([e[0]], e[1..]);
      assert FeedInt(Fresh, e[0]) == (PartialAfter([e[0]]), None);
      var rest := FeedAll(PartialAfter([e[0]]), e[1..]);
      assert FeedAll(Fresh, e) == (rest.0, [] + rest.1);
      assert [] + rest.1 == rest.1;
    }
  }
}
