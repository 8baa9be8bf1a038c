/**
  The byte form of a value with a logical expiry: eight bytes of little-endian, two's-complement
  nanoseconds, then the payload. A zero header, and any header that reads as negative, means "never".
 */
module ExpiryHeader {
  import opened Prelude

  type Byte = x: int | 0 <= x < 256
  type Bytes = seq<Byte>

  /** `expireAt == None` is Go's zero time. */
  datatype LogicValue<+V> = LogicValue(val: V, expireAt: Option<int>)

  const TWO_64: int := 0x1_0000_0000_0000_0000
  const TWO_63: int := 0x8000_0000_0000_0000

  /** Conversion of an integer to 64 bits without a sign. */
  function ToUint64(x: int): (u: int)
    ensures 0 <= u < TWO_64
  {
    x % TWO_64
  }

  /** The same 64 bits read with a sign. */
  function ToInt64(x: int): (i: int)
    ensures -TWO_63 <= i < TWO_63
  {
    if x % TWO_64 < TWO_63 then x % TWO_64 else x % TWO_64 - TWO_64
  }

  /** The `k` low bytes of `n`, lowest first. */
  function LittleEndian(n: nat, k: nat): (b: Bytes)
    ensures |b| == k
  {
    if k == 0 then [] else [n % 256] + LittleEndian(n / 256, k - 1)
  }

  function FromLittleEndian(b: Bytes): (n: nat) {
    if b == [] then 0 else b[0] + 256 * FromLittleEndian(b[1..])
  }

  function Pow256(k: nat): (p: nat)
    ensures p > 0
  {
    if k == 0 then 1 else 256 * Pow256(k - 1)
  }

  function UnixNano(expireAt: Option<int>): int {
    match expireAt
    case None => 0
    case Some(ns) => ToInt64(ns)
  }

  function Encode(x: LogicValue<Bytes>): Bytes {
    LittleEndian(ToUint64(UnixNano(x.expireAt)), 8) + x.val
  }

  function Decode(raw: Bytes): Result<LogicValue<Bytes>> {
    if |raw| < 8 then Err(Malformed(|raw|)) else
      var ts := ToInt64(FromLittleEndian(raw[..8]));
      Ok(LogicValue(raw[8..], if ts > 0 then Some(ts) else None))
  }

  /** The encoder fills a buffer: first the header, byte by byte, then a copy of the payload. */
  method EncodeLogicTTLBytes(x: LogicValue<Bytes>) returns (out: array<Byte>)
    ensures fresh(out) && out[..] == Encode(x)
  {
    hide ToUint64, UnixNano;
    out := new Byte[8 + |x.val|];
    var rest: nat := ToUint64(UnixNano(x.expireAt));
    ghost var header := LittleEndian(rest, 8);
    for i := 0 to 8
      invariant header == out[..i] + LittleEndian(rest, 8 - i)
    {
      out[i] := rest % 256;
      assert LittleEndian(rest, 8 - i) == [out[i]] + LittleEndian(rest / 256, 8 - i - 1);
      rest := rest / 256;
    }
    assert out[..8] == header;
    hide LittleEndian;
    for i := 0 to |x.val|
      invariant out[..8 + i] == header + x.val[..i]
    {
      out[8 + i] := x.val[i];
      assert out[..8 + i + 1] == out[..8 + i] + [x.val[i]];
    }
    assert out[..] == out[..8 + |x.val|];
    assert x.val[..|x.val|] == x.val;
  }

  // ----- Little-endian numbers -----

  lemma {:induction false} ReadBack(n: nat, k: nat)
    requires n < Pow256(k)
    ensures FromLittleEndian(LittleEndian(n, k)) == n
    decreases k
  {
    if k > 0 {
      var b := LittleEndian(n, k);
      assert b[1..] == LittleEndian(n / 256, k - 1);
      ReadBack(n / 256, k - 1);
    }
  }

  lemma {:induction false} WriteBack(b: Bytes)
    ensures FromLittleEndian(b) < Pow256(|b|)
    ensures LittleEndian(FromLittleEndian(b), |b|) == b
  {
    if b != [] {
      WriteBack(b[1..]);
      var m := FromLittleEndian(b[1..]);
      LowestFirst(b[0], m);
      assert FromLittleEndian(b) == b[0] + 256 * m && Pow256(|b|) == 256 * Pow256(|b| - 1);
      assert LittleEndian(b[0] + 256 * m, |b|) == [b[0]] + LittleEndian(m, |b| - 1);
      assert b == [b[0]] + b[1..];
    }
  }

  lemma LowestFirst(low: Byte, rest: nat)
    ensures (low + 256 * rest) % 256 == low && (low + 256 * rest) / 256 == rest
  {
  }

  lemma EightBytes()
    ensures Pow256(8) == TWO_64
  {
    assert Pow256(4) == 0x1_0000_0000;
    assert Pow256(8) == 0x1_0000_0000 * Pow256(4);
  }

  // ----- The codec -----

  /** What survives a round trip: expiries outside `(0, 2^63)` wrap around, and non-positive ones become "never". */
  function Normal(x: LogicValue<Bytes>): LogicValue<Bytes> {
    x.(expireAt := if UnixNano(x.expireAt) > 0 then Some(UnixNano(x.expireAt)) else None)
  }

  predicate Representable(expireAt: Option<int>) {
    expireAt.None? || 0 < expireAt.value < TWO_63
  }

  lemma SignedBits(y: int)
    requires -TWO_63 <= y < TWO_63
    ensures ToInt64(y) == y && ToInt64(ToUint64(y)) == y
  {
    if y < 0 {
      assert y % TWO_64 == y + TWO_64;
    } else {
      assert y % TWO_64 == y;
    }
    assert ToUint64(y) % TWO_64 == ToUint64(y);
  }

  lemma DecodeEncoded(x: LogicValue<Bytes>)
    ensures Decode(Encode(x)) == Ok(Normal(x))
  {
    var u := ToUint64(UnixNano(x.expireAt));
    EightBytes();
    ReadBack(u, 8);
    assert Encode(x)[..8] == LittleEndian(u, 8) && Encode(x)[8..] == x.val;
    SignedBits(UnixNano(x.expireAt));
  }

  /** Decoding an encoded value gives its normal form, and the value itself exactly when the expiry is representable. */
  lemma DecodeEncode(x: LogicValue<Bytes>)
    ensures Decode(Encode(x)) == Ok(Normal(x))
    ensures Decode(Encode(x)) == Ok(x) <==> Representable(x.expireAt)
  {
    DecodeEncoded(x);
    if x.expireAt.Some? && 0 < x.expireAt.value < TWO_63 {
      SignedBits(x.expireAt.value);
    }
  }

  /** Encoding a decoded buffer restores it exactly when its header reads as non-negative. */
  lemma EncodeDecode(raw: Bytes)
    requires |raw| >= 8
    ensures Decode(raw).Ok?
    ensures Encode(Decode(raw).value) == raw <==> ToInt64(FromLittleEndian(raw[..8])) >= 0
  {
    var n := FromLittleEndian(raw[..8]);
    EightBytes();
    WriteBack(raw[..8]);
    SignedHeader(n);
    hide ToInt64, ToUint64, UnixNano, LittleEndian, FromLittleEndian, Pow256;
    var x := Decode(raw).value;
    var u := ToUint64(UnixNano(x.expireAt));
    assert raw == raw[..8] + raw[8..];
    assert Encode(x)[..8] == LittleEndian(u, 8) && Encode(x)[8..] == raw[8..];
    if ToInt64(n) < 0 {
      ReadBack(0, 8);
    }
  }

  lemma SignedHeader(n: nat)
    requires n < TWO_64
    ensures var ts := ToInt64(n);
            var u := ToUint64(UnixNano(if ts > 0 then Some(ts) else None));
            if ts >= 0 then u == n else u == 0 && n != 0
  {
  }

  /** Storing what was decoded changes nothing a reader can see, whatever the header was. */
  lemma ReencodingIsIdempotent(raw: Bytes)
    requires Decode(raw).Ok?
    ensures Decode(Encode(Decode(raw).value)) == Decode(raw)
    ensures |Encode(Decode(raw).value)| == |raw|
  {
    DecodeEncode(Decode(raw).value);
  }

  // ----- The bytes themselves -----

  lemma {:induction false} LittleEndianAt(n: nat, k: nat, i: nat)
    requires i < k
    ensures LittleEndian(n, k)[i] == n / Pow256(i) % 256
    decreases k
  {
    if i > 0 {
      LittleEndianAt(n / 256, k - 1, i - 1);
      DivideTwice(n, i);
    }
  }

  lemma DivideTwice(n: nat, i: nat)
    requires i > 0
    ensures n / 256 / Pow256(i - 1) == n / Pow256(i)
  {
    var p := Pow256(i - 1);
    var q, r := n / 256, n % 256;
    var a, b := q / p, q % p;
    assert n == 256 * (p * a + b) + r == Pow256(i) * a + (256 * b + r) by {
      assert 256 * (p * a) == 256 * p * a;
    }
    assert 256 * b + r < 256 * p;
    Quotient(n, Pow256(i), a, 256 * b + r);
  }

  lemma Quotient(n: int, p: nat, a: int, r: nat)
    requires p > 0 && n == p * a + r && r < p
    ensures n / p == a
  {
    if n / p < a {
      Scale(n / p, a, p);
    } else if n / p > a {
      Scale(a, n / p, p);
    }
  }

  lemma Low64(ns: int)
    ensures ToUint64(ToInt64(ns)) == ns % TWO_64
  {
  }

  /** Adding a multiple of `256 * p` changes no byte at `p`. */
  lemma SameByte(u: nat, p: nat, m: int)
    requires p > 0
    ensures (u + p * (256 * m)) / p % 256 == u / p % 256
  {
    var a, b := u / p, u % p;
    assert u + p * (256 * m) == p * (a + 256 * m) + b;
    Quotient(u + p * (256 * m), p, a + 256 * m, b);
  }

  /** Reduction to 64 bits keeps each of the eight low bytes. */
  lemma LowBytes(ns: int, i: nat)
    requires i < 8
    ensures ns % TWO_64 / Pow256(i) % 256 == ns / Pow256(i) % 256
  {
    PowSplits(i, 7 - i);
    EightBytes();
    assert TWO_64 == 256 * (Pow256(i) * Pow256(7 - i)) by {
      assert Pow256(8) == 256 * Pow256(7);
    }
    hide Pow256;
    SplitWord(ns, Pow256(i), Pow256(7 - i));
    SameByte(ns % TWO_64, Pow256(i), Pow256(7 - i) * (ns / TWO_64));
  }

  lemma SplitWord(ns: int, p: nat, c: nat)
    requires TWO_64 == 256 * (p * c)
    ensures ns == ns % TWO_64 + p * (256 * (c * (ns / TWO_64)))
  {
    var q := ns / TWO_64;
    assert p * (256 * (c * q)) == 256 * (p * c) * q;
  }

  lemma {:induction false} PowSplits(i: nat, j: nat)
    ensures Pow256(i) * Pow256(j) == Pow256(i + j)
    decreases i
  {
    if i > 0 {
      PowSplits(i - 1, j);
      assert 256 * Pow256(i - 1) * Pow256(j) == 256 * (Pow256(i - 1) * Pow256(j));
    }
  }

  /**
    The stored form: byte `i` of the header is byte `i` of the deadline, lowest first, in two's complement; all zero
    for no deadline; then the payload. Decoding fails exactly below eight bytes, and otherwise gives the payload back.
   */
  lemma StoredForm(x: LogicValue<Bytes>, i: nat)
    requires i < 8
    ensures |Encode(x)| == 8 + |x.val| && Encode(x)[8..] == x.val
    ensures Encode(x)[i] == if x.expireAt.Some? then x.expireAt.value / Pow256(i) % 256 else 0
  {
    var ns := if x.expireAt.Some? then x.expireAt.value else 0;
    LittleEndianAt(ToUint64(UnixNano(x.expireAt)), 8, i);
    Low64(ns);
    LowBytes(ns, i);
  }

  lemma DecodeFailsIff(raw: Bytes)
    ensures Decode(raw) == Err(Malformed(|raw|)) <==> |raw| < 8
    ensures |raw| >= 8 ==> Decode(raw).Ok? && Decode(raw).value.val == raw[8..]
  {
  }
}
