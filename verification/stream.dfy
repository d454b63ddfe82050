/** `util::stream`: a fixed-size byte buffer that bytes are appended to, with
    an overflow check in the validation build. */
module Streams {
  import opened Base

  newtype byte = x: int | 0 <= x < 256

  /** `data` is the whole buffer (its size is the capacity); the stream's
      contents are its first `len` bytes. */
  datatype Stream = Stream(data: seq<byte>, len: nat)

  function Capacity(st: Stream): nat
  {
    |st.data|
  }

  predicate Valid(st: Stream)
  {
    st.len <= |st.data| < UINT_MODULUS
  }

  function Contents(st: Stream): seq<byte>
    requires Valid(st)
  {
    st.data[..st.len]
  }

  /** The constructor: an empty stream over a buffer of `size` bytes whose
      initial contents are whatever the memory held. */
  function New(buffer: seq<byte>): (st: Stream)
    requires |buffer| < UINT_MODULUS
    ensures Valid(st) && Capacity(st) == |buffer| && Contents(st) == []
  {
    Stream(buffer, 0)
  }

  /** The overflow test as written, `this->len + len > this->capacity`, on
      32-bit unsigned integers: the sum wraps. */
  predicate OverflowsAsWritten(len: nat, n: nat, capacity: nat)
    requires len < UINT_MODULUS && n < UINT_MODULUS
  {
    (len + n) % UINT_MODULUS > capacity
  }

  /** The overflow test as meant: the bytes do not fit in what is left. */
  predicate Overflows(len: nat, n: nat, capacity: nat)
    requires len <= capacity
  {
    n > capacity - len
  }

  /** The two tests agree unless the 32-bit sum wraps. */
  lemma OverflowTestsAgree(len: nat, n: nat, capacity: nat)
    requires len <= capacity < UINT_MODULUS && n < UINT_MODULUS
    ensures len + n < UINT_MODULUS ==> (OverflowsAsWritten(len, n, capacity) <==> Overflows(len, n, capacity))
    ensures Overflows(len, n, capacity) <==> len + n > capacity
  {
  }

  /** The wrap lets an overflowing push through: four bytes in a 16-byte
      stream, then a push of 2^32 - 2 bytes sums to 2 modulo 2^32. */
  lemma WrappedPushPasses()
    ensures !OverflowsAsWritten(4, UINT_MODULUS - 2, 16)
    ensures Overflows(4, UINT_MODULUS - 2, 16)
  {
  }

  /** `push(bytes, len)`. Without validation the caller must keep within the
      buffer; with it, a push that does not fit is dropped and the stream is
      unchanged. A push that fits writes the bytes exactly at the old length
      and leaves every other byte alone. */
  function Push(st: Stream, bytes: seq<byte>, validate: bool): (r: Stream)
    requires Valid(st) && |bytes| < UINT_MODULUS
    requires !validate ==> st.len + |bytes| <= Capacity(st)
    ensures Valid(r) && Capacity(r) == Capacity(st)
    ensures st.len + |bytes| > Capacity(st) ==> r == st
    ensures st.len + |bytes| <= Capacity(st) ==>
      && r.len == st.len + |bytes|
      && r.data[..st.len] == st.data[..st.len]
      && r.data[st.len..r.len] == bytes
      && r.data[r.len..] == st.data[r.len..]
  {
    if validate && Overflows(st.len, |bytes|, Capacity(st)) then st
    else
      var r := Stream(st.data[..st.len] + bytes + st.data[st.len + |bytes|..], st.len + |bytes|);
      assert r.data[..st.len] == st.data[..st.len];
      assert r.data[st.len..r.len] == bytes;
      r
  }

  /** A C character is one byte: its low eight bits. */
  function CharBytes(chars: seq<char>): (bytes: seq<byte>)
    ensures |bytes| == |chars|
    ensures forall i :: 0 <= i < |chars| ==> bytes[i] as int == chars[i] as int % 256
  {
    seq(|chars|, i requires 0 <= i < |chars| => (chars[i] as int % 256) as byte)
  }

  /** `push(chars, len)`: the same as pushing the characters' bytes. */
  function PushChars(st: Stream, chars: seq<char>, validate: bool): (r: Stream)
    requires Valid(st) && |chars| < UINT_MODULUS
    requires !validate ==> st.len + |chars| <= Capacity(st)
    ensures Valid(r) && Capacity(r) == Capacity(st)
    ensures st.len + |chars| > Capacity(st) ==> r == st
    ensures st.len + |chars| <= Capacity(st) ==> Contents(r) == Contents(st) + CharBytes(chars)
  {
    if st.len + |chars| <= Capacity(st) then
      PushAppends(st, CharBytes(chars), validate);
      Push(st, CharBytes(chars), validate)
    else
      Push(st, CharBytes(chars), validate)
  }

  /** A 32-bit unsigned integer as it lies in memory on the little-endian
      machines the library targets: low byte first. */
  function EncodeUint(v: nat): (bytes: seq<byte>)
    requires v < UINT_MODULUS
    ensures |bytes| == 4
  {
    [(v % 0x100) as byte, (v / 0x100 % 0x100) as byte,
     (v / 0x1_0000 % 0x100) as byte, (v / 0x100_0000) as byte]
  }

  function DecodeUint(bytes: seq<byte>): (v: nat)
    requires |bytes| == 4
    ensures v < UINT_MODULUS
  {
    bytes[0] as nat + 0x100 * bytes[1] as nat + 0x1_0000 * bytes[2] as nat + 0x100_0000 * bytes[3] as nat
  }

  /** Reading the four bytes back gives the integer. */
  lemma DecodeEncode(v: nat)
    requires v < UINT_MODULUS
    ensures DecodeUint(EncodeUint(v)) == v
  {
    var b := EncodeUint(v);
    assert b[0] as nat == v % 0x100;
    assert b[1] as nat == v / 0x100 % 0x100;
    assert b[2] as nat == v / 0x1_0000 % 0x100;
    assert b[3] as nat == v / 0x100_0000;
    assert v == v % 0x100 + 0x100 * (v / 0x100);
    assert v / 0x100 == v / 0x100 % 0x100 + 0x100 * (v / 0x1_0000);
    assert v / 0x1_0000 == v / 0x1_0000 % 0x100 + 0x100 * (v / 0x100_0000);
  }

  /** Different integers are written as different bytes. */
  lemma EncodeInjective(v: nat, w: nat)
    requires v < UINT_MODULUS && w < UINT_MODULUS
    ensures EncodeUint(v) == EncodeUint(w) ==> v == w
  {
    DecodeEncode(v);
    DecodeEncode(w);
  }

  /** `push(uint)`: four bytes, the integer in memory order, appended after
      the current contents. */
  function PushUint(st: Stream, v: nat, validate: bool): (r: Stream)
    requires Valid(st) && v < UINT_MODULUS
    requires !validate ==> st.len + 4 <= Capacity(st)
    ensures Valid(r) && Capacity(r) == Capacity(st)
    ensures st.len + 4 > Capacity(st) ==> r == st
    ensures st.len + 4 <= Capacity(st) ==>
      && r.len == st.len + 4
      && Contents(r) == Contents(st) + EncodeUint(v)
  {
    if st.len + 4 <= Capacity(st) then
      PushAppends(st, EncodeUint(v), validate);
      Push(st, EncodeUint(v), validate)
    else
      Push(st, EncodeUint(v), validate)
  }

  /** After a `push(uint)` that fits, the four bytes at the old length
      read back as the integer, and the bytes past them are untouched. */
  lemma PushUintReadsBack(st: Stream, v: nat, validate: bool)
    requires Valid(st) && v < UINT_MODULUS && st.len + 4 <= Capacity(st)
    ensures DecodeUint(PushUint(st, v, validate).data[st.len..st.len + 4]) == v
    ensures PushUint(st, v, validate).data[st.len + 4..] == st.data[st.len + 4..]
  {
    DecodeEncode(v);
  }

  /** `clear`: the stream is empty again; the buffer is not wiped. */
  function Clear(st: Stream): (r: Stream)
    requires Valid(st)
    ensures Valid(r) && Contents(r) == [] && r.data == st.data
  {
    st.(len := 0)
  }

  /** A push that fits appends to the contents. */
  lemma PushAppends(st: Stream, bytes: seq<byte>, validate: bool)
    requires Valid(st) && |bytes| < UINT_MODULUS
    requires st.len + |bytes| <= Capacity(st)
    ensures Contents(Push(st, bytes, validate)) == Contents(st) + bytes
  {
    var r := Push(st, bytes, validate);
    assert r.data[..r.len] == r.data[..st.len] + r.data[st.len..r.len];
  }

  /** Pushes that fit accumulate in order; after a clear only what was
      pushed since remains. */
  lemma PushesAccumulate(st: Stream, a: seq<byte>, b: seq<byte>, validate: bool)
    requires Valid(st) && |a| < UINT_MODULUS && |b| < UINT_MODULUS
    requires st.len + |a| + |b| <= Capacity(st)
    ensures Contents(Push(Push(st, a, validate), b, validate)) == Contents(st) + a + b
    ensures Contents(Push(Clear(st), b, validate)) == b
  {
    PushAppends(st, a, validate);
    PushAppends(Push(st, a, validate), b, validate);
    PushAppends(Clear(st), b, validate);
  }
}
