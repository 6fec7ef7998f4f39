/** The 48-byte native data header of proto/native_data.h, over the little-endian accessors of
    proto/native_wire.h, and the pure rules that go with it. */
module NativeData {
  import opened Prelude
  import opened Cut

  const MAGIC: u32 := 0x3144_5654
  const VERSION: u16 := 1
  const HDR_SIZE: nat := 48
  const FRAME_SIZE: nat := 4096
  const MAX_PAYLOAD: nat := 4048
  const MAX_MSG_SIZE: nat := 0x100_0000
  const CREDIT_BATCH: nat := 256
  const MAX_FRAGS: nat := 4145
  const OP_MAX: u8 := 11

  // enum tbv_native_data_op
  const OP_SEND: u8 := 1
  const OP_SEND_ACK: u8 := 2
  const OP_RDMA_WRITE: u8 := 3
  const OP_RDMA_WRITE_IMM: u8 := 4
  const OP_RECV_CREDIT: u8 := 5
  const OP_SEND_IMM: u8 := 6
  const OP_RDMA_READ_REQ: u8 := 7
  const OP_RDMA_READ_RESP: u8 := 8
  const OP_PATH_CREDIT: u8 := 9
  const OP_RDMA_READ_ACK: u8 := 10
  const OP_MAD: u8 := 11

  // bits of enum tbv_native_data_flag
  const F_LAST: u8 := 1
  const F_SOLICITED: u8 := 2
  const F_RAW_STREAM: u8 := 4

  datatype Header = Header(opcode: u8, flags: u8, destQp: u32, srcQp: u32, psn: u32, length: u32,
                           immData: u32, remoteAddr: u64, rkey: u32, fragOffset: u32)

  datatype Error = EINVAL | ENOSPC | EMSGSIZE

  datatype Result<+T> = Ok(value: T) | Err(error: Error)

  predicate IsLast(flags: u8) { flags % 2 == 1 }

  predicate IsRaw(flags: u8) { flags / 4 % 2 == 1 }

  // ---------------------------------------------------------------- little endian

  function Le16(v: u16): (r: seq<u8>)
    ensures |r| == 2
  {
    [v % 256, v / 256]
  }

  function Le32(v: u32): (r: seq<u8>)
    ensures |r| == 4
  {
    [v % 256, v / 256 % 256, v / 65536 % 256, v / 16777216]
  }

  function Le64(v: u64): (r: seq<u8>)
    ensures |r| == 8
  {
    Le32(v % U32_MOD) + Le32(v / U32_MOD)
  }

  function FromLe16(b: seq<u8>): (r: u16)
    requires |b| == 2
    ensures Le16(r) == b
  {
    (b[0] as int) + 256 * (b[1] as int)
  }

  function FromLe32(b: seq<u8>): (r: u32)
    requires |b| == 4
    ensures Le32(r) == b
  {
    Digits(b[0], b[1], b[2], b[3]);
    (b[0] as int) + 256 * (b[1] as int) + 65536 * (b[2] as int) + 16777216 * (b[3] as int)
  }

  lemma Digits(b0: u8, b1: u8, b2: u8, b3: u8)
    ensures var v := b0 as int + 256 * (b1 as int) + 65536 * (b2 as int) + 16777216 * (b3 as int);
            v % 256 == b0 && v / 256 % 256 == b1 && v / 65536 % 256 == b2 && v / 16777216 == b3
  {
    var w2: int := b2 as int + 256 * (b3 as int);
    var w1: int := b1 as int + 256 * w2;
    var v: int := b0 as int + 256 * w1;
    assert v / 256 == w1 && w1 / 256 == w2 && w2 / 256 == b3;
    assert v / 65536 == w2 && v / 16777216 == b3;
  }

  function FromLe64(b: seq<u8>): (r: u64)
    requires |b| == 8
    ensures Le64(r) == b
  {
    var lo, hi := FromLe32(b[..4]), FromLe32(b[4..]);
    SplitWord(lo, hi);
    assert b == b[..4] + b[4..];
    lo + U32_MOD * hi
  }

  lemma SplitWord(lo: u32, hi: u32)
    ensures 0 <= lo + U32_MOD * hi < U64_MOD
    ensures (lo + U32_MOD * hi) % U32_MOD == lo && (lo + U32_MOD * hi) / U32_MOD == hi
  {
  }

  lemma Le16Inverse(v: u16)
    ensures FromLe16(Le16(v)) == v
  {
  }

  lemma Le32Inverse(v: u32)
    ensures FromLe32(Le32(v)) == v
  {
    assert v == v % 256 + 256 * (v / 256);
    assert v / 256 == v / 256 % 256 + 256 * (v / 65536);
    assert v / 65536 == v / 65536 % 256 + 256 * (v / 16777216);
  }

  lemma Le64Inverse(v: u64)
    ensures FromLe64(Le64(v)) == v
  {
    Le32Inverse(v % U32_MOD);
    Le32Inverse(v / U32_MOD);
  }

  // ---------------------------------------------------------------- header

  function MaxLength(flags: u8): nat {
    if IsRaw(flags) then MAX_MSG_SIZE else MAX_PAYLOAD
  }

  function Check(h: Header): (r: Option<Error>) {
    if h.opcode == 0 || h.opcode > OP_MAX then Some(EINVAL)
    else if h.length > MaxLength(h.flags) then Some(EMSGSIZE)
    else None
  }

  /** The bytes of a header: fixed preamble, opcode and flags, two reserved bytes, the fields. */
  function Encode(h: Header): (r: seq<u8>)
    ensures |r| == HDR_SIZE
  {
    Preamble(h) + Fields(h)
  }

  function Preamble(h: Header): (r: seq<u8>)
    ensures |r| == 12
  {
    Le32(MAGIC) + Le16(VERSION) + Le16(48) + [h.opcode, h.flags] + [0, 0]
  }

  function Fields(h: Header): (r: seq<u8>)
    ensures |r| == 36
  {
    Le32(h.destQp) + Le32(h.srcQp) + Le32(h.psn) + Le32(h.length) + Le32(h.immData) + Le64(h.remoteAddr)
    + Le32(h.rkey) + Le32(h.fragOffset)
  }

  function Decode(b: seq<u8>): (h: Header)
    requires |b| >= HDR_SIZE
  {
    Header(b[8], b[9], FromLe32(b[12..16]), FromLe32(b[16..20]), FromLe32(b[20..24]), FromLe32(b[24..28]),
           FromLe32(b[28..32]), FromLe64(b[32..40]), FromLe32(b[40..44]), FromLe32(b[44..48]))
  }

  function Parse(b: seq<u8>): (r: Result<Header>) {
    if |b| < HDR_SIZE then Err(EINVAL)
    else if FromLe32(b[..4]) != MAGIC then Err(EINVAL)
    else if FromLe16(b[4..6]) != VERSION || FromLe16(b[6..8]) != 48 then Err(EINVAL)
    else
      var h := Decode(b);
      var bad := Check(h);
      if bad.Some? then Err(bad.value) else Ok(h)
  }

  lemma FieldSlices(h: Header, rest: seq<u8>)
    ensures var b := Encode(h) + rest;
            && b[..4] == Le32(MAGIC) && b[4..6] == Le16(VERSION) && b[6..8] == Le16(48)
            && b[8] == h.opcode && b[9] == h.flags && b[10] == 0 && b[11] == 0
            && b[12..16] == Le32(h.destQp) && b[16..20] == Le32(h.srcQp) && b[20..24] == Le32(h.psn)
            && b[24..28] == Le32(h.length) && b[28..32] == Le32(h.immData) && b[32..40] == Le64(h.remoteAddr)
            && b[40..44] == Le32(h.rkey) && b[44..48] == Le32(h.fragOffset)
  {
  }

  /** A header that the builder accepts is parsed back to itself, whatever payload follows it. */
  lemma HeaderRoundTrip(h: Header, payload: seq<u8>)
    requires Check(h).None?
    ensures Parse(Encode(h) + payload) == Ok(h)
  {
    FieldSlices(h, payload);
    Le32Inverse(MAGIC); Le16Inverse(VERSION); Le16Inverse(48);
    Le32Inverse(h.destQp); Le32Inverse(h.srcQp); Le32Inverse(h.psn); Le32Inverse(h.length);
    Le32Inverse(h.immData); Le64Inverse(h.remoteAddr); Le32Inverse(h.rkey); Le32Inverse(h.fragOffset);
  }

  /** Conversely, bytes that parse are the encoding of what was parsed, except for the two reserved
      bytes, which the parser ignores. */
  lemma ParsedIsEncoded(b: seq<u8>)
    requires Parse(b).Ok?
    ensures Check(Parse(b).value).None?
    ensures Encode(Parse(b).value) == b[..10] + [0, 0] + b[12..48]
  {
    var h := Parse(b).value;
    assert b[..10] == b[..4] + b[4..6] + b[6..8] + [b[8], b[9]];
    assert b[12..48] == b[12..16] + b[16..20] + b[20..24] + b[24..28] + b[28..32] + b[32..40] + b[40..44] + b[44..48];
  }

  // ---------------------------------------------------------------- the builder, in place

  /** Write bytes at p; the buffer then starts with the old prefix and those bytes. */
  method Put(buf: array<u8>, p: nat, bytes: seq<u8>)
    requires p + |bytes| <= buf.Length
    modifies buf
    ensures buf[..p + |bytes|] == old(buf[..p]) + bytes
    ensures forall k :: p + |bytes| <= k < buf.Length ==> buf[k] == old(buf[k])
  {
    var i := 0;
    while i < |bytes|
      invariant 0 <= i <= |bytes|
      invariant buf[..p + i] == old(buf[..p]) + bytes[..i]
      invariant forall k :: p + i <= k < buf.Length ==> buf[k] == old(buf[k])
    {
      buf[p + i] := bytes[i];
      i := i + 1;
    }
  }

  method BuildHeader(buf: array<u8>, h: Header) returns (r: Result<nat>)
    modifies buf
    ensures r == if buf.Length < HDR_SIZE then Err(ENOSPC)
                 else if Check(h).Some? then Err(Check(h).value) else Ok(HDR_SIZE)
    ensures r.Err? ==> buf[..] == old(buf[..])
    ensures r.Ok? ==> buf[..] == Encode(h) + old(buf[HDR_SIZE..])
  {
    if buf.Length < HDR_SIZE {
      return Err(ENOSPC);
    }
    var bad := Check(h);
    if bad.Some? {
      return Err(bad.value);
    }
    Put(buf, 0, Le32(MAGIC));
    Put(buf, 4, Le16(VERSION));
    Put(buf, 6, Le16(48));
    Put(buf, 8, [h.opcode, h.flags]);
    Put(buf, 10, [0, 0]);
    assert buf[..12] == Preamble(h);
    PutFields(buf, h);
    assert buf[..] == buf[..48] + buf[48..];
    assert buf[48..] == old(buf[48..]);
    return Ok(HDR_SIZE);
  }

  method PutFields(buf: array<u8>, h: Header)
    requires buf.Length >= HDR_SIZE
    modifies buf
    ensures buf[..48] == old(buf[..12]) + Fields(h)
    ensures forall k :: 48 <= k < buf.Length ==> buf[k] == old(buf[k])
  {
    Put(buf, 12, Le32(h.destQp));
    Put(buf, 16, Le32(h.srcQp));
    Put(buf, 20, Le32(h.psn));
    Put(buf, 24, Le32(h.length));
    Put(buf, 28, Le32(h.immData));
    Put(buf, 32, Le64(h.remoteAddr));
    Put(buf, 40, Le32(h.rkey));
    Put(buf, 44, Le32(h.fragOffset));
  }

  // ---------------------------------------------------------------- fragment shape

  /** tbv_native_data_fragment_shape, in 32-bit arithmetic. */
  function FragmentShape(totalLen: u32, maxPayload: u32, maxFrags: u32, offset: u32, len: u32, last: bool)
    : (r: Option<(nat, nat)>)
  {
    if maxPayload == 0 || maxFrags == 0 then None
    else if totalLen == 0 then
      if offset != 0 || len != 0 || !last then None else Some((0, 1))
    else if offset % maxPayload != 0 then None
    else
      var idx := offset / maxPayload;
      var count := Add32(totalLen, maxPayload - 1) / maxPayload;
      if idx >= count || count > maxFrags then None
      else
        var expected := if idx == count - 1 then (totalLen - idx * maxPayload) % U32_MOD else maxPayload;
        if len != expected then None
        else if last != (idx == count - 1) then None
        else Some((idx, count))
  }

  /** A fragment of the mathematical cut. */
  ghost predicate IsFragment(totalLen: nat, maxPayload: nat, offset: nat, len: nat, last: bool, i: nat, n: nat)
    requires maxPayload > 0
  {
    && n == FrameCount(totalLen, maxPayload) && i < n
    && offset == i * maxPayload && len == FragLen(totalLen, maxPayload, i) && (last <==> i == n - 1)
  }

  /** The shape check accepts exactly the fragments of the mathematical cut, with their true index
      and count; a 32-bit wrap in its ceiling division makes it refuse, never accept wrongly. */
  lemma ShapeExact(totalLen: u32, maxPayload: u32, maxFrags: u32, offset: u32, len: u32, last: bool, i: nat, n: nat)
    requires maxPayload > 0 && maxFrags > 0
    ensures FragmentShape(totalLen, maxPayload, maxFrags, offset, len, last) == Some((i, n))
       <==>
         && IsFragment(totalLen, maxPayload, offset, len, last, i, n) && n <= maxFrags
         && !SumWraps(totalLen, maxPayload)
  {
    if totalLen > 0 {
      WrappedCount(totalLen, maxPayload);
      if FragmentShape(totalLen, maxPayload, maxFrags, offset, len, last) == Some((i, n)) {
        AcceptedIsFragment(totalLen, maxPayload, maxFrags, offset, len, last, i, n);
      }
      if IsFragment(totalLen, maxPayload, offset, len, last, i, n) && !SumWraps(totalLen, maxPayload) {
        FragFits(totalLen, maxPayload, i);
        MulDiv(i, maxPayload);
      }
    }
  }

  lemma AcceptedIsFragment(totalLen: u32, maxPayload: u32, maxFrags: u32, offset: u32, len: u32, last: bool,
                           i: nat, n: nat)
    requires totalLen > 0 && maxPayload > 0
    requires FragmentShape(totalLen, maxPayload, maxFrags, offset, len, last) == Some((i, n))
    ensures IsFragment(totalLen, maxPayload, offset, len, last, i, n) && !SumWraps(totalLen, maxPayload)
  {
    WrappedCount(totalLen, maxPayload);
    DivBounds(offset, maxPayload);
    assert offset == offset / maxPayload * maxPayload + offset % maxPayload;
    FragFits(totalLen, maxPayload, i);
  }

  lemma MulDiv(i: nat, m: nat)
    requires m > 0
    ensures i * m % m == 0 && i * m / m == i
  {
    DivBounds(i * m, m);
    var q := i * m / m;
    if q < i { MulMono(q + 1, i, m); }
    if q > i { MulMono(i + 1, q, m); MulSucc(i, m); }
  }
}
