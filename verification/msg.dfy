/**
 * `msg::Message`: a byte buffer made of a 6-byte header -- a 4-byte total
 * length, a type byte and an urgent byte -- followed by the payload.
 * Every mutator is a pure function from the old buffer to the new one.
 */
module Msg {
  import opened Endian

  const HEADER_SIZE: nat := 6

  /** The message types, numbered as the C++ enumeration numbers them. */
  const M_AUDIO: int := 0
  const M_AUDIO_END: int := 1
  const M_RESET: int := 2
  const M_PROBS: int := 3
  const M_PROBS_END: int := 4
  const M_READY: int := 5
  const M_RECOG: int := 6
  const M_RECOG_END: int := 7
  const M_DECODER_SETTING: int := 8
  const M_DECODER_PAUSE: int := 9
  const M_DECODER_UNPAUSE: int := 10
  const M_ADAPT_ON: int := 11
  const M_ADAPT_OFF: int := 12
  const M_ADAPT_RESET: int := 13
  const M_ADAPT_CALC: int := 14
  const M_ADAPT_CANCELLED: int := 15
  const M_STATE_HISTORY: int := 16
  const M_DEBUG: int := 17
  const M_MESSAGE: int := 18

  datatype Message = Message(buf: seq<byte>)

  /** The header is present: every accessor and appender asserts this. */
  predicate HasHeader(m: Message)
  {
    |m.buf| >= HEADER_SIZE
  }

  /** The value the length prefix (bytes 0-3) currently holds. */
  function Prefix(m: Message): nat
    requires |m.buf| >= 4
  {
    Decode4(m.buf[..4])
  }

  /** The framing invariant: the prefix holds the buffer's total length. */
  predicate WellFramed(m: Message)
  {
    HasHeader(m) && Prefix(m) == |m.buf|
  }

  /** Assigning an `int` to a `char` keeps its low byte. */
  function LowByte(n: int): byte
  {
    (n % 256) as byte
  }

  /** A `bool` stored in a `char`. */
  function FlagByte(b: bool): byte
  {
    if b then 1 else 0
  }

  /** A `char` read back as a (signed) `int`. */
  function SignedChar(b: byte): int
  {
    if b < 128 then b as int else b as int - 256
  }

  /** Rewrites bytes 0-3 with the current buffer size; the one place where
      the length prefix is recomputed. */
  function Reframe(buf: seq<byte>): (r: seq<byte>)
    requires |buf| >= 4
    ensures |r| == |buf| && r[4..] == buf[4..]
    ensures Decode4(r[..4]) == ToUint32(|buf|)
  {
    Decode4Encode4(|buf|);
    var r := Encode4(|buf|) + buf[4..];
    assert r[..4] == Encode4(|buf|);
    r
  }

  /** `Message(type, urgent)`: a header-only message; both arguments have
      the C++ defaults (type 0, not urgent). */
  function New(t: int := M_AUDIO, urgent: bool := false): (m: Message)
    ensures |m.buf| == HEADER_SIZE && WellFramed(m)
    ensures m.buf[4] == LowByte(t) && m.buf[5] == FlagByte(urgent)
    ensures Type(m) == SignedChar(LowByte(t))
    ensures 0 <= t < 128 ==> Type(m) == t
    ensures IsUrgent(m) == urgent
    ensures DataLength(m) == 0 && DataStr(m) == []
  {
    Decode4Encode4(HEADER_SIZE);
    var m := Message(Encode4(HEADER_SIZE) + [LowByte(t), FlagByte(urgent)]);
    assert m.buf[..4] == Encode4(HEADER_SIZE);
    m
  }

  /** `set_type`: overwrites byte 4 only (`buf.at(4)` needs at least 5 bytes). */
  function SetType(m: Message, t: int): (r: Message)
    requires |m.buf| > 4
    ensures |r.buf| == |m.buf| && r.buf[4] == LowByte(t)
    ensures forall i :: 0 <= i < |m.buf| && i != 4 ==> r.buf[i] == m.buf[i]
    ensures HasHeader(m) ==> Type(r) == SignedChar(LowByte(t)) && IsUrgent(r) == IsUrgent(m)
    ensures HasHeader(m) ==> DataStr(r) == DataStr(m) && (WellFramed(r) <==> WellFramed(m))
  {
    var r := Message(m.buf[4 := LowByte(t)]);
    assert r.buf[..4] == m.buf[..4];
    r
  }

  /** `set_urgent`: overwrites byte 5 only (`buf.at(5)` needs at least 6 bytes). */
  function SetUrgent(m: Message, urgent: bool): (r: Message)
    requires |m.buf| > 5
    ensures |r.buf| == |m.buf| && r.buf[5] == FlagByte(urgent)
    ensures forall i :: 0 <= i < |m.buf| && i != 5 ==> r.buf[i] == m.buf[i]
    ensures IsUrgent(r) == urgent && Type(r) == Type(m)
    ensures DataStr(r) == DataStr(m) && (WellFramed(r) <==> WellFramed(m))
  {
    var r := Message(m.buf[5 := FlagByte(urgent)]);
    assert r.buf[..4] == m.buf[..4];
    r
  }

  /** `clear_data`: drops the payload and rewrites the prefix. */
  function ClearData(m: Message): (r: Message)
    requires HasHeader(m)
    ensures |r.buf| == HEADER_SIZE && WellFramed(r)
    ensures r.buf[4..] == m.buf[4..HEADER_SIZE]
    ensures Type(r) == Type(m) && IsUrgent(r) == IsUrgent(m)
    ensures DataStr(r) == []
  {
    Message(Reframe(m.buf[..HEADER_SIZE]))
  }

  /** `append(const std::string &)`: adds `s` to the payload and rewrites the prefix. */
  function AppendString(m: Message, s: seq<byte>): (r: Message)
    requires HasHeader(m)
    ensures |r.buf| == |m.buf| + |s|
    ensures r.buf[4..HEADER_SIZE] == m.buf[4..HEADER_SIZE]
    ensures Type(r) == Type(m) && IsUrgent(r) == IsUrgent(m)
    ensures DataStr(r) == DataStr(m) + s
    ensures Prefix(r) == ToUint32(|r.buf|)
    ensures WellFramed(r) <==> |r.buf| < TWO_TO_32
  {
    var r := Message(Reframe(m.buf + s));
    assert r.buf[HEADER_SIZE..] == (m.buf + s)[HEADER_SIZE..] == DataStr(m) + s;
    assert r.buf[4..HEADER_SIZE] == (m.buf + s)[4..HEADER_SIZE] == m.buf[4..HEADER_SIZE];
    r
  }

  /** `append(const char *, unsigned int)`: adds the first `size` bytes of
      `src` to the payload and rewrites the prefix. */
  function AppendBytes(m: Message, src: seq<byte>, size: nat): (r: Message)
    requires HasHeader(m) && size <= |src|
    ensures |r.buf| == |m.buf| + size
    ensures r.buf[4..HEADER_SIZE] == m.buf[4..HEADER_SIZE]
    ensures Type(r) == Type(m) && IsUrgent(r) == IsUrgent(m)
    ensures DataStr(r) == DataStr(m) + src[..size]
    ensures Prefix(r) == ToUint32(|r.buf|)
    ensures WellFramed(r) <==> |r.buf| < TWO_TO_32
  {
    var r := Message(Reframe(m.buf + src[..size]));
    assert r.buf[HEADER_SIZE..] == (m.buf + src[..size])[HEADER_SIZE..];
    assert r.buf[4..HEADER_SIZE] == (m.buf + src[..size])[4..HEADER_SIZE] == m.buf[4..HEADER_SIZE];
    r
  }

  /** `append(float)`: adds the 4-byte encoding `enc` of the float to the
      payload but does NOT rewrite the prefix, which is then stale. */
  function AppendFloat(m: Message, enc: Bytes4): (r: Message)
    requires HasHeader(m)
    ensures |r.buf| == |m.buf| + 4
    ensures r.buf[..HEADER_SIZE] == m.buf[..HEADER_SIZE]
    ensures Prefix(r) == Prefix(m)
    ensures Type(r) == Type(m) && IsUrgent(r) == IsUrgent(m)
    ensures DataStr(r) == DataStr(m) + enc
    ensures WellFramed(m) ==> !WellFramed(r)
  {
    var r := Message(m.buf + enc);
    assert r.buf[..4] == m.buf[..4];
    assert r.buf[HEADER_SIZE..] == m.buf[HEADER_SIZE..] + enc;
    r
  }

  /** `type()`: byte 4 as a signed `char`; the byte is recovered from
      the value, so no information is lost. */
  function Type(m: Message): (r: int)
    requires HasHeader(m)
    ensures -128 <= r < 128 && LowByte(r) == m.buf[4]
  {
    SignedChar(m.buf[4])
  }

  /** `urgent()`: byte 5 is non-zero. Reading the flag back loses nothing
      exactly for the two bytes `set_urgent` writes. */
  function IsUrgent(m: Message): (r: bool)
    requires HasHeader(m)
    ensures FlagByte(r) == m.buf[5] <==> m.buf[5] < 2
    ensures m.buf[5] >= 2 ==> r
  {
    m.buf[5] != 0
  }

  /** `data_length()`: the payload size, returned as a 32-bit `int`. */
  function DataLength(m: Message): (r: int)
    requires HasHeader(m)
    ensures |m.buf| < HEADER_SIZE + TWO_TO_31 ==> r == |DataStr(m)|
  {
    ToInt32(|m.buf| - HEADER_SIZE)
  }

  /** `data_str()`: the payload bytes, i.e. the buffer is the header
      followed by the payload. */
  function DataStr(m: Message): (r: seq<byte>)
    requires HasHeader(m)
    ensures |r| == |m.buf| - HEADER_SIZE && m.buf == m.buf[..HEADER_SIZE] + r
  {
    m.buf[HEADER_SIZE..]
  }

  /** The header assertion of the appenders and accessors,
      `(int)buf.size() >= header_size`, agrees with `HasHeader` for every
      buffer below 2^31 bytes; from 2^31 up to 2^32 - 1 bytes the signed
      cast is negative and the assertion fails although the header is there. */
  lemma HeaderAssertion(m: Message)
    ensures |m.buf| < TWO_TO_31 ==> (ToInt32(|m.buf|) >= HEADER_SIZE <==> HasHeader(m))
    ensures TWO_TO_31 <= |m.buf| < TWO_TO_32 ==> HasHeader(m) && ToInt32(|m.buf|) < 0
  {
  }

  // ---------------------------------------------------------------------
  // A message as the result of its construction history.
  // ---------------------------------------------------------------------

  /** One call on a message after its construction. */
  datatype Edit =
    | SetTypeEdit(t: int)
    | SetUrgentEdit(urgent: bool)
    | ClearDataEdit
    | AppendStringEdit(s: seq<byte>)
    | AppendBytesEdit(src: seq<byte>, size: nat)
    | AppendFloatEdit(enc: Bytes4)

  /** The call's own preconditions, apart from the header being present. */
  predicate ValidEdit(e: Edit)
  {
    e.AppendBytesEdit? ==> e.size <= |e.src|
  }

  predicate ValidEdits(edits: seq<Edit>)
  {
    forall i :: 0 <= i < |edits| ==> ValidEdit(edits[i])
  }

  function ApplyEdit(m: Message, e: Edit): (r: Message)
    requires HasHeader(m) && ValidEdit(e)
    ensures HasHeader(r)
  {
    match e
    case SetTypeEdit(t) => SetType(m, t)
    case SetUrgentEdit(u) => SetUrgent(m, u)
    case ClearDataEdit => ClearData(m)
    case AppendStringEdit(s) => AppendString(m, s)
    case AppendBytesEdit(src, size) => AppendBytes(m, src, size)
    case AppendFloatEdit(enc) => AppendFloat(m, enc)
  }

  /** The message `Message(t, urgent)` followed by the calls in `edits`. */
  function Build(t: int, urgent: bool, edits: seq<Edit>): (r: Message)
    requires ValidEdits(edits)
    ensures HasHeader(r)
  {
    if |edits| == 0 then New(t, urgent)
    else ApplyEdit(Build(t, urgent, edits[..|edits| - 1]), edits[|edits| - 1])
  }

  /** The bytes one call contributes to the payload. */
  function Contribution(e: Edit): seq<byte>
    requires ValidEdit(e)
  {
    match e
    case AppendStringEdit(s) => s
    case AppendBytesEdit(src, size) => src[..size]
    case AppendFloatEdit(enc) => enc
    case _ => []
  }

  /** Everything appended since construction or the last `clear_data`. */
  function AppendedSinceClear(edits: seq<Edit>): seq<byte>
    requires ValidEdits(edits)
  {
    if |edits| == 0 then []
    else
      var last := edits[|edits| - 1];
      if last.ClearDataEdit? then []
      else AppendedSinceClear(edits[..|edits| - 1]) + Contribution(last)
  }

  /** The total length as of the last call that rewrote the prefix
      (construction, `clear_data` or a string/byte append). */
  function LengthAtLastReframe(edits: seq<Edit>): nat
    requires ValidEdits(edits)
  {
    if |edits| == 0 then HEADER_SIZE
    else
      var last := edits[|edits| - 1];
      match last
      case SetTypeEdit(_) => LengthAtLastReframe(edits[..|edits| - 1])
      case SetUrgentEdit(_) => LengthAtLastReframe(edits[..|edits| - 1])
      case AppendFloatEdit(_) => LengthAtLastReframe(edits[..|edits| - 1])
      case _ => HEADER_SIZE + |AppendedSinceClear(edits)|
  }

  /** The type most recently set: the last `set_type` argument, or the
      constructor's. */
  function LastType(t: int, edits: seq<Edit>): int
  {
    if |edits| == 0 then t
    else if edits[|edits| - 1].SetTypeEdit? then edits[|edits| - 1].t
    else LastType(t, edits[..|edits| - 1])
  }

  /** The urgency most recently set: the last `set_urgent` argument, or the
      constructor's. */
  function LastUrgent(urgent: bool, edits: seq<Edit>): bool
  {
    if |edits| == 0 then urgent
    else if edits[|edits| - 1].SetUrgentEdit? then edits[|edits| - 1].urgent
    else LastUrgent(urgent, edits[..|edits| - 1])
  }

  /** After any history, `type()` reads the last type set (as a signed
      `char`) and `urgent()` the last urgency set: no other call touches
      bytes 4 and 5. */
  lemma {:induction false} BuildHeader(t: int, urgent: bool, edits: seq<Edit>)
    requires ValidEdits(edits)
    ensures Type(Build(t, urgent, edits)) == SignedChar(LowByte(LastType(t, edits)))
    ensures IsUrgent(Build(t, urgent, edits)) == LastUrgent(urgent, edits)
  {
    if |edits| > 0 {
      var init := edits[..|edits| - 1];
      assert ValidEdits(init) by {
        forall i | 0 <= i < |init| ensures ValidEdit(init[i]) {
          assert init[i] == edits[i];
        }
      }
      BuildHeader(t, urgent, init);
    }
  }

  predicate NoFloatAppends(edits: seq<Edit>)
  {
    forall i :: 0 <= i < |edits| ==> !edits[i].AppendFloatEdit?
  }

  /** The payload is exactly what was appended since construction or the last
      `clear_data`, and the prefix holds the length as of the last call that
      rewrote it. */
  lemma {:induction false} BuildContents(t: int, urgent: bool, edits: seq<Edit>)
    requires ValidEdits(edits)
    ensures DataStr(Build(t, urgent, edits)) == AppendedSinceClear(edits)
    ensures Prefix(Build(t, urgent, edits)) == ToUint32(LengthAtLastReframe(edits))
  {
    if |edits| > 0 {
      var init := edits[..|edits| - 1];
      assert ValidEdits(init) by {
        forall i | 0 <= i < |init| ensures ValidEdit(init[i]) {
          assert init[i] == edits[i];
        }
      }
      BuildContents(t, urgent, init);
      var m := Build(t, urgent, init);
      assert |m.buf| == HEADER_SIZE + |AppendedSinceClear(init)|;
    }
  }

  /** Without float appends, the framing invariant holds after every history
      whose buffer fits the 32-bit prefix. */
  lemma FramedWithoutFloatAppends(t: int, urgent: bool, edits: seq<Edit>)
    requires ValidEdits(edits) && NoFloatAppends(edits)
    requires HEADER_SIZE + |AppendedSinceClear(edits)| < TWO_TO_32
    ensures WellFramed(Build(t, urgent, edits))
  {
    BuildContents(t, urgent, edits);
    ReframedLengthIsLength(edits);
  }

  lemma {:induction false} ReframedLengthIsLength(edits: seq<Edit>)
    requires ValidEdits(edits) && NoFloatAppends(edits)
    ensures LengthAtLastReframe(edits) == HEADER_SIZE + |AppendedSinceClear(edits)|
  {
    if |edits| > 0 {
      var init := edits[..|edits| - 1];
      assert ValidEdits(init) by {
        forall i | 0 <= i < |init| ensures ValidEdit(init[i]) {
          assert init[i] == edits[i];
        }
      }
      assert NoFloatAppends(init) by {
        forall i | 0 <= i < |init| ensures !init[i].AppendFloatEdit? {
          assert init[i] == edits[i];
        }
      }
      ReframedLengthIsLength(init);
    }
  }
}
