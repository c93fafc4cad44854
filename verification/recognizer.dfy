/**
 * `RecognizerProcess`: the validated decoder configuration (beam and
 * language-model scale) and the queue pair bound to the recognizer child.
 * Every operation is a pure transition on the process record.
 */
module Recognizer {
  import opened Wrappers
  import opened Endian
  import opened Text
  import opened Msg
  import opened Queues

  const MIN_BEAM: int := 1
  const MAX_BEAM: int := 300
  const MIN_LMSCALE: int := 1
  const MAX_LMSCALE: int := 100

  /** The size of the `char` buffer the setting text is formatted into. */
  const FORMAT_BUFFER_SIZE: nat := 20

  /** A C++ `unsigned int`. */
  type uint = n: int | 0 <= n < TWO_TO_32

  /** The parameter names the recognizer understands, as ASCII bytes. */
  const BEAM_NAME: seq<byte> := [0x62, 0x65, 0x61, 0x6D]
  const LMSCALE_NAME: seq<byte> := [0x6C, 0x6D, 0x5F, 0x73, 0x63, 0x61, 0x6C, 0x65]

  /** The byte constants spell the names used by `set_beam` and `set_lmscale`. */
  lemma ParameterNames()
    ensures BEAM_NAME == Bytes("beam") && LMSCALE_NAME == Bytes("lm_scale")
  {
  }

  datatype Process = Process(
    connect: string,
    script: string,
    beam: uint,
    lmscale: uint,
    created: bool,
    inQueue: InQueue,
    outQueue: OutQueue)

  /** Why construction was refused. */
  datatype ConstructError = BeamOutOfRange(beam: uint) | LmScaleOutOfRange(lmscale: uint)

  predicate BeamInRange(v: int)
  {
    MIN_BEAM <= v <= MAX_BEAM
  }

  predicate LmScaleInRange(v: int)
  {
    MIN_LMSCALE <= v <= MAX_LMSCALE
  }

  /** Both stored settings are within their bounds. */
  predicate Valid(p: Process)
  {
    BeamInRange(p.beam) && LmScaleInRange(p.lmscale)
  }

  // ---------------------------------------------------------------------
  // The decoder-setting message and how a receiver reads it back.
  // ---------------------------------------------------------------------

  /** The text `sprintf("%s %d", name, value)` writes; `%d` reads the
      unsigned value as a signed `int`. */
  function SettingText(name: seq<byte>, value: uint): seq<byte>
  {
    name + [SPACE] + FormatInt(ToInt32(value))
  }

  /** The setting text is the name, one space, then a signed decimal
      number with no space in it: the separator is the only space after
      the name. */
  lemma SettingTextLayout(name: seq<byte>, value: uint)
    ensures var t := SettingText(name, value);
      && |t| > |name| + 1 && t[..|name|] == name && t[|name|] == SPACE
      && SPACE !in t[|name| + 1..]
      && ParseInt(t[|name| + 1..]) == Some(ToInt32(value))
  {
    var t := SettingText(name, value);
    assert t[|name| + 1..] == FormatInt(ToInt32(value));
    ParseIntOfFormatInt(ToInt32(value));
  }

  /** A name/value pair as carried by a decoder-setting payload. */
  datatype Setting = Setting(name: seq<byte>, value: int)

  /** Reads `"<name> <value>"`: the name runs up to the first space. */
  function DecodeSetting(payload: seq<byte>): Option<Setting>
  {
    match IndexOf(payload, SPACE)
    case None => None
    case Some(i) =>
      match ParseInt(payload[i + 1..])
      case None => None
      case Some(v) => Some(Setting(payload[..i], v))
  }

  /** `m` is a well-framed, urgent decoder-setting message that a receiver
      reads as `name` = `value`. */
  predicate IsSetting(m: Message, name: seq<byte>, value: int)
  {
    && WellFramed(m)
    && Type(m) == M_DECODER_SETTING
    && IsUrgent(m)
    && DecodeSetting(DataStr(m)) == Some(Setting(name, value))
  }

  /** A receiver reads back exactly the name and the printed value. */
  lemma DecodeSettingText(name: seq<byte>, value: uint)
    ensures SPACE !in name ==>
      DecodeSetting(SettingText(name, value)) == Some(Setting(name, ToInt32(value)))
  {
    if SPACE in name { return; }
    var t := SettingText(name, value);
    assert t[|name|] == SPACE;
    assert t[..|name|] == name;
    assert IndexOf(t, SPACE) == Some(|name|);
    assert t[|name| + 1..] == FormatInt(ToInt32(value));
    ParseIntOfFormatInt(ToInt32(value));
  }

  /** What `send_parameter` needs of its arguments: the formatted text and
      its NUL fit the formatting buffer. */
  predicate Sendable(name: seq<byte>, value: uint)
  {
    |SettingText(name, value)| < FORMAT_BUFFER_SIZE
  }

  /** The message `send_parameter(name, value)` builds. */
  function SettingMessage(name: seq<byte>, value: uint): (m: Message)
    ensures HasHeader(m) && DataStr(m) == SettingText(name, value)
    ensures Type(m) == M_DECODER_SETTING && IsUrgent(m)
    ensures Prefix(m) == ToUint32(HEADER_SIZE + |SettingText(name, value)|)
  {
    var text := SettingText(name, value);
    var m := AppendString(New(M_DECODER_SETTING, true), text);
    assert DataStr(m) == [] + text == text;
    m
  }

  /** A setting message is well framed, and, when the name holds no space
      (the receiver splits at the first one), its receiver reads back the
      name and the value as `%d` printed it. */
  lemma SettingMessageDecodes(name: seq<byte>, value: uint)
    requires Sendable(name, value) && SPACE !in name
    ensures IsSetting(SettingMessage(name, value), name, ToInt32(value))
  {
    DecodeSettingText(name, value);
  }

  /** For every value the setters let through, the formatted text and its
      terminating NUL fit the 20-byte formatting buffer. */
  lemma SettingTextFits(name: seq<byte>, value: uint)
    requires name == BEAM_NAME || name == LMSCALE_NAME
    requires BeamInRange(value) || LmScaleInRange(value)
    ensures Sendable(name, value) && SPACE !in name
  {
    DigitsLength(value, Pow10(3), 3);
  }

  // ---------------------------------------------------------------------
  // The operations.
  // ---------------------------------------------------------------------

  /** `send_parameter`: queues one urgent decoder-setting message. */
  function SendParameter(p: Process, name: seq<byte>, value: uint): (r: Process)
    requires Sendable(name, value)
    ensures r.outQueue.queue == p.outQueue.queue + [SettingMessage(name, value)]
    ensures r == p.(outQueue := r.outQueue)
    ensures r.outQueue == p.outQueue.(queue := r.outQueue.queue)
  {
    p.(outQueue := AddMessage(p.outQueue, SettingMessage(name, value)))
  }

  /** The outcome of a setter: whether the value was accepted, and the new state. */
  datatype SetOutcome = SetOutcome(accepted: bool, process: Process)

  /** `set_beam`: accepts exactly the values within [MIN_BEAM, MAX_BEAM];
      an accepted value is stored and sent, a rejected one changes nothing. */
  function SetBeam(p: Process, value: uint): (r: SetOutcome)
    ensures r.accepted <==> BeamInRange(value)
    ensures !r.accepted ==> r.process == p
    ensures r.accepted ==> r.process.beam == value
    ensures r.accepted ==> r.process == p.(beam := value, outQueue := r.process.outQueue)
    ensures r.accepted ==> r.process.outQueue
                             == p.outQueue.(queue := p.outQueue.queue + [SettingMessage(BEAM_NAME, value)])
  {
    if value < MIN_BEAM || value > MAX_BEAM then SetOutcome(false, p)
    else
      SettingTextFits(BEAM_NAME, value);
      var sent := SendParameter(p, BEAM_NAME, value);
      SetOutcome(true, sent.(beam := value))
  }

  /** `set_lmscale`: accepts exactly the values within [MIN_LMSCALE,
      MAX_LMSCALE]; an accepted value is stored and sent, a rejected one
      changes nothing. */
  function SetLmScale(p: Process, value: uint): (r: SetOutcome)
    ensures r.accepted <==> LmScaleInRange(value)
    ensures !r.accepted ==> r.process == p
    ensures r.accepted ==> r.process.lmscale == value
    ensures r.accepted ==> r.process == p.(lmscale := value, outQueue := r.process.outQueue)
    ensures r.accepted ==> r.process.outQueue
                             == p.outQueue.(queue := p.outQueue.queue + [SettingMessage(LMSCALE_NAME, value)])
  {
    if value < MIN_LMSCALE || value > MAX_LMSCALE then SetOutcome(false, p)
    else
      SettingTextFits(LMSCALE_NAME, value);
      var sent := SendParameter(p, LMSCALE_NAME, value);
      SetOutcome(true, sent.(lmscale := value))
  }

  /** `send_settings`: queues the stored beam, then the stored LM scale. */
  function SendSettings(p: Process): (r: Process)
    requires Valid(p)
    ensures r.outQueue.queue == p.outQueue.queue
                                + [SettingMessage(BEAM_NAME, p.beam), SettingMessage(LMSCALE_NAME, p.lmscale)]
    ensures r == p.(outQueue := r.outQueue)
    ensures r.outQueue == p.outQueue.(queue := r.outQueue.queue)
  {
    SettingTextFits(BEAM_NAME, p.beam);
    SettingTextFits(LMSCALE_NAME, p.lmscale);
    SendParameter(SendParameter(p, BEAM_NAME, p.beam), LMSCALE_NAME, p.lmscale)
  }

  /** The constructor: validates the beam first, then the LM scale, through
      the setters (so each accepted value is also queued). */
  function Construct(connect: string, script: string, beam: uint, lmscale: uint)
    : (r: Result<Process, ConstructError>)
    ensures r.Failure? <==> !BeamInRange(beam) || !LmScaleInRange(lmscale)
    ensures !BeamInRange(beam) ==> r == Failure(BeamOutOfRange(beam))
    ensures BeamInRange(beam) && !LmScaleInRange(lmscale) ==> r == Failure(LmScaleOutOfRange(lmscale))
    ensures r.Success? ==> Valid(r.value) && !r.value.created
    ensures r.Success? ==> r.value.beam == beam && r.value.lmscale == lmscale
    ensures r.Success? ==> r.value.connect == connect && r.value.script == script
    ensures r.Success? ==> r.value.inQueue == NewInQueue()
    ensures r.Success? ==> r.value.outQueue
                             == NewOutQueue().(queue := [SettingMessage(BEAM_NAME, beam), SettingMessage(LMSCALE_NAME, lmscale)])
  {
    var blank := Process(connect, script, 0, 0, false, NewInQueue(), NewOutQueue());
    var b := SetBeam(blank, beam);
    if !b.accepted then Failure(BeamOutOfRange(beam))
    else
      var l := SetLmScale(b.process, lmscale);
      if !l.accepted then Failure(LmScaleOutOfRange(lmscale))
      else
        Success(l.process)
  }

  /** The parent side of `start`, once the child exists with the two pipe
      descriptors: bind both queues, then send the settings. */
  function Start(p: Process, readFd: int, writeFd: int): (r: Process)
    requires Valid(p)
    ensures r.created
    ensures r.inQueue == p.inQueue.(fd := readFd)
    ensures r.outQueue == p.outQueue.(fd := writeFd, queue := r.outQueue.queue)
    ensures r == p.(created := true, inQueue := r.inQueue, outQueue := r.outQueue)
    ensures r.outQueue.queue == p.outQueue.queue
                                + [SettingMessage(BEAM_NAME, p.beam), SettingMessage(LMSCALE_NAME, p.lmscale)]
  {
    var bound := p.(created := true,
                    inQueue := EnableIn(p.inQueue, readFd),
                    outQueue := EnableOut(p.outQueue, writeFd));
    SendSettings(bound)
  }

  /** `finish`: without a child nothing changes; otherwise the child is
      reaped and both queues are unbound. */
  function Finish(p: Process): (r: Process)
    ensures !p.created ==> r == p
    ensures p.created ==> !r.created && r.inQueue.fd == NO_FD && r.outQueue.fd == NO_FD
    ensures p.created ==> r.inQueue == p.inQueue.(fd := NO_FD, buffer := [], bytesGot := 0)
    ensures p.created ==> r.outQueue == p.outQueue.(fd := NO_FD)
    ensures r == p.(created := r.created, inQueue := r.inQueue, outQueue := r.outQueue)
  {
    if p.created then
      p.(created := false, inQueue := DisableIn(p.inQueue), outQueue := DisableOut(p.outQueue))
    else p
  }

  /** Finishing is idempotent. */
  lemma FinishIdempotent(p: Process)
    ensures Finish(Finish(p)) == Finish(p)
  {
  }

  /** No operation ever stores an out-of-range setting. */
  lemma OperationsPreserveValid(p: Process, value: uint, readFd: int, writeFd: int)
    requires Valid(p)
    ensures Valid(SetBeam(p, value).process)
    ensures Valid(SetLmScale(p, value).process)
    ensures Valid(SendSettings(p))
    ensures Valid(Start(p, readFd, writeFd))
    ensures Valid(Finish(p))
  {
  }

  /** The setters' range checks are exactly the constructor's: a rejected
      value leaves state and queue alone, a boundary value is accepted. */
  lemma SetterBoundaries(p: Process)
    ensures !SetBeam(p, 0).accepted && SetBeam(p, 0).process == p
    ensures !SetBeam(p, 301).accepted && SetBeam(p, 301).process == p
    ensures SetBeam(p, 1).accepted && SetBeam(p, 300).accepted
    ensures !SetLmScale(p, 0).accepted && !SetLmScale(p, 101).accepted
    ensures SetLmScale(p, 1).accepted && SetLmScale(p, 100).accepted
  {
  }

  /** Constructing with beam 15 and LM scale 30 and then starting leaves
      four messages queued: the two the constructor's setters sent, then the
      two `send_settings` sent. */
  lemma ConstructThenStart(connect: string, script: string, readFd: int, writeFd: int)
    ensures Construct(connect, script, 15, 30).Success?
    ensures
      var q := Start(Construct(connect, script, 15, 30).value, readFd, writeFd).outQueue.queue;
      q == [SettingMessage(BEAM_NAME, 15), SettingMessage(LMSCALE_NAME, 30),
            SettingMessage(BEAM_NAME, 15), SettingMessage(LMSCALE_NAME, 30)]
  {
    var p := Construct(connect, script, 15, 30).value;
    assert p.outQueue.queue == [SettingMessage(BEAM_NAME, 15), SettingMessage(LMSCALE_NAME, 30)];
  }

  /** The two messages of that handshake carry the ASCII texts `beam 15`
      and `lm_scale 30`, with length prefixes 13 and 17. */
  lemma HandshakePayloads()
    ensures DataStr(SettingMessage(BEAM_NAME, 15)) == BEAM_NAME + [SPACE, 0x31, 0x35]
    ensures Prefix(SettingMessage(BEAM_NAME, 15)) == 13
    ensures DataStr(SettingMessage(LMSCALE_NAME, 30)) == LMSCALE_NAME + [SPACE, 0x33, 0x30]
    ensures Prefix(SettingMessage(LMSCALE_NAME, 30)) == 17
  {
    assert Digits(15) == [ZERO + 1, ZERO + 5];
    assert Digits(30) == [ZERO + 3, ZERO];
    SettingTextOfSmallValue(BEAM_NAME, 15);
    SettingTextOfSmallValue(LMSCALE_NAME, 30);
  }

  /** A value below 2^31 prints as its plain decimal digits. */
  lemma SettingTextOfSmallValue(name: seq<byte>, value: uint)
    requires value < TWO_TO_31
    ensures SettingText(name, value) == name + [SPACE] + Digits(value)
  {
    assert ToInt32(value) == value;
  }
}
