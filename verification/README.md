# Recognizer messaging core, modelled in Dafny

This project models the sequential logic under the online speech-recognition
demo GUI:

- **Message framing** (`msg::Message`). A message is a byte buffer. It starts
  with a 6-byte header: a 4-byte total length, a type byte and an urgent byte.
  The payload follows. Each mutator is a pure function on the buffer. Its
  contract says whether the length prefix is rewritten or left alone.
- **Stream decoding and queue records.** There is a decoder that cuts complete
  messages off a received byte stream, following the documented layout. The
  `InQueue`/`OutQueue` state is modelled as plain records, together with the
  operations whose bodies are visible.
- **The recognizer's configuration state machine** (`RecognizerProcess`). It
  covers range-checked beam and LM-scale setters that queue urgent
  decoder-setting messages, the constructor, the parent side of `start`, and
  `finish`.
- **The settings dialog's `do_ok`.** The dialog validates all four fields
  before it applies any of them. When the flush reports a broken pipe,
  `do_ok` calls `end_running(-1)` and returns false.

Modules, one per concern:

| file | module | contents |
|---|---|---|
| wrappers.dfy | `Wrappers` | `Option`, `Result` |
| endian.dfy | `Endian` | `byte`, the 4-byte length codec, 32-bit conversions |
| text.dfy | `Text` | ASCII decimal formatting (`%d`) and its parser |
| msg.dfy | `Msg` | `Message`, header constants, type enumeration, mutators, accessors, construction histories |
| framing.dfy | `Framing` | `Serialise`/`Parse` of a byte stream |
| queues.dfy | `Queues` | `InQueue`, `OutQueue`, `FlushResult` (the broken-pipe exception as a value) |
| recognizer.dfy | `Recognizer` | `RecognizerProcess` state and transitions |
| settings.dfy | `Settings` | `read_long_value`, `read_float_value`, `do_ok` |

Modelling decisions:

- Bytes are `newtype byte = 0..255`. A C++ `char` is read as unsigned,
  except in `type()`, which returns it as a signed `char`, as on x86 Linux
  (`Msg.SignedChar`).
- `endian.hh` is not part of this model. `Endian.Encode4` is one concrete
  encoder: it writes the value modulo 2^32, least significant byte first.
  The rest of the model relies only on `Decode4(Encode4(n)) == n mod 2^32`.
  As a result, "prefix == buffer length" holds exactly when the buffer is
  shorter than 2^32 bytes.
- `append(float)` appends four bytes and does **not** rewrite the length
  prefix. The model keeps this behaviour. `Msg.AppendFloat` proves that the
  prefix is stale afterwards. `Msg.BuildContents` states what the prefix holds
  after any history of calls: the length as of the last call that rewrote it.
- `sprintf("%s %d", name, value)` takes an `unsigned int` and prints it with
  `%d`. It is modelled as printing the value after conversion to a signed
  32-bit `int`. `send_parameter` formats into a 20-byte buffer. The model
  requires the text and its NUL to fit (`Recognizer.Sendable`). That the
  receiver reads the name back additionally needs a name without a space
  (`Recognizer.SettingMessageDecodes`); both names sent have none.
  `Recognizer.SettingTextFits` proves that every value a setter lets through
  fits.
- The constructor runs `set_beam` and `set_lmscale`, and each of them queues a
  message. `start` then queues both settings again. So after construction with
  beam 15 and LM scale 30 followed by `start`, the out-queue holds four
  messages: beam, LM scale, beam, LM scale (`Recognizer.ConstructThenStart`).
- `add_message` is taken to append, as its doc comment says.
- The bodies of `enable`/`disable` and of the queue constructors (msg.cc) are
  not part of this model. Constructors give empty queues bound to their `fd`
  argument, -1 by default. `enable(fd)` only binds the descriptor. The
  in-queue's `disable()` unbinds and drops the bytes of a partly received
  message, keeping the completed messages for the owner to drain
  (`Queues.RebindStartsFresh`). The out-queue's `disable()` only unbinds.
- `Process::create`, `is_created` and `finish` are not part of this model.
  `Start` receives the two pipe descriptors and marks the child as created.
  `Finish` clears that mark.
- `str2long`/`str2float` are not part of this model. Each line edit is
  abstracted to the number it parses to. Float fields are compared over
  `real`.

## Model

| member | source | states |
|---|---|---|
| Endian.Decode4Encode4 | common/msg.hh:14-22 | reading back a written length prefix gives the value modulo 2^32, and gives it exactly below 2^32 |
| Endian.Encode4Decode4 | common/msg.hh:14-22 | a 4-byte field is determined by the value it decodes to |
| Text.ParseIntOfFormatInt | demogui/RecognizerProcess.cc:138 | the decimal text printed by `%d` parses back to the same signed integer |
| Text.FormatInt | demogui/RecognizerProcess.cc:138 | the `%d` text of an integer is non-empty and has no space; it starts with a minus sign exactly for negative values and is otherwise decimal digits with no leading zero; 0 prints as the single digit `0` |
| Msg.New | common/msg.hh:73-79 | a new message is exactly 6 bytes; its prefix decodes to 6; byte 4 holds the type (read back unchanged for types below 128); byte 5 holds the urgent flag; the payload is empty; type 0 and not urgent are the defaults |
| Msg.SetType | common/msg.hh:81-84 | only byte 4 changes; the length, the prefix, the urgent flag and the payload are untouched |
| Msg.SetUrgent | common/msg.hh:86-89 | only byte 5 changes; `urgent()` then returns the new flag; type, length and payload are untouched |
| Msg.ClearData | common/msg.hh:91-95 | the buffer is cut back to the 6-byte header; the prefix becomes 6; type and urgent flag are preserved |
| Msg.AppendString | common/msg.hh:97-102 | the buffer grows by exactly the appended bytes; the payload gains them at the end; header bytes 4-5 are kept; the prefix holds the new length mod 2^32, so it stays framed iff the buffer is shorter than 2^32 |
| Msg.AppendBytes | common/msg.hh:104-110 | as `AppendString`, for the first `size` bytes of the source |
| Msg.AppendFloat | common/msg.hh:112-118 | the buffer grows by exactly 4 bytes and bytes 0-5 are unchanged, so a framed message is no longer framed |
| Msg.DataLength | common/msg.hh:132-136 | `data_length()` is the payload size (buffer length minus 6) whenever that fits in an `int` |
| Msg.Type | common/msg.hh:120-124 | `type()` lies in the signed `char` range -128..127 and keeps byte 4 intact: its low byte is byte 4 |
| Msg.IsUrgent | common/msg.hh:126-130 | `urgent()` reads byte 5 back without loss exactly when the byte is 0 or 1, the two values `set_urgent` writes; any byte above 1 arriving on the wire reads as urgent |
| Msg.DataStr | common/msg.hh:148-151 | `data_str()` is everything after the 6-byte header: the buffer is the header followed by it |
| Msg.HeaderAssertion | common/msg.hh:97-136 | the appenders' and accessors' assertion `(int)buf.size() >= header_size` agrees with "the header is present" below 2^31 bytes, and fails from 2^31 to 2^32 - 1 bytes although the header is present |
| Msg.BuildContents | common/msg.hh:91-118 | after any sequence of calls, `data_str()` is exactly what was appended since construction or the last `clear_data`, and the prefix holds the length as of the last call that rewrote it |
| Msg.BuildHeader | common/msg.hh:73-130 | after any sequence of calls, `type()` reads the last type set and `urgent()` the last urgency set, since no other call touches bytes 4 and 5 |
| Msg.FramedWithoutFloatAppends | common/msg.hh:73-110 | construction, `set_type`, `set_urgent`, `clear_data` and the string/byte appends keep "prefix == buffer length" |
| Framing.Parse | common/msg.hh:177-181 | the stream decoder returns only well-framed messages and leaves a remainder that holds no complete message |
| Framing.ParseReassembles | common/msg.hh:14-22 | the decoded messages followed by the remainder are exactly the bytes received |
| Framing.ParseSerialise | common/msg.hh:14-22 | writing well-framed messages back to back and decoding the result gives back the same messages and the same incomplete tail |
| Framing.ParseAppend | common/msg.hh:177-181 | bytes that arrive later never change the messages already decoded |
| Framing.ShortPrefixStalls | common/msg.hh:14-22 | a stream whose first length prefix is below the header size never yields a message, whatever bytes follow |
| Framing.ZeroPrefixStalls | common/msg.hh:14-22 | the stream starting with prefix 0, type 8, urgent never yields a message |
| Queues.NewInQueue | common/msg.hh:161 | a new in-queue is empty, bound to its `fd` argument (-1, unbound, by default), not at EOF and not suspended |
| Queues.NewOutQueue | common/msg.hh:209 | a new out-queue is empty with nothing in flight, bound to its `fd` argument (-1, unbound, by default) |
| Queues.MuxSuspend | common/msg.hh:165-169 | sets the suspended flag, so the mux ignores the queue; every other field is unchanged |
| Queues.MuxRelease | common/msg.hh:171-175 | clears the suspended flag, so the mux uses the queue again; every other field is unchanged |
| Queues.SuspendReleaseRoundTrip | common/msg.hh:165-175 | release undoes suspend, suspend undoes release, and each is idempotent |
| Queues.Receive | common/msg.hh:177-181 | received bytes only add well-framed messages at the back of the queue, and the added messages followed by the new buffer are exactly the old buffer followed by the received bytes; the remainder holds no complete message; nothing but the queue and the buffer changes |
| Queues.ReceiveInPieces | common/msg.hh:177-181 | receiving bytes in two reads leaves the queue exactly as one read of all of them, so a message split across reads is reassembled |
| Queues.ReceiveWholeMessages | common/msg.hh:177-181 | receiving the bytes of N well-framed messages queues exactly those N messages in order and buffers nothing |
| Queues.EnableIn | common/msg.hh:162 | binds the in-queue to the descriptor; every other field is unchanged |
| Queues.DisableIn | common/msg.hh:163 | unbinds the in-queue and drops the partly received bytes; the completed messages, the name and both flags are kept |
| Queues.RebindStartsFresh | common/msg.hh:161-163 | after `disable` and `enable(fd)`, the bytes read from the new descriptor are decoded from their first byte, behind the old completed messages; disabling twice is disabling once |
| Queues.EnableOut | common/msg.hh:212-214 | binds the out-queue to the descriptor; pending messages, the in-flight buffer and its progress are kept |
| Queues.DisableOut | common/msg.hh:216-217 | unbinds the out-queue; pending messages, the in-flight buffer and its progress are kept |
| Queues.AddMessage | common/msg.hh:235-236 | the message joins the back of the pending queue; the earlier entries, the in-flight buffer and the descriptor are unchanged |
| Queues.Clear | common/msg.hh:238-239 | empties the pending queue only; the in-flight buffer, its progress and the descriptor are kept |
| Queues.ClearThenAdd | common/msg.hh:235-239 | after `clear` the queue holds only what is added next; `clear` is idempotent and changes nothing only on an empty queue |
| Recognizer.ParameterNames | demogui/RecognizerProcess.cc:108-120 | the name constants are the ASCII bytes of `beam` and `lm_scale` |
| Recognizer.DecodeSettingText | demogui/RecognizerProcess.cc:138 | a receiver that splits `"<name> <value>"` at the first space reads back the name and the printed value |
| Recognizer.SettingTextLayout | demogui/RecognizerProcess.cc:138 | the text `sprintf` writes is the name, one space, then the value's `%d` text, which has no space and parses back to the value as a signed 32-bit `int` |
| Recognizer.SettingTextOfSmallValue | demogui/RecognizerProcess.cc:138 | an `unsigned int` below 2^31 survives the `%d` conversion: the text is the name, a space and the value's plain decimal digits |
| Recognizer.SettingMessage | demogui/RecognizerProcess.cc:132-141 | the message built by `send_parameter` has type `M_DECODER_SETTING`, is urgent, carries the text `name value`, and its prefix is 6 plus the text length |
| Recognizer.SettingMessageDecodes | demogui/RecognizerProcess.cc:132-141 | that message is well framed and, for a name without a space, decodes to the given name and value |
| Recognizer.SettingTextFits | demogui/RecognizerProcess.cc:136-138 | for both parameter names and every in-range value, the formatted text and its NUL fit the 20-byte buffer, and the name holds no space |
| Recognizer.SendParameter | demogui/RecognizerProcess.cc:132-141 | exactly one setting message is appended to the out-queue; every other field of the process and of the out-queue (descriptor, in-flight buffer, bytes sent) is unchanged |
| Recognizer.SetBeam | demogui/RecognizerProcess.cc:101-111 | succeeds iff 1 <= v <= 300; on success it stores v and appends exactly the beam message, and nothing else in the process or its out-queue changes; on failure nothing changes |
| Recognizer.SetLmScale | demogui/RecognizerProcess.cc:113-123 | succeeds iff 1 <= v <= 100; on success it stores v and appends exactly the lm_scale message, and nothing else in the process or its out-queue changes; on failure nothing changes |
| Recognizer.SendSettings | demogui/RecognizerProcess.cc:125-130 | appends the beam message, then the lm_scale message, using the stored values; no other field of the process or of its out-queue changes |
| Recognizer.Construct | demogui/RecognizerProcess.cc:10-28 | fails iff beam or LM scale is out of range, reporting the beam first; on success the command and script are kept, both values are stored, no child exists, the in-queue is a fresh one and the out-queue is a fresh one holding [beam message, lm_scale message] |
| Recognizer.Start | demogui/RecognizerProcess.cc:59-68 | marks the child created, binds the in-queue to the read descriptor and the out-queue to the write descriptor, then appends the two settings messages after whatever is already queued; nothing else changes |
| Recognizer.Finish | demogui/RecognizerProcess.cc:71-79 | changes nothing when no child was created; otherwise it clears the created flag and disables both queues (see `Queues.DisableIn`/`DisableOut`); nothing else changes |
| Recognizer.FinishIdempotent | demogui/RecognizerProcess.cc:71-79 | finishing twice is finishing once |
| Recognizer.OperationsPreserveValid | demogui/RecognizerProcess.cc:101-123 | no operation stores an out-of-range beam or LM scale |
| Recognizer.SetterBoundaries | demogui/RecognizerProcess.cc:5-8 | 0 and 301 are refused as beams and leave the state intact; 1 and 300 are accepted; for the LM scale, 0 and 101 are refused and 1 and 100 accepted |
| Recognizer.ConstructThenStart | demogui/RecognizerProcess.cc:10-68 | construction with beam 15 and LM scale 30 followed by `start` leaves four messages queued: beam, lm_scale, beam, lm_scale |
| Recognizer.HandshakePayloads | demogui/RecognizerProcess.cc:132-141 | those messages carry `beam 15` and `lm_scale 30`, with prefixes 13 and 17 |
| Settings.ReadLongValue | demogui/WindowSettings.cc:151-168 | accepts iff min <= v <= max; it returns v and leaves `*ok` alone on acceptance, and returns 0 with `*ok` false on rejection; a null `ok` gives 0 |
| Settings.ReadFloatValue | demogui/WindowSettings.cc:131-149 | accepts iff min < v < max, so the bounds themselves are rejected; otherwise it behaves as `read_long_value` |
| Settings.DoOk | demogui/WindowSettings.cc:64-129 | validates exponent, suppressor, beam and LM scale in that order and reports the first failure, with nothing applied; with no recognizer, beam and LM scale are neither checked nor used; after validation both setters succeed, the process changes only in the two values and the two queued messages; on a broken pipe it calls `end_running(-1)` and returns false, otherwise it returns true |
| Settings.DialogBoundsAreSetterBounds | demogui/WindowSettings.cc:88-98 | the dialog lets through a beam or LM scale exactly when the matching setter accepts it |
| Settings.NoRecognizerIgnoresDecoderFields | demogui/WindowSettings.cc:87-117 | without a recognizer, the result does not depend on the beam and LM-scale fields |
| Settings.SpectrumEndpointsRejected | demogui/WindowSettings.cc:143-146 | the float reader rejects 0 and 1 themselves and accepts a value inside the range |

## Left out

- The multiplexer (`Mux::wait_and_flush`, `create_fd_sets`) waits on OS `select`. Its implementation file is not part of this model. `Queues.MuxWatches` records only what the doc comments promise: a suspended queue is ignored.
- The read loop of `InQueue::flush` (EOF detection, read errors, `bytes_got`) is OS I/O, and its body (msg.cc) is not part of this model. `Queues.Receive` models the decoding of the bytes that were read by the message layout of common/msg.hh:14-22.
- Framing.Parse: a length prefix below 6 cannot describe a message. The model treats it as an incomplete message, so the stream stalls behind it (`Framing.ShortPrefixStalls`). What the reading loop does with such a prefix is not known here: it could loop on prefix 0 or cut a message without a header.
- `OutQueue::prepare_next`, `send_next`, `flush` and `clear_non_urgent` are declared only; their bodies are not part of this model. The result of a flush enters `Settings.DoOk` as a `FlushResult` parameter. The effect of the flush on the queue's contents is not modelled.
- `set_non_blocking` is an OS call.
- The child branch of `start` is left out: `fork`, `execvp`, `_exit` and the argument vector built with `str::split`. This is process creation, and `str::split` is not part of this model.
- The float encoding written by `append(float)` is abstracted: the float enters as its 4-byte image. The byte order of `endian::put4` is chosen, not known.
- `data_ptr()` returns a raw pointer and has no counterpart here. The `raw` flag of `Message` is set by the constructor and is not read by any modelled code, so it is dropped.
- Msg.AppendString: the assertion `(int)buf.size() >= header_size` is modelled as the precondition `HasHeader`, i.e. as it behaves in a build without assertions. The two differ only for buffers of 2^31 to 2^32 - 1 bytes, where the signed cast makes the assertion fail (`Msg.HeaderAssertion`).
- Msg.AppendBytes: the same header assertion is modelled as `HasHeader`, as for `Msg.AppendString`.
- Msg.AppendFloat: the same header assertion is modelled as `HasHeader`, as for `Msg.AppendString`.
- Msg.Type: the same header assertion is modelled as `HasHeader`, as for `Msg.AppendString`.
- Msg.IsUrgent: the same header assertion is modelled as `HasHeader`, as for `Msg.AppendString`.
- Msg.DataLength: the same header assertion is modelled as `HasHeader`, as for `Msg.AppendString`.
- Msg.DataStr: returns the whole payload even when the payload is 2^31 bytes or more, where the C++ length turns negative and the header assertion of `data_length()` fails.
- `Msg.SetType`, `Msg.SetUrgent` and `Msg.ClearData`: the `std::out_of_range` exceptions thrown by `at()` and `erase()` on too-short buffers appear as preconditions, not as results.
- `Recognizer.SendParameter`: a formatted text that overflows the 20-byte buffer is undefined behaviour in C++. It is excluded by a precondition, not modelled.
- `Recognizer.Construct`: the text of the exception message is not modelled, only which check failed.
- `Settings.ReadFloatValue`: compares over `real`, so a NaN parsed from the text is not modelled. In C++ a NaN would pass both comparisons.
- `Settings.DoOk`: the error dialogs appear only as the `DialogError` that is shown. The spectrogram setters appear as the returned `Spectrogram` record.
- Settings.DoOk: `end_running` is a method of the window class, which is not part of this model. The call appears only as the recorded argument -1; what it does is not modelled. The effect of the flush on the out-queue's contents is not modelled either.
- The commented-out `read_settings` is dead code that does file I/O.
- Widget construction and drawing are out of scope. This covers `WindowSettings::initialize`, the dialog constructor, `WidgetRecognitionText.cc` and the window headers.
