/**
 * `WindowSettings::do_ok`: the settings dialog reads four fields, validates
 * all of them, and only then applies them -- the spectrogram contrast and
 * darkness always, the beam and LM scale only when a recognizer is running.
 * The text parsing of each field is abstracted to the number it yields.
 */
module Settings {
  import opened Wrappers
  import opened Endian
  import opened Queues
  import opened Recognizer

  /** The bounds the dialog passes to its readers. */
  const DIALOG_MIN_BEAM: int := 1
  const DIALOG_MAX_BEAM: int := 300
  const DIALOG_MIN_LMSCALE: int := 1
  const DIALOG_MAX_LMSCALE: int := 100
  const SPECTRUM_MIN: real := 0.0
  const SPECTRUM_MAX: real := 1.0

  /** What a reader returns, and what it leaves in `*ok` (`None`: null pointer). */
  datatype Reading<T> = Reading(value: T, ok: Option<bool>)

  /** `read_long_value`: accepts `min <= v <= max`. An accepted value is
      returned and `*ok` is left as it was; a rejected one yields 0 and
      `*ok == false`; with no `ok` pointer the result is 0. */
  function ReadLongValue(v: int, min: int, max: int, ok: Option<bool>): (r: Reading<int>)
    ensures ok.None? ==> r == Reading(0, None)
    ensures ok.Some? && min <= v <= max ==> r == Reading(v, ok)
    ensures ok.Some? && (v < min || v > max) ==> r == Reading(0, Some(false))
  {
    if ok.None? then Reading(0, ok)
    else if v < min || v > max then Reading(0, Some(false))
    else Reading(v, ok)
  }

  /** `read_float_value`: accepts `min < v < max`, so both bounds themselves
      are rejected; otherwise as `read_long_value`. */
  function ReadFloatValue(v: real, min: real, max: real, ok: Option<bool>): (r: Reading<real>)
    ensures ok.None? ==> r == Reading(0.0, None)
    ensures ok.Some? && min < v < max ==> r == Reading(v, ok)
    ensures ok.Some? && (v <= min || v >= max) ==> r == Reading(0.0, Some(false))
  {
    if ok.None? then Reading(0.0, ok)
    else if v <= min || v >= max then Reading(0.0, Some(false))
    else Reading(v, ok)
  }

  /** The spectrogram's two display parameters. */
  datatype Spectrogram = Spectrogram(exponent: real, suppressor: real)

  /** The numbers the four line edits parse to. */
  datatype DialogInput = DialogInput(exponent: real, suppressor: real, beam: int, lmscale: int)

  /** The field whose error message the dialog shows. */
  datatype DialogError = ContrastInvalid | DarknessInvalid | BeamInvalid | LmScaleInvalid

  /** `closes` is `do_ok`'s return value; `endRunning` records a call of
      `end_running` with its argument. */
  datatype DoOkResult = DoOkResult(
    closes: bool,
    error: Option<DialogError>,
    spectrogram: Spectrogram,
    recognizer: Option<Process>,
    endRunning: Option<int>)

  predicate InSpectrumRange(v: real)
  {
    SPECTRUM_MIN < v < SPECTRUM_MAX
  }

  /** Shows `e` and keeps the dialog open with nothing applied. */
  function Refuse(e: DialogError, spectrogram: Spectrogram, recognizer: Option<Process>): DoOkResult
  {
    DoOkResult(false, Some(e), spectrogram, recognizer, None)
  }

  /** `do_ok`, given what flushing the recognizer's out-queue reports. */
  function DoOk(input: DialogInput, spectrogram: Spectrogram, recognizer: Option<Process>,
                flush: FlushResult): (r: DoOkResult)
    // the fields are checked in order and the first bad one is reported
    ensures r.error == Some(ContrastInvalid) <==> !InSpectrumRange(input.exponent)
    ensures r.error == Some(DarknessInvalid) <==>
      InSpectrumRange(input.exponent) && !InSpectrumRange(input.suppressor)
    ensures r.error == Some(BeamInvalid) <==>
      InSpectrumRange(input.exponent) && InSpectrumRange(input.suppressor)
      && recognizer.Some? && !BeamInRange(input.beam)
    ensures r.error == Some(LmScaleInvalid) <==>
      InSpectrumRange(input.exponent) && InSpectrumRange(input.suppressor)
      && recognizer.Some? && BeamInRange(input.beam) && !LmScaleInRange(input.lmscale)
    // nothing is applied unless everything was valid
    ensures r.error.Some? ==>
      !r.closes && r.spectrogram == spectrogram && r.recognizer == recognizer && r.endRunning.None?
    ensures r.error.None? ==> r.spectrogram == Spectrogram(input.exponent, input.suppressor)
    ensures r.error.None? && recognizer.None? ==> r.closes && r.recognizer.None? && r.endRunning.None?
    // with a recognizer, both setters succeed and both settings are queued
    ensures r.error.None? && recognizer.Some? ==>
      && r.recognizer.Some?
      && r.recognizer.value.beam == input.beam
      && r.recognizer.value.lmscale == input.lmscale
      && r.recognizer.value.outQueue.queue == recognizer.value.outQueue.queue
           + [SettingMessage(BEAM_NAME, input.beam), SettingMessage(LMSCALE_NAME, input.lmscale)]
      && r.recognizer.value == recognizer.value.(beam := r.recognizer.value.beam,
                                                 lmscale := r.recognizer.value.lmscale,
                                                 outQueue := r.recognizer.value.outQueue)
      && r.recognizer.value.outQueue
           == recognizer.value.outQueue.(queue := r.recognizer.value.outQueue.queue)
    // on a broken pipe `end_running(-1)` is called and `do_ok` returns false
    ensures r.error.None? && recognizer.Some? ==>
      (r.closes <==> flush.FlushOk?) && (r.endRunning == Some(-1) <==> flush.BrokenPipe?)
      && (flush.FlushOk? ==> r.endRunning.None?)
  {
    var exponent := ReadFloatValue(input.exponent, SPECTRUM_MIN, SPECTRUM_MAX, Some(true));
    if exponent.ok != Some(true) then Refuse(ContrastInvalid, spectrogram, recognizer)
    else
      var suppressor := ReadFloatValue(input.suppressor, SPECTRUM_MIN, SPECTRUM_MAX, exponent.ok);
      if suppressor.ok != Some(true) then Refuse(DarknessInvalid, spectrogram, recognizer)
      else
        var applied := Spectrogram(exponent.value, suppressor.value);
        if recognizer.None? then DoOkResult(true, None, applied, None, None)
        else
          var beam := ReadLongValue(input.beam, DIALOG_MIN_BEAM, DIALOG_MAX_BEAM, suppressor.ok);
          if beam.ok != Some(true) then Refuse(BeamInvalid, spectrogram, recognizer)
          else
            var lmscale := ReadLongValue(input.lmscale, DIALOG_MIN_LMSCALE, DIALOG_MAX_LMSCALE, beam.ok);
            if lmscale.ok != Some(true) then Refuse(LmScaleInvalid, spectrogram, recognizer)
            else
              // `long` -> `int` -> `unsigned int`; all three hold values in range unchanged
              var b := SetBeam(recognizer.value, ToInt32(beam.value));
              var l := SetLmScale(b.process, ToInt32(lmscale.value));
              match flush
              case FlushOk => DoOkResult(true, None, applied, Some(l.process), None)
              case BrokenPipe(_) => DoOkResult(false, None, applied, Some(l.process), Some(-1))
  }

  /** The dialog's bounds are the recognizer's: the dialog lets a value
      through exactly when the matching setter accepts it, so the setters
      called after validation never fail. */
  lemma DialogBoundsAreSetterBounds(p: Process, v: uint)
    ensures ReadLongValue(v, DIALOG_MIN_BEAM, DIALOG_MAX_BEAM, Some(true)).ok == Some(true)
            <==> SetBeam(p, v).accepted
    ensures ReadLongValue(v, DIALOG_MIN_LMSCALE, DIALOG_MAX_LMSCALE, Some(true)).ok == Some(true)
            <==> SetLmScale(p, v).accepted
  {
  }

  /** Without a recognizer the beam and LM-scale fields are neither
      validated nor used. */
  lemma NoRecognizerIgnoresDecoderFields(input: DialogInput, spectrogram: Spectrogram,
                                         flush: FlushResult, beam: int, lmscale: int)
    ensures DoOk(input, spectrogram, None, flush)
            == DoOk(input.(beam := beam, lmscale := lmscale), spectrogram, None, flush)
  {
  }

  /** The float readers reject the endpoints of the open range (0, 1). */
  lemma SpectrumEndpointsRejected(ok: bool)
    ensures ReadFloatValue(SPECTRUM_MIN, SPECTRUM_MIN, SPECTRUM_MAX, Some(ok)).ok == Some(false)
    ensures ReadFloatValue(SPECTRUM_MAX, SPECTRUM_MIN, SPECTRUM_MAX, Some(ok)).ok == Some(false)
    ensures ReadFloatValue(0.5, SPECTRUM_MIN, SPECTRUM_MAX, Some(true)).ok == Some(true)
  {
  }
}
