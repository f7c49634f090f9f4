/**
 * Sounds: a sample rate and a buffer of 16-bit samples updated in place,
 * with blank-buffer construction, indexed access, deep copy, clip and copy.
 */
module Sounds {
  import opened Wrappers

  /** The value range of a numpy.int16 sample. */
  type Int16 = v: int | -32768 <= v <= 32767

  /** The rate makeEmptySound uses when none is given. */
  const DefaultSampleRate: int := 22050

  /** The longest blank sound makeEmptySound creates, in seconds. */
  const MaxSeconds: int := 400

  class Sound {
    const sampleRate: int
    const samples: array<Int16>
    var filename: string

    /** JESSound(sampleRate, samples, filename): the buffer is shared, not copied. */
    constructor (sampleRate: int, samples: array<Int16>, filename: string)
      ensures this.sampleRate == sampleRate && this.samples == samples
      ensures this.filename == filename
    {
      this.sampleRate := sampleRate;
      this.samples := samples;
      this.filename := filename;
    }
  }

  /** getLength / getNumSamples */
  function GetLength(snd: Sound): nat
  {
    snd.samples.Length
  }

  /** getSamplingRate */
  function GetSamplingRate(snd: Sound): int
  {
    snd.sampleRate
  }

  datatype SoundError = NonPositiveArgument | TooLong

  /** numSamples / sampleRate > 400 in exact arithmetic, for a positive rate. */
  lemma RatioExceeds(numSamples: int, sampleRate: int)
    requires sampleRate > 0
    ensures (numSamples as real / sampleRate as real > MaxSeconds as real) <==>
      numSamples > MaxSeconds * sampleRate
  {
  }

  /**
   * The argument checks of makeEmptySound, in order: both arguments positive,
   * then at most 400 seconds of audio (Python's true division).
   */
  function EmptySoundCheck(numSamples: int, sampleRate: int): (r: Option<SoundError>)
    ensures r == None <==>
      0 < numSamples && 0 < sampleRate && numSamples <= MaxSeconds * sampleRate
    ensures r == Some(NonPositiveArgument) <==> numSamples <= 0 || sampleRate <= 0
  {
    if numSamples <= 0 || sampleRate <= 0 then Some(NonPositiveArgument)
    else
      RatioExceeds(numSamples, sampleRate);
      if numSamples as real / sampleRate as real > MaxSeconds as real then Some(TooLong)
      else None
  }

  /** Examples: 100 samples at 22050 Hz is fine, -1 samples is not, 401 s is too long. */
  lemma EmptySoundCheckExamples()
    ensures EmptySoundCheck(100, DefaultSampleRate) == None
    ensures EmptySoundCheck(-1, DefaultSampleRate) == Some(NonPositiveArgument)
    ensures EmptySoundCheck(401 * DefaultSampleRate, DefaultSampleRate) == Some(TooLong)
    ensures EmptySoundCheck(400 * DefaultSampleRate, DefaultSampleRate) == None
  {
  }

  /** makeEmptySound: a fresh silent buffer, or the first check that failed. */
  method MakeEmptySound(numSamples: int, sampleRate: int := DefaultSampleRate) returns (r: Result<Sound, SoundError>)
    ensures r.Err? <==> EmptySoundCheck(numSamples, sampleRate).Some?
    ensures r.Err? ==> r.error == EmptySoundCheck(numSamples, sampleRate).value
    ensures r.Ok? ==> fresh(r.value) && fresh(r.value.samples)
    ensures r.Ok? ==> r.value.sampleRate == sampleRate && r.value.filename == "noname"
    ensures r.Ok? ==> r.value.samples.Length == numSamples
    ensures r.Ok? ==> forall i :: 0 <= i < numSamples ==> r.value.samples[i] == 0
  {
    var check := EmptySoundCheck(numSamples, sampleRate);
    if check.Some? {
      return Err(check.value);
    }
    var buffer := new Int16[numSamples](_ => 0);
    var snd := new Sound(sampleRate, buffer, "noname");
    return Ok(snd);
  }

  /** getSampleValueAt: a direct read of the buffer. */
  function GetSampleValueAt(snd: Sound, index: int): Int16
    requires 0 <= index < snd.samples.Length
    reads snd.samples
  {
    snd.samples[index]
  }

  /** setSampleValueAt: only the one sample changes. */
  method SetSampleValueAt(snd: Sound, index: int, val: Int16)
    requires 0 <= index < snd.samples.Length
    modifies snd.samples
    ensures snd.samples[..] == old(snd.samples[..])[index := val]
    ensures GetSampleValueAt(snd, index) == val
  {
    snd.samples[index] := val;
  }

  /** duplicateSound: a new sound with a copy of the buffer and the same rate. */
  method DuplicateSound(snd: Sound) returns (dup: Sound)
    ensures fresh(dup) && fresh(dup.samples)
    ensures dup.samples[..] == snd.samples[..]
    ensures dup.sampleRate == snd.sampleRate && dup.filename == "noFileName"
  {
    var buffer := new Int16[snd.samples.Length](i reads snd.samples =>
      if 0 <= i < snd.samples.Length then snd.samples[i] else 0);
    dup := new Sound(snd.sampleRate, buffer, "noFileName");
  }

  /**
   * clip: a new sound at the default rate holding source[start..end]; the
   * length goes through makeEmptySound's checks, and the source is not changed.
   */
  method Clip(source: Sound, start: int, end: int) returns (r: Result<Sound, SoundError>)
    requires EmptySoundCheck(end - start, DefaultSampleRate).None? ==>
      0 <= start && end <= source.samples.Length
    ensures r.Err? <==> EmptySoundCheck(end - start, DefaultSampleRate).Some?
    ensures r.Err? ==> r.error == EmptySoundCheck(end - start, DefaultSampleRate).value
    ensures r.Ok? ==> fresh(r.value) && fresh(r.value.samples)
    ensures r.Ok? ==> r.value.sampleRate == DefaultSampleRate
    ensures r.Ok? ==> r.value.samples[..] == source.samples[start..end]
  {
    r := MakeEmptySound(end - start);
    if r.Err? {
      return;
    }
    var target := r.value;
    var targetIndex := 0;
    var sourceIndex := start;
    while sourceIndex < end
      invariant start <= sourceIndex <= end
      invariant targetIndex == sourceIndex - start
      invariant target.samples[..targetIndex] == source.samples[start..sourceIndex]
    {
      var sourceValue := GetSampleValueAt(source, sourceIndex);
      SetSampleValueAt(target, targetIndex, sourceValue);
      targetIndex := targetIndex + 1;
      sourceIndex := sourceIndex + 1;
    }
    assert target.samples[..] == target.samples[..targetIndex];
  }

  /**
   * copy: target[start + i] := source[i] for every i; the rest of the target
   * and the whole source keep their values.
   */
  method Copy(source: Sound, target: Sound, start: int)
    requires 0 <= start && start + source.samples.Length <= target.samples.Length
    modifies target.samples
    ensures forall k :: 0 <= k < target.samples.Length ==>
      target.samples[k] == if start <= k < start + source.samples.Length
                           then old(source.samples[k - start]) else old(target.samples[k])
    ensures source.samples[..] == old(source.samples[..])
  {
    var targetIndex := start;
    var sourceIndex := 0;
    while sourceIndex < source.samples.Length
      invariant 0 <= sourceIndex <= source.samples.Length
      invariant targetIndex == start + sourceIndex
      invariant source.samples[..] == old(source.samples[..])
      invariant forall k :: 0 <= k < target.samples.Length ==>
        target.samples[k] == if start <= k < targetIndex
                             then old(source.samples[k - start]) else old(target.samples[k])
    {
      var sourceValue := GetSampleValueAt(source, sourceIndex);
      SetSampleValueAt(target, targetIndex, sourceValue);
      targetIndex := targetIndex + 1;
      sourceIndex := sourceIndex + 1;
    }
  }
}
