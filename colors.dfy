/**
 * Colour channels: the normalisation applied to every channel written into a
 * picture, the colour constructor, and the process-wide wrap-around switch.
 */
module Colors {
  import opened Wrappers

  /** A channel value as a picture stores it. */
  type Channel = v: int | 0 <= v <= 255

  /** An RGB triple as stored in a picture and returned by getColor. */
  datatype Color = Color(red: Channel, green: Channel, blue: Channel)

  /**
   * JESWrapAroundValue: in wrap-around mode the value is taken modulo 256
   * (Python's `%`, never negative for a positive divisor, like Dafny's);
   * otherwise it saturates at 0 and 255.
   */
  function Normalize(value: int, wrapAround: bool): (r: int)
    ensures 0 <= r <= 255
    ensures 0 <= value <= 255 ==> r == value
    ensures wrapAround ==> (value - r) % 256 == 0
    ensures !wrapAround && value > 255 ==> r == 255
    ensures !wrapAround && value < 0 ==> r == 0
  {
    if wrapAround then value % 256
    else if value > 255 then 255
    else if value < 0 then 0
    else value
  }

  /** Normalising twice is normalising once, in either mode. */
  lemma NormalizeIdempotent(value: int, wrapAround: bool)
    ensures Normalize(Normalize(value, wrapAround), wrapAround) == Normalize(value, wrapAround)
  {
  }

  /** In wrap-around mode the result is the unique residue of `value` in [0, 255]. */
  lemma NormalizeWrapIsResidue(value: int, k: int, r: int)
    requires 0 <= r <= 255 && value == 256 * k + r
    ensures Normalize(value, true) == r
  {
  }

  /** makeColor: each channel normalised under the current mode. */
  function MakeColor(r: int, g: int, b: int, wrapAround: bool): (c: Color)
    ensures 0 <= r <= 255 ==> c.red == r
    ensures 0 <= g <= 255 ==> c.green == g
    ensures 0 <= b <= 255 ==> c.blue == b
    ensures c.red == Normalize(r, wrapAround) && c.green == Normalize(g, wrapAround)
      && c.blue == Normalize(b, wrapAround)
  {
    Color(Normalize(r, wrapAround), Normalize(g, wrapAround), Normalize(b, wrapAround))
  }

  /** Rebuilding a stored colour from its channels gives it back, in either mode. */
  lemma MakeColorOfStored(c: Color, wrapAround: bool)
    ensures MakeColor(c.red, c.green, c.blue, wrapAround) == c
  {
  }

  /** An argument of setColorWrapAround, which may be any Python value. */
  datatype FlagArg = BoolArg(b: bool) | IntArg(n: int) | OtherArg

  /**
   * The flag a value stands for under Python's `==` with True and False:
   * True, False, 1 and 0 are accepted, everything else is refused.
   */
  function FlagValue(flag: FlagArg): (r: Option<bool>)
    ensures r.Some? <==> flag.BoolArg? || (flag.IntArg? && (flag.n == 0 || flag.n == 1))
    ensures r.Some? && flag.BoolArg? ==> r.value == flag.b
    ensures r.Some? && flag.IntArg? ==> r.value == (flag.n == 1)
  {
    match flag
    case BoolArg(b) => Some(b)
    case IntArg(n) => if n == 1 then Some(true) else if n == 0 then Some(false) else None
    case OtherArg => None
  }

  /** The clamp/wrap switch, held as an object instead of module-global state. */
  class ColorMode {
    var wrapAround: bool

    /** The flag starts out false: clamping is the default. */
    constructor ()
      ensures !wrapAround
    {
      wrapAround := false;
    }

    function GetColorWrapAround(): bool
      reads this
    {
      wrapAround
    }

    /** A refused flag leaves the mode as it was (the original only prints a notice). */
    method SetColorWrapAround(flag: FlagArg)
      modifies this
      ensures FlagValue(flag).Some? ==> GetColorWrapAround() == FlagValue(flag).value
      ensures FlagValue(flag).None? ==> GetColorWrapAround() == old(GetColorWrapAround())
    {
      var v := FlagValue(flag);
      if v.Some? {
        wrapAround := v.value;
      }
    }
  }
}
