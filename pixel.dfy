/** The drawing-colour state of src/a2x_pack_pixel.c: the current mode and the stack
    that `a_pixel_push` and `a_pixel_pop` save it on. How a pixel value packs its
    channels (`a_pixel_make`, `a_pixel_red`, ...) and the value of
    `A_PIXEL_ALPHA_MAX` are not part of this model; they are given to the constructor. */
module Pixel {

  /** A colour channel, as `uint8_t`. */
  type Channel = x: int | 0 <= x < 256

  /** `APixelBlend`: only the plain blend is singled out by this code. */
  datatype Blend = Plain | OtherBlend(id: nat)

  /** `APixelMode`: the blend, the colour channels, the alpha and the packed pixel. */
  datatype Mode = Mode(blend: Blend, red: int, green: int, blue: int, alpha: int, pixel: nat)

  /** `a_math_min(Alpha, A_PIXEL_ALPHA_MAX)`. */
  function ClampAlpha(alpha: nat, alphaMax: nat): (r: nat)
    ensures r <= alpha && r <= alphaMax
    ensures r == alpha || r == alphaMax
  {
    if alpha < alphaMax then alpha else alphaMax
  }

  /** The mode `a_pixel_setRGBA` leaves behind. */
  function WithRGBA(m: Mode, red: Channel, green: Channel, blue: Channel, alpha: nat,
                    make: (Channel, Channel, Channel) -> nat, alphaMax: nat): (r: Mode)
    ensures r.blend == m.blend
    ensures r.red == red && r.green == green && r.blue == blue
    ensures r.alpha == ClampAlpha(alpha, alphaMax) && r.pixel == make(red, green, blue)
  {
    m.(red := red, green := green, blue := blue, alpha := ClampAlpha(alpha, alphaMax),
       pixel := make(red, green, blue))
  }

  /** The mode `a_pixel_pop` installs when `saved` is on top: the saved blend, and the
      saved channels and alpha passed back through `a_pixel_setRGBA`, which converts
      them to its `uint8_t` and `unsigned` parameters and rebuilds the pixel. */
  function Restored(saved: Mode, make: (Channel, Channel, Channel) -> nat, alphaMax: nat): Mode
  {
    WithRGBA(saved, saved.red % 256, saved.green % 256, saved.blue % 256,
             saved.alpha % 0x1_0000_0000, make, alphaMax)
  }

  /** A mode whose channels and alpha are in range and whose pixel is built from its
      channels. */
  predicate Consistent(m: Mode, make: (Channel, Channel, Channel) -> nat, alphaMax: nat)
  {
    && 0 <= m.red < 256 && 0 <= m.green < 256 && 0 <= m.blue < 256
    && 0 <= m.alpha <= alphaMax && alphaMax < 0x1_0000_0000
    && m.pixel == make(m.red, m.green, m.blue)
  }

  /** Popping a consistent saved mode gives it back unchanged; any saved mode comes back
      with its blend and with a pixel that matches its channels. */
  lemma RestoredIsSaved(saved: Mode, make: (Channel, Channel, Channel) -> nat, alphaMax: nat)
    ensures Restored(saved, make, alphaMax).blend == saved.blend
    ensures alphaMax < 0x1_0000_0000 && 0 <= saved.red < 256 && 0 <= saved.green < 256 && 0 <= saved.blue < 256
            ==> Consistent(Restored(saved, make, alphaMax), make, alphaMax)
    ensures Consistent(saved, make, alphaMax) ==> Restored(saved, make, alphaMax) == saved
  {
  }

  /** `a_pixel__mode` and `g_modeStack`; the stack's head is its top. */
  class PixelState {
    const make: (Channel, Channel, Channel) -> nat
    const redOf: nat -> Channel
    const greenOf: nat -> Channel
    const blueOf: nat -> Channel
    const alphaMax: nat
    var mode: Mode
    var modeStack: seq<Mode>

    /** The global mode starts zeroed; `a_pixel__init` selects the plain blend and
        creates the empty stack. */
    constructor Init(make: (Channel, Channel, Channel) -> nat, redOf: nat -> Channel,
                     greenOf: nat -> Channel, blueOf: nat -> Channel, alphaMax: nat)
      ensures this.make == make && this.redOf == redOf && this.greenOf == greenOf
      ensures this.blueOf == blueOf && this.alphaMax == alphaMax
      ensures mode == Mode(Plain, 0, 0, 0, 0, 0) && modeStack == []
    {
      this.make := make;
      this.redOf := redOf;
      this.greenOf := greenOf;
      this.blueOf := blueOf;
      this.alphaMax := alphaMax;
      mode := Mode(Plain, 0, 0, 0, 0, 0);
      modeStack := [];
    }

    /** `a_pixel_push`: saves a copy of the current mode. */
    method Push()
      modifies this
      ensures modeStack == [old(mode)] + old(modeStack) && mode == old(mode)
    {
      modeStack := [mode] + modeStack;
    }

    /** `a_pixel_pop`: popping an empty stack is fatal; otherwise the most recently saved
        mode is removed and installed through `a_pixel_setBlend` and `a_pixel_setRGBA`. */
    method Pop()
      requires modeStack != []
      modifies this
      ensures modeStack == old(modeStack)[1..]
      ensures mode == Restored(old(modeStack)[0], make, alphaMax)
    {
      var saved := modeStack[0];
      modeStack := modeStack[1..];
      mode := saved;
      SetBlend(mode.blend);
      SetRGBA(mode.red % 256, mode.green % 256, mode.blue % 256, mode.alpha % 0x1_0000_0000);
    }

    /** `a_pixel_setBlend`; the routine tables it refreshes are not modelled. */
    method SetBlend(blend: Blend)
      modifies this
      ensures mode == old(mode).(blend := blend) && modeStack == old(modeStack)
    {
      mode := mode.(blend := blend);
    }

    /** `a_pixel_setAlpha`: stores the alpha clamped to the maximum. */
    method SetAlpha(alpha: nat)
      modifies this
      ensures mode == old(mode).(alpha := ClampAlpha(alpha, alphaMax)) && modeStack == old(modeStack)
    {
      mode := mode.(alpha := ClampAlpha(alpha, alphaMax));
    }

    /** `a_pixel_setRGB`: sets the channels and rebuilds the pixel; blend and alpha stay. */
    method SetRGB(red: Channel, green: Channel, blue: Channel)
      modifies this
      ensures mode.blend == old(mode).blend && mode.alpha == old(mode).alpha
      ensures mode.red == red && mode.green == green && mode.blue == blue
      ensures mode.pixel == make(red, green, blue) && modeStack == old(modeStack)
    {
      mode := mode.(red := red, green := green, blue := blue);
      mode := mode.(pixel := make(mode.red, mode.green, mode.blue));
    }

    /** `a_pixel_setRGBA`: as `SetRGB`, and also stores the clamped alpha. */
    method SetRGBA(red: Channel, green: Channel, blue: Channel, alpha: nat)
      modifies this
      ensures mode == WithRGBA(old(mode), red, green, blue, alpha, make, alphaMax)
      ensures modeStack == old(modeStack)
    {
      mode := mode.(red := red, green := green, blue := blue, alpha := ClampAlpha(alpha, alphaMax));
      mode := mode.(pixel := make(mode.red, mode.green, mode.blue));
    }

    /** `a_pixel_setPixel`: stores the pixel and takes the channels from it. */
    method SetPixel(pixel: nat)
      modifies this
      ensures mode.pixel == pixel && mode.blend == old(mode).blend && mode.alpha == old(mode).alpha
      ensures mode.red == redOf(pixel) && mode.green == greenOf(pixel) && mode.blue == blueOf(pixel)
      ensures modeStack == old(modeStack)
    {
      mode := mode.(pixel := pixel);
      mode := mode.(red := redOf(mode.pixel), green := greenOf(mode.pixel), blue := blueOf(mode.pixel));
    }

    /** A push followed by a pop leaves the stack as it was and, from a consistent mode,
        the mode too. */
    method PushPop()
      requires Consistent(mode, make, alphaMax)
      modifies this
      ensures mode == old(mode) && modeStack == old(modeStack)
    {
      Push();
      Pop();
      RestoredIsSaved(old(mode), make, alphaMax);
    }
  }
}
