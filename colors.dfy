/** `UIColor(rgb:alpha:)`: a 0xRRGGBB integer split into its three channels. */
module Colors {

  datatype Channels = Channels(red: int, green: int, blue: int)

  /** UIColor's components, each a fraction of full intensity. */
  datatype Color = Color(red: real, green: real, blue: real, alpha: real)

  /**
   * `(rgb >> 16) & 0xFF`, `(rgb >> 8) & 0xFF` and `rgb & 0xFF` on Swift's
   * `Int`: the right shift is a division rounded down and the mask keeps
   * the low byte of the two's complement, which is the non-negative
   * remainder modulo 256 that Dafny's `/` and `%` give.
   */
  function ChannelsOf(rgb: int): (c: Channels)
    ensures 0 <= c.red <= 0xFF && 0 <= c.green <= 0xFF && 0 <= c.blue <= 0xFF
  {
    Channels((rgb / 0x1_0000) % 0x100, (rgb / 0x100) % 0x100, rgb % 0x100)
  }

  /** `UIColor(red:green:blue:alpha:)` with integer channels: each divided by 255. */
  function ColorOf(c: Channels, alpha: real): (color: Color)
    requires 0 <= c.red <= 0xFF && 0 <= c.green <= 0xFF && 0 <= c.blue <= 0xFF
    ensures 0.0 <= color.red <= 1.0 && 0.0 <= color.green <= 1.0 && 0.0 <= color.blue <= 1.0
    ensures color.red * 255.0 == c.red as real && color.green * 255.0 == c.green as real
    ensures color.blue * 255.0 == c.blue as real && color.alpha == alpha
  {
    Color(c.red as real / 255.0, c.green as real / 255.0, c.blue as real / 255.0, alpha)
  }

  /** `UIColor(rgb:alpha:)` */
  function ColorFromRGB(rgb: int, alpha: real): (color: Color)
    ensures 0.0 <= color.red <= 1.0 && 0.0 <= color.green <= 1.0 && 0.0 <= color.blue <= 1.0
    ensures color.alpha == alpha
  {
    ColorOf(ChannelsOf(rgb), alpha)
  }

  /**
   * The components of `UIColor(rgb:)` are the masked channels over 255:
   * scaled back by 255 and put together, they give the 24-bit value.
   */
  lemma {:induction false} ColorFromRGBRoundTrip(rgb: int, alpha: real)
    requires 0 <= rgb < 0x100_0000
    ensures var color := ColorFromRGB(rgb, alpha);
      (color.red * 255.0).Floor * 0x1_0000 + (color.green * 255.0).Floor * 0x100 + (color.blue * 255.0).Floor == rgb
  {
    var c := ChannelsOf(rgb);
    var color := ColorOf(c, alpha);
    assert color.red * 255.0 == c.red as real;
    assert color.green * 255.0 == c.green as real;
    assert color.blue * 255.0 == c.blue as real;
    ChannelsRecombine(rgb);
  }

  /** For a 24-bit value the three channels put back together give the value. */
  lemma {:induction false} ChannelsRecombine(rgb: int)
    requires 0 <= rgb < 0x100_0000
    ensures var c := ChannelsOf(rgb); c.red * 0x1_0000 + c.green * 0x100 + c.blue == rgb
  {
    var hi := rgb / 0x100;
    var lo := rgb % 0x100;
    assert rgb == hi * 0x100 + lo;
    assert hi < 0x1_0000;
    var top := hi / 0x100;
    assert hi == top * 0x100 + hi % 0x100;
    assert rgb / 0x1_0000 == top by {
      assert rgb == top * 0x1_0000 + ((hi % 0x100) * 0x100 + lo);
      assert 0 <= (hi % 0x100) * 0x100 + lo < 0x1_0000;
    }
    assert top < 0x100;
  }

  /** The three channels of the control's default background, 0xF1F2F2. */
  lemma DefaultBackgroundChannels()
    ensures ChannelsOf(0xF1F2F2) == Channels(0xF1, 0xF2, 0xF2)
  {
  }
}
