/** The accent palette: 8-bit RGB components rescaled to the 0..1000 range
    that ncurses' `init_color` takes (`rgb_to_ncurses`). */
module Colours {

  datatype Rgb = Rgb(r: int, g: int, b: int)

  /** The eight accent colours, in palette order: pink, green, yellow, light
      blue, orange, purple, dark pink and grey. */
  const CustomColours: seq<Rgb> := [
    Rgb(249, 38, 114), Rgb(166, 226, 46), Rgb(230, 219, 116), Rgb(102, 217, 239),
    Rgb(253, 151, 31), Rgb(190, 132, 255), Rgb(230, 45, 100), Rgb(68, 68, 68)
  ]

  /** C's `/` on `int`: the quotient truncated toward zero. */
  function TruncDiv(a: int, b: int): (q: int)
    requires b > 0
    ensures a >= 0 ==> q * b <= a < (q + 1) * b
    ensures a < 0 ==> (q - 1) * b < a <= q * b
  {
    if a >= 0 then a / b else -((-a) / b)
  }

  /** One component of `rgb_to_ncurses`: `c * 1000 / 255` in C arithmetic. */
  function Level(c: int): (l: int)
    ensures c >= 0 ==> l * 255 <= c * 1000 < (l + 1) * 255
    ensures c < 0 ==> (l - 1) * 255 < c * 1000 <= l * 255
  {
    TruncDiv(c * 1000, 255)
  }

  /** `rgb_to_ncurses(r, g, b)`. */
  function ToNcurses(c: Rgb): (n: Rgb)
    ensures n.r == Level(c.r) && n.g == Level(c.g) && n.b == Level(c.b)
  {
    Rgb(Level(c.r), Level(c.g), Level(c.b))
  }

  predicate InByteRange(c: int) { 0 <= c <= 255 }

  /** Every 8-bit component lands in 0..1000 (so the narrowing to `short`
      loses nothing), as the largest level not above the exact value c*1000/255. */
  lemma LevelBounds(c: int)
    requires InByteRange(c)
    ensures 0 <= Level(c) <= 1000
    ensures Level(c) * 255 <= c * 1000 < (Level(c) + 1) * 255
  {
    var q := Level(c);
    assert q * 255 <= c * 1000 <= 255 * 1000;
    assert q <= 1000;
  }

  /** The ends of the scale map to the ends of the scale. */
  lemma LevelEnds()
    ensures Level(0) == 0 && Level(255) == 1000
  {
  }

  /** The rescale never reverses the order of two components. */
  lemma LevelMonotone(c1: int, c2: int)
    requires c1 <= c2
    ensures Level(c1) <= Level(c2)
  {
    var a1, a2 := c1 * 1000, c2 * 1000;
    var q1, q2 := Level(c1), Level(c2);
    if a1 >= 0 {
      assert q1 * 255 <= a1 <= a2 < (q2 + 1) * 255;
    } else if a2 >= 0 {
      assert (q1 - 1) * 255 < a1 < 0 <= a2 < (q2 + 1) * 255;
    } else {
      assert (q1 - 1) * 255 < a1 <= a2 <= q2 * 255;
    }
  }

  /** Every palette colour rescales into 0..1000 on each component. */
  lemma PaletteLevels()
    ensures forall i :: 0 <= i < |CustomColours| ==>
      var n := ToNcurses(CustomColours[i]);
      0 <= n.r <= 1000 && 0 <= n.g <= 1000 && 0 <= n.b <= 1000
  {
    forall i | 0 <= i < |CustomColours|
      ensures var n := ToNcurses(CustomColours[i]);
        0 <= n.r <= 1000 && 0 <= n.g <= 1000 && 0 <= n.b <= 1000
    {
      var c := CustomColours[i];
      LevelBounds(c.r);
      LevelBounds(c.g);
      LevelBounds(c.b);
    }
  }
}
