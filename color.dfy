/** The colour of the countdown arc: `calculate_color_transition`, which blends
    white into green as the session runs out and writes the blend as a Tk
    colour string "#rrggbb". */
module Color {
  import opened Arith

  datatype Rgb = Rgb(red: int, green: int, blue: int)

  const White := Rgb(255, 255, 255)
  const Green := Rgb(0, 255, 0)

  /** Python's `int()` on a number: truncation toward zero. */
  function Trunc(x: real): int {
    if x >= 0.0 then x.Floor else -((-x).Floor)
  }

  /** The integer quotient a/b truncated toward zero, as `int(a / b)` gives it. */
  function TruncDiv(a: int, b: int): (q: int)
    requires b > 0
    ensures 0 <= a ==> 0 <= q && q * b <= a < q * b + b
    ensures a < 0 ==> q <= 0 && q * b - b < a <= q * b
  {
    if a >= 0 then DivBounds(a, b); a / b
    else DivBounds(-a, b); -((-a) / b)
  }

  /** A real quotient truncated by `int()` is the truncating integer quotient. */
  lemma TruncOfQuotient(a: int, b: int)
    requires b > 0
    ensures Trunc(a as real / b as real) == TruncDiv(a, b)
  {
    var n := if a >= 0 then a else -a;
    FloorOfQuotient(n, b);
    if a < 0 {
      assert a as real / b as real == -(n as real / b as real);
    }
  }

  lemma FloorOfQuotient(n: int, b: int)
    requires n >= 0 && b > 0
    ensures (n as real / b as real).Floor == n / b
  {
    var q, r := n / b, n % b;
    assert n == q * b + r;
    var x := n as real / b as real;
    var f := r as real / b as real;
    assert 0.0 <= f < 1.0;
    assert n as real == q as real * b as real + r as real;
    assert x == q as real + f;
  }

  /** One channel of the blend: `int(white + (green - white) * (1 - ratio))`
      with ratio = current / total, computed exactly over the integers. */
  function Channel(white: int, green: int, current: int, total: int): int
    requires total > 0
  {
    TruncDiv(green * total + (white - green) * current, total)
  }

  /** The integer channel agrees with the source's formula read over the reals. */
  lemma ChannelMatchesFormula(white: int, green: int, current: int, total: int)
    requires total > 0
    ensures Channel(white, green, current, total)
         == Trunc(white as real + (green - white) as real * (1.0 - current as real / total as real))
  {
    var t, c := total as real, current as real;
    var ratio := c / t;
    assert ratio * t == c;
    var x := white as real + (green - white) as real * (1.0 - ratio);
    var y := (green * total + (white - green) * current) as real / t;
    assert y * t == (green * total + (white - green) * current) as real;
    assert x * t == (green * total + (white - green) * current) as real;
    assert x == y;
    TruncOfQuotient(green * total + (white - green) * current, total);
  }

  /** The three channels for `current` seconds left of `total`. */
  function Blend(current: int, total: int): Rgb
    requires total > 0
  {
    Rgb(Channel(White.red, Green.red, current, total),
        Channel(White.green, Green.green, current, total),
        Channel(White.blue, Green.blue, current, total))
  }

  /** For a count between zero and the total the blend is a proper colour:
      red and blue are equal and within a byte, green stays full. */
  lemma BlendInRange(current: int, total: int)
    requires total > 0 && 0 <= current <= total
    ensures var c := Blend(current, total);
      0 <= c.red <= 255 && c.blue == c.red && c.green == 255
    ensures current == total ==> Blend(current, total) == White
    ensures current == 0 ==> Blend(current, total) == Green
  {
    var c := Blend(current, total);
    assert c.red == (255 * current) / total;
    assert 255 * current <= 255 * total;
    DivBelow(255 * current, total, 255);
    DivModUnique(255 * total, total, 255, 0);
  }

  /** The closer to the end, the greener: with fewer seconds left, red and
      blue never grow. */
  lemma BlendFades(a: int, b: int, total: int)
    requires total > 0 && 0 <= a <= b
    ensures Blend(a, total).red <= Blend(b, total).red
  {
    assert Blend(a, total).red == (255 * a) / total;
    assert Blend(b, total).red == (255 * b) / total;
    DivMonotone(255 * a, 255 * b, total);
  }

  /** A lower-case hexadecimal digit, the only kind `format(n, 'x')` writes. */
  predicate IsHexDigit(c: char) {
    '0' <= c <= '9' || 'a' <= c <= 'f'
  }

  function HexDigit(d: int): (c: char)
    requires 0 <= d < 16
    ensures IsHexDigit(c) && HexValue(c) == d
  {
    if d < 10 then ('0' as int + d) as char else ('a' as int + d - 10) as char
  }

  /** The value of a lower-case hexadecimal digit. */
  function HexValue(c: char): int {
    if '0' <= c <= '9' then c as int - '0' as int
    else c as int - 'a' as int + 10
  }

  /** `format(n, 'x')` for n >= 0: the hexadecimal numeral, no leading zeros. */
  function Hex(n: nat): (r: string)
    ensures |r| >= 1
    ensures forall i :: 0 <= i < |r| ==> IsHexDigit(r[i])
    ensures n < 16 <==> |r| == 1
  {
    if n < 16 then [HexDigit(n)] else Hex(n / 16) + [HexDigit(n % 16)]
  }

  /** A number from 16 to 255 has two hexadecimal digits, high one first. */
  lemma HexOfByte(n: nat)
    requires 16 <= n < 256
    ensures Hex(n) == [HexDigit(n / 16), HexDigit(n % 16)]
  {
    DivBounds(n, 16);
    assert Hex(n / 16) == [HexDigit(n / 16)];
  }

  /** `format(n, '02x')`: at least two characters, zero-padded after the sign;
      a negative number keeps its minus sign. */
  function Hex02(n: int): (r: string)
    ensures |r| >= 2
    ensures n < 0 <==> r[0] == '-'
    ensures 0 <= n < 256 ==> |r| == 2 && IsHexDigit(r[0]) && IsHexDigit(r[1])
                             && 16 * HexValue(r[0]) + HexValue(r[1]) == n
  {
    if n < 0 then "-" + Hex(-n)
    else if n < 16 then "0" + Hex(n)
    else if n < 256 then HexOfByte(n); Hex(n)
    else Hex(n)
  }

  /** The f-string '#{r:02x}{g:02x}{b:02x}'. */
  function HexColor(c: Rgb): string {
    "#" + Hex02(c.red) + Hex02(c.green) + Hex02(c.blue)
  }

  /** `calculate_color_transition(current_time, total_time)`. */
  function ColorTransition(current: int, total: int): string
    requires total > 0
  {
    HexColor(Blend(current, total))
  }

  /** A hexadecimal digit of either case, as X11's colour parser reads them. */
  predicate IsAnyHexDigit(c: char) {
    IsHexDigit(c) || 'A' <= c <= 'F'
  }

  /** Tk's numeric colour syntax on X11: '#' followed by 3, 6, 9 or 12
      hexadecimal digits of either case. Any other string that starts with '#'
      is refused with an error. Named colours such as "white" are not
      modelled: the arc colour always starts with '#'. */
  predicate TkAccepts(spec: string) {
    |spec| - 1 in {3, 6, 9, 12} && spec[0] == '#'
    && forall i :: 1 <= i < |spec| ==> IsAnyHexDigit(spec[i])
  }

  /** Reads a "#rrggbb" string back into its channels. */
  function DecodeRgb(spec: string): Rgb
    requires |spec| == 7
  {
    Rgb(16 * HexValue(spec[1]) + HexValue(spec[2]),
        16 * HexValue(spec[3]) + HexValue(spec[4]),
        16 * HexValue(spec[5]) + HexValue(spec[6]))
  }

  /** While the count lies between zero and the total, the colour is a
      well-formed "#rrggbb" string that Tk accepts and that reads back as the
      blend, red equal to blue and green at ff. */
  lemma ColorTransitionRoundTrip(current: int, total: int)
    requires total > 0 && 0 <= current <= total
    ensures |ColorTransition(current, total)| == 7
    ensures TkAccepts(ColorTransition(current, total))
    ensures DecodeRgb(ColorTransition(current, total)) == Blend(current, total)
  {
    BlendInRange(current, total);
    var c := Blend(current, total);
    var r := ColorTransition(current, total);
    assert r == "#" + Hex02(c.red) + Hex02(c.green) + Hex02(c.blue);
    assert r[1..3] == Hex02(c.red) && r[3..5] == Hex02(c.green) && r[5..7] == Hex02(c.blue);
  }

  /** The two ends of the fade: full time left is white, none left is green. */
  lemma ColorTransitionEnds(total: int)
    requires total > 0
    ensures ColorTransition(total, total) == "#ffffff"
    ensures ColorTransition(0, total) == "#00ff00"
  {
    BlendInRange(total, total);
    BlendInRange(0, total);
    assert Hex(255) == "ff";
    assert Hex(0) == "0";
  }

  /** Below zero red and blue truncate toward zero: they stay at zero while
      255 times the overrun is less than the total, and turn negative after. */
  lemma BlendBelowZero(current: int, total: int)
    requires total > 0 && current <= 0
    ensures 255 * -current < total ==> Blend(current, total) == Green
    ensures 255 * -current >= total ==> Blend(current, total).red < 0
  {
    DivModUnique(255 * total, total, 255, 0);
    DivBounds(255 * -current, total);
    if 255 * -current >= total {
      DivAtLeastOne(255 * -current, total);
    }
  }

  /** Below zero, Tk accepts the colour exactly when 255 times the overrun is
      still less than the total, and then it is plain green; otherwise red and
      blue are negative and the string carries minus signs. */
  lemma ColorBelowZero(current: int, total: int)
    requires total > 0 && current <= 0
    ensures TkAccepts(ColorTransition(current, total)) <==> 255 * -current < total
    ensures 255 * -current < total ==> ColorTransition(current, total) == "#00ff00"
  {
    BlendBelowZero(current, total);
    var c := Blend(current, total);
    var r := ColorTransition(current, total);
    if 255 * -current < total {
      ColorTransitionEnds(total);
      BlendInRange(0, total);
      ColorTransitionRoundTrip(0, total);
    } else {
      assert r == "#" + Hex02(c.red) + Hex02(c.green) + Hex02(c.blue);
      assert r[1] == '-';
    }
  }

  /** A number from 256 to 65535 has three or four hexadecimal digits. */
  lemma HexOfWord(n: nat)
    requires 256 <= n < 65536
    ensures |Hex(n)| == 3 || |Hex(n)| == 4
  {
    DivBounds(n, 16);
    var m := n / 16;
    if m < 256 {
      HexOfByte(m);
    } else {
      DivBounds(m, 16);
      HexOfByte(m / 16);
    }
  }

  /** Above the total, once 255 times the count reaches 256 times the total,
      red and blue have three or four hexadecimal digits: the colour has eight
      or ten digits after '#', and Tk refuses it. */
  lemma ColorAboveTotal(current: int, total: int)
    requires total > 0 && 256 * total <= 255 * current < 65536 * total
    ensures !TkAccepts(ColorTransition(current, total))
  {
    var c := Blend(current, total);
    assert c.red == (255 * current) / total && c.blue == c.red;
    assert c.green == 255 by {
      DivModUnique(255 * total, total, 255, 0);
    }
    assert 256 <= c.red < 65536 by {
      DivModUnique(256 * total, total, 256, 0);
      DivMonotone(256 * total, 255 * current, total);
      DivModUnique(65536 * total - 1, total, 65535, total - 1);
      DivMonotone(255 * current, 65536 * total - 1, total);
    }
    HexOfWord(c.red);
    assert |ColorTransition(current, total)| == 3 + 2 * |Hex(c.red)|;
  }

  /** A one-minute session one second past its end: the arc colour is the
      malformed string "#-4ff-4". */
  lemma OneMinuteOverrun()
    ensures ColorTransition(-1, 60) == "#-4ff-4"
  {
    assert Blend(-1, 60) == Rgb(-4, 255, -4);
    assert Hex(255) == "ff";
  }
}
