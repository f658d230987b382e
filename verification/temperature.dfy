/**
 Fixed-point temperature codec. Temperature-format registers (result, high
 and low limit, offset) hold a signed two's-complement 16-bit code whose LSB
 is 0.0078125 °C = 2^-7 °C. Floating point is modelled by exact reals.
 */
module Temperature {
  import opened Framing

  /** The C `int16_t` range. */
  type Int16 = i: int | -0x8000 <= i <= 0x7FFF

  /** Degrees Celsius per LSB of a temperature code. */
  const LsbCelsius: real := 0.0078125

  /** The `(int16_t)` reinterpretation of a register word, computed from its
      two bytes: the most significant byte carries the sign. */
  function ToSigned(v: bv16): Int16 {
    var hi := Msb(v) as int;
    var lo := Lsb(v) as int;
    (if hi < 0x80 then hi else hi - 0x100) * 0x100 + lo
  }

  /** The implicit `int16_t` to `uint16_t` conversion: the code modulo 2^16,
      split into its two bytes. */
  function ToUnsigned(i: Int16): bv16 {
    var n: int := if i < 0 then i as int + 0x10000 else i as int;
    Assemble((n / 0x100) as bv8, (n % 0x100) as bv8)
  }

  /** The sign of the code is bit 15 of the word. */
  lemma ToSignedSign(v: bv16)
    ensures ToSigned(v) < 0 <==> v & 0x8000 != 0
  {
    assert Msb(v) < 0x80 <==> v & 0x8000 == 0;
  }

  /** An integer in 0..255 survives the trip through a byte. The split on
      the high nibble keeps the solver's integer/bit-vector conversion small. */
  lemma ByteOfInt(k: int)
    requires 0 <= k < 0x100
    ensures (k as bv8) as int == k
  {
    if k < 0x10 {
    } else if k < 0x20 {
    } else if k < 0x30 {
    } else if k < 0x40 {
    } else if k < 0x50 {
    } else if k < 0x60 {
    } else if k < 0x70 {
    } else if k < 0x80 {
    } else if k < 0x90 {
    } else if k < 0xA0 {
    } else if k < 0xB0 {
    } else if k < 0xC0 {
    } else if k < 0xD0 {
    } else if k < 0xE0 {
    } else if k < 0xF0 {
    } else {
    }
  }

  /** A byte survives the trip through an integer. */
  lemma IntOfByte(b: bv8)
    ensures (b as int) as bv8 == b
  {
  }

  /** Base-256 digits of a two-digit number. */
  lemma Digits(n: int, h: int, l: int)
    requires 0 <= h < 0x100 && 0 <= l < 0x100
    requires n == h * 0x100 + l
    ensures n / 0x100 == h && n % 0x100 == l
  {
  }

  /** Reinterpreting a word as signed and back is the identity. */
  lemma UnsignedSignedRoundTrip(v: bv16)
    ensures ToUnsigned(ToSigned(v)) == v
  {
    var hi, lo := Msb(v), Lsb(v);
    var i := ToSigned(v);
    var n: int := if i < 0 then i as int + 0x10000 else i as int;
    Digits(n, hi as int, lo as int);
    IntOfByte(hi);
    IntOfByte(lo);
    SplitAssemble(v);
  }

  /** Converting a code to a word and reading it back as signed is the identity. */
  lemma SignedUnsignedRoundTrip(i: Int16)
    ensures ToSigned(ToUnsigned(i)) == i
  {
    var n: int := if i < 0 then i as int + 0x10000 else i as int;
    var hi, lo := (n / 0x100) as bv8, (n % 0x100) as bv8;
    AssembleSplit(hi, lo);
    ByteOfInt(n / 0x100);
    ByteOfInt(n % 0x100);
    assert n == (n / 0x100) * 0x100 + n % 0x100;
    assert i < 0 <==> n / 0x100 >= 0x80;
  }

  /** rawToCelsius: `raw * 0.0078125`, exact for every 16-bit code. The
      addressable range is -256 °C to 255.9921875 °C. */
  function RawToCelsius(raw: Int16): (c: real)
    ensures c * 128.0 == raw as real
    ensures -256.0 <= c <= 255.9921875
  {
    raw as real * LsbCelsius
  }

  /** The C float-to-integer conversion: truncation toward zero. */
  function Truncate(x: real): (n: int)
    ensures 0.0 <= x ==> n as real <= x < n as real + 1.0
    ensures x < 0.0 ==> n as real - 1.0 < x <= n as real
  {
    if x >= 0.0 then x.Floor else -((-x).Floor)
  }

  /** Inputs whose truncated code fits an `int16_t`; for any other input the
      C conversion is undefined. */
  predicate CelsiusInRange(t: real) {
    -32769.0 < t / LsbCelsius < 32768.0
  }

  /** celsiusToRaw: `(int16_t)(temp / 0.0078125)`. The code is the value in
      LSBs truncated toward zero. */
  function CelsiusToRaw(t: real): (r: Int16)
    requires CelsiusInRange(t)
    ensures 0.0 <= t ==> 0 <= r && r as real <= t * 128.0 < r as real + 1.0
    ensures t < 0.0 ==> r <= 0 && r as real - 1.0 < t * 128.0 <= r as real
  {
    Truncate(t / LsbCelsius)
  }

  /** Converting a code to Celsius and back gives the same code. */
  lemma RawCelsiusRoundTrip(raw: Int16)
    ensures CelsiusInRange(RawToCelsius(raw))
    ensures CelsiusToRaw(RawToCelsius(raw)) == raw
  {
  }

  /** Converting a temperature to a code and back loses less than one LSB,
      always toward zero. */
  lemma CelsiusRawQuantization(t: real)
    requires CelsiusInRange(t)
    ensures 0.0 <= t ==> 0.0 <= t - RawToCelsius(CelsiusToRaw(t)) < LsbCelsius
    ensures t < 0.0 ==> 0.0 <= RawToCelsius(CelsiusToRaw(t)) - t < LsbCelsius
  {
    var r := CelsiusToRaw(t);
    assert RawToCelsius(r) * 128.0 == r as real;
  }

  /** A temperature that is a whole number of LSBs, k / 128 °C. */
  predicate WholeLsbs(t: real) {
    (t * 128.0).Floor as real == t * 128.0
  }

  /** A whole number of LSBs converts to its code and back without loss. */
  lemma CelsiusRawExact(t: real)
    requires CelsiusInRange(t) && WholeLsbs(t)
    ensures CelsiusToRaw(t) as real == t * 128.0
    ensures RawToCelsius(CelsiusToRaw(t)) == t
  {
    var k := (t * 128.0).Floor;
    assert t / LsbCelsius == k as real;
    assert Truncate(k as real) == k;
  }

  /** celsiusToRaw never reverses the order of two temperatures. */
  lemma CelsiusToRawMonotonic(s: real, t: real)
    requires CelsiusInRange(s) && CelsiusInRange(t)
    requires s <= t
    ensures CelsiusToRaw(s) <= CelsiusToRaw(t)
  {
  }

  /** Reference points of the scale: 0, 128, -128, -32768 and 32767 LSB. */
  lemma RawToCelsiusReferencePoints()
    ensures RawToCelsius(0) == 0.0
    ensures RawToCelsius(128) == 1.0
    ensures RawToCelsius(-128) == -1.0
    ensures RawToCelsius(-0x8000) == -256.0
    ensures RawToCelsius(0x7FFF) == 255.9921875
  {
  }
}
