/**
 Pure codec for the 16-bit CONFIG register: each field is a bit span that a
 setter clears and refills (read-modify-write) and a getter shifts and masks.
 */
module ConfigCodec {

  /** The five software-visible fields of CONFIG. */
  datatype Field = ModeField | ConvField | AvgField | ThermField | PolarityField {

    /** Position of the field's least significant bit. */
    function Shift(): bv16 {
      match this
      case ModeField => 10
      case ConvField => 7
      case AvgField => 5
      case ThermField => 4
      case PolarityField => 3
    }

    /** The field's value mask before shifting: its width in ones. */
    function Mask(): bv16 {
      match this
      case ModeField => 0x3
      case ConvField => 0x7
      case AvgField => 0x3
      case ThermField => 0x1
      case PolarityField => 0x1
    }

    /** The bits of CONFIG the field occupies: the mask moved to the shift. */
    function Span(): bv16 {
      Mask() << Shift()
    }
  }

  /** The spans are the five documented bit ranges 11:10, 9:7, 6:5, 4 and 3. */
  lemma SpanValues()
    ensures ModeField.Span() == 0x0C00
    ensures ConvField.Span() == 0x0380
    ensures AvgField.Span() == 0x0060
    ensures ThermField.Span() == 0x0010
    ensures PolarityField.Span() == 0x0008
  {
  }

  /** Every field is 1, 2 or 3 bits wide and lies inside the low 16 bits. */
  lemma FieldShape(f: Field)
    ensures f.Mask() == 0x1 || f.Mask() == 0x3 || f.Mask() == 0x7
    ensures f.Shift() <= 13
  {
  }

  /** Getter: the field's raw value, shifted down and masked. */
  function Unpack(w: bv16, f: Field): bv16 {
    (w >> f.Shift()) & f.Mask()
  }

  /** Setter core: clear the field's span, then OR in the value masked to the
      field width and shifted into place. Out-of-width values are truncated. */
  function Pack(w: bv16, f: Field, v: bv16): bv16 {
    (w & !f.Span()) | ((v & f.Mask()) << f.Shift())
  }

  /** setAlertPolarity's own bit update: set bit 3 for a nonzero argument,
      clear it for zero. */
  function SetPolarityBit(w: bv16, activeHigh: bv16): (w': bv16)
    ensures w' & !0x0008 == w & !0x0008
    ensures (w' & 0x0008 != 0) <==> activeHigh != 0
  {
    if activeHigh != 0 then w | (1 << 3) else w & !(1 << 3)
  }

  /** A getter never returns more than its field width allows. */
  lemma UnpackRange(w: bv16, f: Field)
    ensures Unpack(w, f) <= f.Mask()
  {
    FieldShape(f);
  }

  /** Frame of the setter: every bit outside the field's span is kept. */
  lemma PackFrame(w: bv16, f: Field, v: bv16)
    ensures Pack(w, f, v) & !f.Span() == w & !f.Span()
  {
    FieldShape(f);
  }

  /** Round trip of the setter: the getter returns the argument masked to the
      field width. */
  lemma PackRoundTrip(w: bv16, f: Field, v: bv16)
    ensures Unpack(Pack(w, f, v), f) == v & f.Mask()
  {
    FieldShape(f);
  }

  /** A getter reads exactly the bits of its own span: two words agree on
      the field's value iff they agree on the span. */
  lemma UnpackReadsSpan(x: bv16, y: bv16, f: Field)
    ensures x & f.Span() == y & f.Span() <==> Unpack(x, f) == Unpack(y, f)
  {
    FieldShape(f);
  }

  /** A word is determined by its bits outside a field's span together with
      that field's value. */
  lemma SameFrameAndField(x: bv16, y: bv16, f: Field)
    requires x & !f.Span() == y & !f.Span()
    requires Unpack(x, f) == Unpack(y, f)
    ensures x == y
  {
    UnpackReadsSpan(x, y, f);
  }

  /** The five field spans are pairwise disjoint. */
  lemma SpansDisjoint(f: Field, g: Field)
    requires f != g
    ensures f.Span() & g.Span() == 0
  {
  }

  /** Writing one field never changes what another field's getter returns. */
  lemma PackPreservesOtherFields(w: bv16, f: Field, g: Field, v: bv16)
    requires f != g
    ensures Unpack(Pack(w, f, v), g) == Unpack(w, g)
  {
    PackFrame(w, f, v);
    SpansDisjoint(f, g);
    UnpackReadsSpan(Pack(w, f, v), w, g);
  }

  /** Writing back the value just read leaves the word unchanged. */
  lemma PackUnpackIdentity(w: bv16, f: Field)
    ensures Pack(w, f, Unpack(w, f)) == w
  {
    var v := Unpack(w, f);
    PackFrame(w, f, v);
    PackRoundTrip(w, f, v);
    UnpackRange(w, f);
    SameFrameAndField(Pack(w, f, v), w, f);
  }

  /** The last write to a field wins; in particular setting is idempotent. */
  lemma PackOverwrite(w: bv16, f: Field, v1: bv16, v2: bv16)
    ensures Pack(Pack(w, f, v1), f, v2) == Pack(w, f, v2)
  {
    PackFrame(w, f, v1);
    PackFrame(Pack(w, f, v1), f, v2);
    PackFrame(w, f, v2);
    PackRoundTrip(Pack(w, f, v1), f, v2);
    PackRoundTrip(w, f, v2);
    SameFrameAndField(Pack(Pack(w, f, v1), f, v2), Pack(w, f, v2), f);
  }

  /** Two words that agree on two fields and on every bit outside both spans
      are equal. */
  lemma SameOutsideAndFields(x: bv16, y: bv16, f: Field, g: Field)
    requires Unpack(x, f) == Unpack(y, f)
    requires Unpack(x, g) == Unpack(y, g)
    requires x & !f.Span() & !g.Span() == y & !f.Span() & !g.Span()
    ensures x == y
  {
    UnpackReadsSpan(x, y, f);
    UnpackReadsSpan(x, y, g);
  }

  /** Setting field `f` and then field `g` leaves both holding the values
      written and every bit outside the two spans as it was. */
  lemma PackTwoFields(w: bv16, f: Field, g: Field, a: bv16, b: bv16)
    requires f != g
    ensures Unpack(Pack(Pack(w, f, a), g, b), f) == a & f.Mask()
    ensures Unpack(Pack(Pack(w, f, a), g, b), g) == b & g.Mask()
    ensures Pack(Pack(w, f, a), g, b) & !f.Span() & !g.Span() == w & !f.Span() & !g.Span()
  {
    PackPreservesOtherFields(Pack(w, f, a), g, f, b);
    PackRoundTrip(w, f, a);
    PackRoundTrip(Pack(w, f, a), g, b);
    PackFrame(w, f, a);
    PackFrame(Pack(w, f, a), g, b);
  }

  /** Setting two different fields gives the same word in either order. */
  lemma PackCommutes(w: bv16, f: Field, g: Field, a: bv16, b: bv16)
    requires f != g
    ensures Pack(Pack(w, f, a), g, b) == Pack(Pack(w, g, b), f, a)
  {
    var x := Pack(Pack(w, f, a), g, b);
    var y := Pack(Pack(w, g, b), f, a);
    PackTwoFields(w, f, g, a, b);
    PackTwoFields(w, g, f, b, a);
    SameOutsideAndFields(x, y, f, g);
  }

  /** For an argument of 0 or 1 the polarity update is exactly the generic
      field setter; applying it twice with the same argument changes nothing
      further, and the getter reads back 1 exactly for a nonzero argument. */
  lemma PolarityBitIsPack(w: bv16, activeHigh: bv16)
    ensures activeHigh <= 1 ==> SetPolarityBit(w, activeHigh) == Pack(w, PolarityField, activeHigh)
    ensures SetPolarityBit(SetPolarityBit(w, activeHigh), activeHigh) == SetPolarityBit(w, activeHigh)
    ensures Unpack(SetPolarityBit(w, activeHigh), PolarityField) == (if activeHigh != 0 then 1 else 0)
  {
  }
}
