/**
 * The value extractor: turns the data bytes of a record into the value a
 * driver stores. Integer data is unsigned little-endian and scaled by the
 * VIF's power of ten; a type G date (EN 13757-3, Annex A) is rendered as
 * "YYYY-MM-DD" from its bit fields as they are, without checking that the
 * month or the day exists; an error-flags field is read as a plain unsigned
 * integer. A record whose header does not fit the requested kind yields
 * None, the not-found indicator, never an error.
 */
module Values {
  import opened Wrappers
  import opened Records
  import Text

  /** Unsigned little-endian value of the data bytes. */
  function LeUnsigned(data: seq<byte>): (n: nat)
    ensures n < Text.Pow(256, |data|)
  {
    if data == [] then 0 else data[0] + 256 * LeUnsigned(data[1..])
  }

  /** The w bytes a meter writes for n, least significant first. */
  function LeBytes(n: nat, w: nat): (r: seq<byte>)
    ensures |r| == w
    decreases w
  {
    if w == 0 then [] else [n % 256] + LeBytes(n / 256, w - 1)
  }

  lemma {:induction false} LeRoundTrip(n: nat, w: nat)
    requires n < Text.Pow(256, w)
    ensures LeUnsigned(LeBytes(n, w)) == n
    decreases w
  {
    if w > 0 {
      LeRoundTrip(n / 256, w - 1);
      assert LeBytes(n, w)[1..] == LeBytes(n / 256, w - 1);
    }
  }

  /** A number is its low byte plus 256 times the rest. */
  lemma WordBytes(lo: nat, hi: nat)
    requires lo < 256
    ensures (lo + 256 * hi) % 256 == lo && (lo + 256 * hi) / 256 == hi
  {
  }

  lemma {:induction false} LeBytesOfValue(data: seq<byte>)
    ensures LeBytes(LeUnsigned(data), |data|) == data
  {
    if data != [] {
      var rest := LeUnsigned(data[1..]);
      LeBytesOfValue(data[1..]);
      WordBytes(data[0], rest);
      assert LeBytes(LeUnsigned(data), |data|) == [data[0]] + LeBytes(rest, |data| - 1);
      assert data == [data[0]] + data[1..];
    }
  }

  function Pow10(e: int): (r: real)
    ensures r > 0.0
    decreases if e < 0 then -e else e
  {
    if e == 0 then 1.0
    else if e > 0 then 10.0 * Pow10(e - 1)
    else Pow10(e + 1) / 10.0
  }

  /** A raw count scaled by a power of ten. */
  function Scaled(n: nat, e: int): real
  {
    n as real * Pow10(e)
  }

  /**
   * The scaled value of an integer-coded record, in the canonical unit of
   * its VIF range. Data bytes are always read unsigned: 0x80000000 is
   * 2147483648, not a negative number.
   */
  function Numeric(e: Entry): (r: Option<real>)
    ensures r.Some? ==> HeaderOf(e).Some? && HeaderOf(e).value.dib.coding.Integer?
    ensures r.Some? ==> r.value == Scaled(LeUnsigned(e.data), HeaderOf(e).value.vif.exponent)
  {
    match HeaderOf(e)
    case Some(h) =>
      if h.dib.coding.Integer? then
        Some(Scaled(LeUnsigned(e.data), h.vif.exponent))
      else None
    case None => None
  }

  /** The raw unsigned integer of an integer-coded record, without scaling (status and info codes). */
  function Unsigned(e: Entry): (r: Option<nat>)
    ensures r.Some? ==> HeaderOf(e).Some? && HeaderOf(e).value.dib.coding.Integer?
    ensures r.Some? ==> r.value < Text.Pow(256, Width(HeaderOf(e).value.dib.coding))
  {
    match HeaderOf(e)
    case Some(h) => if h.dib.coding.Integer? then Some(LeUnsigned(e.data)) else None
    case None => None
  }

  /** The fields of a type G date: day in bits 0-4, month in bits 8-11, the year offset from 2000 in bits 5-7 (low) and 12-15 (high). */
  datatype DateG = DateG(year: nat, month: nat, day: nat)

  function DecodeDateG(raw: nat): (d: DateG)
    requires raw < 0x10000
    ensures 2000 <= d.year < 2128 && d.month < 16 && d.day < 32
  {
    var lo, hi := raw % 256, raw / 256;
    DateG(2000 + lo / 32 + 8 * (hi / 16), hi % 16, lo % 32)
  }

  predicate Representable(d: DateG)
  {
    2000 <= d.year < 2128 && d.month < 16 && d.day < 32
  }

  function EncodeDateG(d: DateG): (raw: nat)
    requires Representable(d)
    ensures raw < 0x10000
  {
    var y := d.year - 2000;
    (d.day + 32 * (y % 8)) + 256 * (d.month + 16 * (y / 8))
  }

  /** Two bit fields packed as a + m * b, with a below m, read back (m is one of the field widths of a date). */
  lemma PackedPair(a: nat, b: nat, m: nat)
    requires m in {8, 16, 32} && a < m
    ensures (a + m * b) % m == a && (a + m * b) / m == b
  {
    if m == 8 {
      assert (a + 8 * b) % 8 == a && (a + 8 * b) / 8 == b;
    } else if m == 16 {
      assert (a + 16 * b) % 16 == a && (a + 16 * b) / 16 == b;
    } else {
      assert (a + 32 * b) % 32 == a && (a + 32 * b) / 32 == b;
    }
  }

  /** Encoding a representable date and decoding it gives the date back. */
  lemma DateGRoundTrip(d: DateG)
    requires Representable(d)
    ensures DecodeDateG(EncodeDateG(d)) == d
  {
    var y := d.year - 2000;
    var lo, hi := d.day + 32 * (y % 8), d.month + 16 * (y / 8);
    assert EncodeDateG(d) == lo + 256 * hi;
    WordBytes(lo, hi);
    PackedPair(d.day, y % 8, 32);
    PackedPair(d.month, y / 8, 16);
    assert y == y % 8 + 8 * (y / 8);
  }

  /** Every 16-bit word is the encoding of the date it decodes to: no bit is lost. */
  lemma DateGWordRoundTrip(raw: nat)
    requires raw < 0x10000
    ensures EncodeDateG(DecodeDateG(raw)) == raw
  {
    var lo, hi := raw % 256, raw / 256;
    assert raw == lo + 256 * hi;
    assert lo == lo % 32 + 32 * (lo / 32);
    assert hi == hi % 16 + 16 * (hi / 16);
    var d := DecodeDateG(raw);
    assert d.year - 2000 == lo / 32 + 8 * (hi / 16);
    PackedPair(lo / 32, hi / 16, 8);
  }

  /** "%d-%02d-%02d" of a date, field by field, whatever their values. */
  function RenderDate(d: DateG): (s: string)
    ensures Representable(d) ==> |s| == 10 && s[4] == '-' && s[7] == '-'
  {
    var s := Text.Decimal(d.year) + "-" + Text.Digits(d.month, 10, 2) + "-" + Text.Digits(d.day, 10, 2);
    assert Representable(d) ==> |s| == 10 && s[4] == '-' && s[7] == '-' by {
      if Representable(d) {
        RenderedParts(d);
        DateParts(Text.Digits(d.year, 10, 4), Text.Digits(d.month, 10, 2), Text.Digits(d.day, 10, 2));
      }
    }
    s
  }

  /** Reads back a date rendered with a four-digit year. */
  function ParseDate(s: string): Option<DateG>
  {
    if |s| == 10 && s[4] == '-' && s[7] == '-' then
      Some(DateG(Text.ParseDigits(s[..4], 10), Text.ParseDigits(s[5..7], 10), Text.ParseDigits(s[8..], 10)))
    else None
  }

  lemma RenderedParts(d: DateG)
    requires Representable(d)
    ensures Text.Decimal(d.year) == Text.Digits(d.year, 10, 4)
    ensures Text.ParseDigits(Text.Digits(d.year, 10, 4), 10) == d.year
    ensures Text.ParseDigits(Text.Digits(d.month, 10, 2), 10) == d.month
    ensures Text.ParseDigits(Text.Digits(d.day, 10, 2), 10) == d.day
  {
    Text.FourDigits(d.year);
    Text.DigitsRoundTrip(d.year, 10, 4);
    Text.DigitsRoundTrip(d.month, 10, 2);
    Text.DigitsRoundTrip(d.day, 10, 2);
  }

  /** The three parts of a rendered date sit at fixed positions. */
  lemma DateParts(ys: string, ms: string, ds: string)
    requires |ys| == 4 && |ms| == 2 && |ds| == 2
    ensures var s := ys + "-" + ms + "-" + ds;
      |s| == 10 && s[4] == '-' && s[7] == '-' && s[..4] == ys && s[5..7] == ms && s[8..] == ds
  {
    var s := ys + "-" + ms + "-" + ds;
    assert s[..4] == ys;
    assert s[5..7] == ms;
    assert s[8..] == ds;
  }

  lemma RenderDateRoundTrip(d: DateG)
    requires Representable(d)
    ensures ParseDate(RenderDate(d)) == Some(d)
  {
    RenderedParts(d);
    DateParts(Text.Digits(d.year, 10, 4), Text.Digits(d.month, 10, 2), Text.Digits(d.day, 10, 2));
  }

  /** The text a type G date field stores: the date as it is coded, never checked. */
  function DateText(raw: nat): (s: string)
    requires raw < 0x10000
    ensures ParseDate(s) == Some(DecodeDateG(raw))
  {
    RenderDateRoundTrip(DecodeDateG(raw));
    RenderDate(DecodeDateG(raw))
  }

  /** Distinct coded dates give distinct texts: rendering loses nothing, not even an impossible month. */
  lemma DateTextInjective(a: nat, b: nat)
    requires a < 0x10000 && b < 0x10000
    ensures DateText(a) == DateText(b) ==> a == b
  {
    if DateText(a) == DateText(b) {
      DateGWordRoundTrip(a);
      DateGWordRoundTrip(b);
    }
  }

  /** The date text of a two-byte type G record. */
  function Date(e: Entry): (r: Option<string>)
    ensures r.Some? ==> HeaderOf(e).Some? && HeaderOf(e).value.vif.range == Records.Date && |e.data| == 2
    ensures r.Some? ==> r.value == DateText(LeUnsigned(e.data))
  {
    match HeaderOf(e)
    case Some(h) =>
      if h.vif.range == Records.Date && |e.data| == 2 then
        assert Text.Pow(256, 2) == 0x10000;
        Some(DateText(LeUnsigned(e.data)))
      else None
    case None => None
  }

  /**
   * A meter that writes n in w little-endian bytes under an integer DIB and
   * a primary VIF is read back as n scaled by the VIF's power of ten.
   */
  lemma NumericRoundTrip(d: Dib, v: Vif, n: nat)
    requires d.coding.Integer? && Codable(d.coding) && EncodeVif(v).Some?
    requires n < Text.Pow(256, d.coding.width)
    ensures Numeric(Entry(EncodeDib(d), [EncodeVif(v).value], LeBytes(n, d.coding.width))) == Some(Scaled(n, v.exponent))
    ensures Unsigned(Entry(EncodeDib(d), [EncodeVif(v).value], LeBytes(n, d.coding.width))) == Some(n)
  {
    EncodeDibRoundTrip(d);
    VifRoundTrip(v);
    LeRoundTrip(n, d.coding.width);
  }

  /** A date written as a two-byte type G record is read back as its rendered text. */
  lemma DateRoundTrip(d: Dib, v: Vif, date: DateG)
    requires d.coding == Integer(2) && Codable(d.coding) && v.range == Records.Date && EncodeVif(v).Some?
    requires Representable(date)
    ensures Date(Entry(EncodeDib(d), [EncodeVif(v).value], LeBytes(EncodeDateG(date), 2))) == Some(RenderDate(date))
  {
    EncodeDibRoundTrip(d);
    VifRoundTrip(v);
    assert Text.Pow(256, 2) == 0x10000;
    LeRoundTrip(EncodeDateG(date), 2);
    DateGRoundTrip(date);
  }
}
