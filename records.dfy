/**
 * The data records of a decrypted M-Bus application-layer payload, as the
 * byte-key index hands them to a driver: the data information block (DIF
 * and its DIFE extensions), the value information block (VIF and its VIFE
 * extensions) and the data bytes. The functions here decode the parts of
 * those headers the drivers select on, following clause 6 of EN 13757-3:
 * the function field (MeasurementType), the data field coding and width, the
 * storage, tariff and subunit numbers spread over the DIF and its DIFEs, and
 * the VIF ranges with their decimal exponents.
 */
module Records {
  import opened Wrappers
  import Units

  type byte = b: int | 0 <= b < 256

  datatype MeasurementType = Instantaneous | Maximum | Minimum | AtError

  /** The data field of the DIF (its low nibble): how the data bytes are coded. */
  datatype Coding = NoData | Integer(width: nat) | Real32 | Bcd(width: nat)

  function Width(c: Coding): nat
  {
    match c
    case NoData => 0
    case Integer(w) => w
    case Real32 => 4
    case Bcd(w) => w
  }

  /** Data field codes 8 (selection for readout), 13 (variable length) and 15 (special function) carry no fixed-width value. */
  function CodingOf(field: nat): (r: Option<Coding>)
    requires field < 16
  {
    match field
    case 0 => Some(NoData)
    case 1 => Some(Integer(1))
    case 2 => Some(Integer(2))
    case 3 => Some(Integer(3))
    case 4 => Some(Integer(4))
    case 5 => Some(Real32)
    case 6 => Some(Integer(6))
    case 7 => Some(Integer(8))
    case 9 => Some(Bcd(1))
    case 10 => Some(Bcd(2))
    case 11 => Some(Bcd(3))
    case 12 => Some(Bcd(4))
    case 14 => Some(Bcd(6))
    case _ => None
  }

  function CodeOf(c: Coding): nat
  {
    match c
    case NoData => 0
    case Integer(w) => if w == 8 then 7 else if w == 6 then 6 else w
    case Real32 => 5
    case Bcd(w) => if w == 6 then 14 else w + 8
  }

  predicate Codable(c: Coding)
  {
    match c
    case Integer(w) => w in {1, 2, 3, 4, 6, 8}
    case Bcd(w) => w in {1, 2, 3, 4, 6}
    case _ => true
  }

  lemma CodingRoundTrip(c: Coding)
    requires Codable(c)
    ensures CodeOf(c) < 16 && CodingOf(CodeOf(c)) == Some(c)
  {
  }

  function FunctionOf(dif: byte): MeasurementType
  {
    var f := dif / 16 % 4;
    if f == 0 then Instantaneous else if f == 1 then Maximum else if f == 2 then Minimum else AtError
  }

  function FunctionCode(m: MeasurementType): (f: nat)
    ensures f < 4
  {
    match m
    case Instantaneous => 0
    case Maximum => 1
    case Minimum => 2
    case AtError => 3
  }

  /** Bit 7 of a DIF, DIFE, VIF or VIFE: another extension byte follows. */
  predicate Extends(b: byte)
  {
    b >= 128
  }

  /** Every byte but the last announces an extension, the last does not. */
  predicate ChainOk(bs: seq<byte>)
  {
    |bs| >= 1 && (forall i :: 0 <= i < |bs| - 1 ==> Extends(bs[i])) && !Extends(bs[|bs| - 1])
  }

  /** The decoded data information block. */
  datatype Dib = Dib(mtype: MeasurementType, coding: Coding, storage: nat, tariff: nat, subunit: nat)

  /** Each DIFE adds four storage bits (its bits 0-3), two tariff bits (4-5) and one subunit bit (6). */
  function DifeStorage(difes: seq<byte>): nat
  {
    if difes == [] then 0 else difes[0] % 16 + 16 * DifeStorage(difes[1..])
  }

  function DifeTariff(difes: seq<byte>): nat
  {
    if difes == [] then 0 else difes[0] / 16 % 4 + 4 * DifeTariff(difes[1..])
  }

  function DifeSubunit(difes: seq<byte>): nat
  {
    if difes == [] then 0 else difes[0] / 64 % 2 + 2 * DifeSubunit(difes[1..])
  }

  /**
   * Decodes a DIF and its DIFEs. The storage number's least significant bit
   * is bit 6 of the DIF; the DIFEs supply the higher bits. A broken
   * extension chain or a data field without a fixed width gives None.
   */
  function DecodeDib(dib: seq<byte>): (r: Option<Dib>)
    ensures r.Some? ==> ChainOk(dib) && r.value.mtype == FunctionOf(dib[0])
    ensures r.Some? ==> r.value.storage == dib[0] / 64 % 2 + 2 * DifeStorage(dib[1..])
  {
    if !ChainOk(dib) then None
    else match CodingOf(dib[0] % 16)
      case None => None
      case Some(c) =>
        Some(Dib(FunctionOf(dib[0]), c, dib[0] / 64 % 2 + 2 * DifeStorage(dib[1..]),
                 DifeTariff(dib[1..]), DifeSubunit(dib[1..])))
  }

  /** The shortest DIFE chain that carries the given storage (high bits), tariff and subunit numbers. */
  function EncodeDifes(s: nat, t: nat, u: nat): (r: seq<byte>)
    decreases s + t + u
  {
    if s == 0 && t == 0 && u == 0 then []
    else
      var more := s / 16 != 0 || t / 4 != 0 || u / 2 != 0;
      [s % 16 + 16 * (t % 4) + 64 * (u % 2) + (if more then 128 else 0)] + EncodeDifes(s / 16, t / 4, u / 2)
  }

  /** The DIF a meter writes: coding, function field, low storage bit and the extension bit. */
  function DifByte(d: Dib, extended: bool): nat
    requires Codable(d.coding)
  {
    CodeOf(d.coding) + 16 * FunctionCode(d.mtype) + 64 * (d.storage % 2) + (if extended then 128 else 0)
  }

  /** The DIF and DIFEs a meter writes for a data information block. */
  function EncodeDib(d: Dib): (r: seq<byte>)
    requires Codable(d.coding)
  {
    var difes := EncodeDifes(d.storage / 2, d.tariff, d.subunit);
    DifByteFields(d, difes != []);
    [DifByte(d, difes != [])] + difes
  }

  /** Packing four bit fields into a byte and reading them back. */
  lemma PackedByte(a: nat, b: nat, c: nat, x: nat)
    requires a < 16 && b < 4 && c < 2 && x < 2
    ensures var v := a + 16 * b + 64 * c + 128 * x;
      v < 256 && v % 16 == a && v / 16 % 4 == b && v / 64 % 2 == c && (v >= 128 <==> x == 1)
  {
    var v := a + 16 * b + 64 * c + 128 * x;
    assert v == a + 16 * (b + 4 * c + 8 * x);
    assert v / 16 == b + 4 * (c + 2 * x);
    assert v / 64 == c + 2 * x;
  }

  /** An extension byte in front of a well-formed chain, or a final byte alone, is a well-formed chain. */
  lemma ChainCons(b: byte, rest: seq<byte>)
    requires if rest == [] then !Extends(b) else Extends(b) && ChainOk(rest)
    ensures ChainOk([b] + rest) && ([b] + rest)[0] == b && ([b] + rest)[1..] == rest
  {
    var e := [b] + rest;
    assert e[1..] == rest;
    assert forall i :: 1 <= i < |e| ==> e[i] == rest[i - 1];
  }

  lemma {:induction false} EncodeDifesDecodes(s: nat, t: nat, u: nat)
    ensures var e := EncodeDifes(s, t, u);
      DifeStorage(e) == s && DifeTariff(e) == t && DifeSubunit(e) == u &&
      (e == [] <==> s == 0 && t == 0 && u == 0) && (e != [] ==> ChainOk(e))
    decreases s + t + u
  {
    if !(s == 0 && t == 0 && u == 0) {
      EncodeDifesDecodes(s / 16, t / 4, u / 2);
      var rest := EncodeDifes(s / 16, t / 4, u / 2);
      var more := s / 16 != 0 || t / 4 != 0 || u / 2 != 0;
      PackedByte(s % 16, t % 4, u % 2, if more then 1 else 0);
      var b := s % 16 + 16 * (t % 4) + 64 * (u % 2) + (if more then 128 else 0);
      ChainCons(b, rest);
      assert EncodeDifes(s, t, u) == [b] + rest;
    }
  }

  /** The DIF a meter writes is a byte from which each of its fields reads back. */
  lemma DifByteFields(d: Dib, extended: bool)
    requires Codable(d.coding)
    ensures var b := DifByte(d, extended);
      b < 256 && CodingOf(b % 16) == Some(d.coding) && FunctionOf(b) == d.mtype && b / 64 % 2 == d.storage % 2 &&
      (b >= 128 <==> extended)
  {
    var code := CodeOf(d.coding);
    assert code < 16 && CodingOf(code) == Some(d.coding) by {
      CodingRoundTrip(d.coding);
    }
    var b := DifByte(d, extended);
    assert b < 256 && b % 16 == code && b / 16 % 4 == FunctionCode(d.mtype) && b / 64 % 2 == d.storage % 2 &&
      (b >= 128 <==> extended) by {
      PackedByte(code, FunctionCode(d.mtype), d.storage % 2, if extended then 1 else 0);
    }
    FunctionOfCode(b, d.mtype);
  }

  lemma FunctionOfCode(b: byte, m: MeasurementType)
    requires b / 16 % 4 == FunctionCode(m)
    ensures FunctionOf(b) == m
  {
  }

  /** Decoding a DIF followed by its DIFEs. */
  lemma DecodeCons(b: byte, difes: seq<byte>, c: Coding)
    requires ChainOk([b] + difes) && CodingOf(b % 16) == Some(c)
    ensures DecodeDib([b] + difes) ==
      Some(Dib(FunctionOf(b), c, b / 64 % 2 + 2 * DifeStorage(difes), DifeTariff(difes), DifeSubunit(difes)))
  {
    assert ([b] + difes)[0] == b && ([b] + difes)[1..] == difes;
  }

  /** Decoding what a meter encodes gives back the same block. */
  lemma EncodeDibRoundTrip(d: Dib)
    requires Codable(d.coding)
    ensures DecodeDib(EncodeDib(d)) == Some(d)
  {
    var difes := EncodeDifes(d.storage / 2, d.tariff, d.subunit);
    assert DifeStorage(difes) == d.storage / 2 && DifeTariff(difes) == d.tariff && DifeSubunit(difes) == d.subunit &&
      (difes != [] ==> ChainOk(difes)) by {
      EncodeDifesDecodes(d.storage / 2, d.tariff, d.subunit);
    }
    DifByteFields(d, difes != []);
    var b: byte := DifByte(d, difes != []);
    ChainCons(b, difes);
    DecodeCons(b, difes, d.coding);
    assert d.storage == d.storage % 2 + 2 * (d.storage / 2);
  }

  /** The VIF ranges the drivers select on. */
  datatype VifRange = EnergyWh | Volume | PowerW | VolumeFlow | FlowTemperature | ReturnTemperature | Date | ErrorFlags

  /** A decoded VIF: its range and the power of ten that scales the data to the range's canonical unit. */
  datatype Vif = Vif(range: VifRange, exponent: int)

  /** The unit a decoded value of each range is expressed in. */
  function RangeUnit(r: VifRange): Units.Unit
  {
    match r
    case EnergyWh => Units.KWH
    case Volume => Units.M3
    case PowerW => Units.KW
    case VolumeFlow => Units.M3H
    case FlowTemperature | ReturnTemperature => Units.C
    case Date | ErrorFlags => Units.TXT
  }

  /**
   * The primary VIF table (VIF without its extension bit). Energy is coded
   * as 10^(n-3) Wh and power as 10^(n-3) W, which is 10^(n-6) kWh and kW;
   * volume and volume flow as 10^(n-6) m3 and m3/h; temperatures as
   * 10^(n-3) degrees Celsius; 0x6C is a type G date.
   */
  function PrimaryVif(p: nat): (r: Option<Vif>)
    ensures r.Some? ==> -6 <= r.value.exponent <= 1
  {
    if p < 0x08 then Some(Vif(EnergyWh, p - 6))
    else if 0x10 <= p < 0x18 then Some(Vif(Volume, p - 0x10 - 6))
    else if 0x28 <= p < 0x30 then Some(Vif(PowerW, p - 0x28 - 6))
    else if 0x38 <= p < 0x40 then Some(Vif(VolumeFlow, p - 0x38 - 6))
    else if 0x58 <= p < 0x5C then Some(Vif(FlowTemperature, p - 0x58 - 3))
    else if 0x5C <= p < 0x60 then Some(Vif(ReturnTemperature, p - 0x5C - 3))
    else if p == 0x6C then Some(Vif(Date, 0))
    else None
  }

  /**
   * Decodes a VIF and its VIFEs. 0xFD selects the second extension table,
   * whose code 0x17 is the error flags field. Combinable VIFEs that follow
   * (such as 0x3C, backward flow) do not change the range.
   */
  function DecodeVif(vib: seq<byte>): (r: Option<Vif>)
    ensures r.Some? ==> ChainOk(vib)
  {
    if !ChainOk(vib) then None
    else if vib[0] == 0xFD then
      if vib[1] % 128 == 0x17 then Some(Vif(ErrorFlags, 0)) else None
    else PrimaryVif(vib[0] % 128)
  }

  /** The primary VIF byte a meter writes for a range and exponent, when the table has one. */
  function EncodeVif(v: Vif): Option<byte>
  {
    match v.range
    case EnergyWh => if -6 <= v.exponent <= 1 then Some(v.exponent + 6) else None
    case Volume => if -6 <= v.exponent <= 1 then Some(0x10 + v.exponent + 6) else None
    case PowerW => if -6 <= v.exponent <= 1 then Some(0x28 + v.exponent + 6) else None
    case VolumeFlow => if -6 <= v.exponent <= 1 then Some(0x38 + v.exponent + 6) else None
    case FlowTemperature => if -3 <= v.exponent <= 0 then Some(0x58 + v.exponent + 3) else None
    case ReturnTemperature => if -3 <= v.exponent <= 0 then Some(0x5C + v.exponent + 3) else None
    case Date => if v.exponent == 0 then Some(0x6C) else None
    case ErrorFlags => None
  }

  /** Every VIF that has a primary code decodes back to itself. */
  lemma VifRoundTrip(v: Vif)
    ensures EncodeVif(v).Some? ==> DecodeVif([EncodeVif(v).value]) == Some(v)
  {
    if EncodeVif(v).Some? {
      var p := EncodeVif(v).value;
      assert p < 128 && p != 0xFD;
      assert ChainOk([p]);
      assert DecodeVif([p]) == PrimaryVif(p);
      match v.range {
        case EnergyWh =>
        case Volume =>
        case PowerW =>
        case VolumeFlow =>
        case FlowTemperature =>
        case ReturnTemperature =>
        case Date =>
        case ErrorFlags =>
      }
    }
  }

  /** Every primary code decodes to the one VIF that encodes back to it. */
  lemma PrimaryVifRoundTrip(p: byte)
    ensures p < 128 && PrimaryVif(p).Some? ==> EncodeVif(PrimaryVif(p).value) == Some(p)
  {
  }

  /** One data record: its header blocks and the raw data bytes, unchanged from the payload. */
  datatype Entry = Entry(dib: seq<byte>, vib: seq<byte>, data: seq<byte>)
  {
    /** The DIF/VIF byte key the drivers' literal selectors name ("02FD17" is [0x02, 0xFD, 0x17]). */
    function Key(): seq<byte>
    {
      dib + vib
    }
  }

  datatype Header = Header(dib: Dib, vif: Vif)

  /** The decoded header of an entry whose data bytes have the width its DIF declares. */
  function HeaderOf(e: Entry): (r: Option<Header>)
    ensures r.Some? ==> Some(r.value.dib) == DecodeDib(e.dib) && Some(r.value.vif) == DecodeVif(e.vib)
    ensures r.Some? ==> |e.data| == Width(r.value.dib.coding)
  {
    match (DecodeDib(e.dib), DecodeVif(e.vib))
    case (Some(d), Some(v)) => if |e.data| == Width(d.coding) then Some(Header(d, v)) else None
    case _ => None
  }
}
