/**
 * The Ultrimis water meter. Its decode pass updates four members in place:
 * the total and the target volume (the first Instantaneous Volume record of
 * storage 0 and of storage 1), the 24-bit info codes (literal key 03FD17)
 * and the backward flow volume (literal key 04933C). The two volumes looked
 * up under a findKey guard keep their value when their record is absent;
 * the two literal keys are extracted unguarded, and a missing key sets the
 * member to zero. The status text and the
 * volume getters are computed from the members without changing them.
 */
module DriverUltrimis {
  import opened Wrappers
  import opened Records
  import opened Selectors
  import Values
  import Units
  import Text

  /** findKey(Instantaneous, Volume, storage, tariff 0): the first matching record. */
  function VolumeSelector(storage: nat): Pattern
  {
    Structural(Instantaneous, Volume, storage, 0, 1)
  }

  const InfoCodesKey: seq<byte> := [0x03, 0xFD, 0x17]
  const BackwardFlowKey: seq<byte> := [0x04, 0x93, 0x3C]

  /** The largest value of the 24-bit info codes, plus one. */
  const InfoCodesLimit := 0x1000000

  /** The volume, in m3, of the record the pattern selects; None when it is absent or not an integer. */
  function VolumeOf(t: seq<Entry>, p: Pattern): (r: Option<real>)
    ensures Find(t, p).None? ==> r.None?
    ensures r.Some? ==>
      Find(t, p).Some? && var e := t[Find(t, p).value];
      Hit(p, e) && HeaderOf(e).Some? && HeaderOf(e).value.dib.coding.Integer? &&
      r.value == Values.Scaled(Values.LeUnsigned(e.data), HeaderOf(e).value.vif.exponent)
  {
    match Find(t, p)
    case Some(k) => Values.Numeric(t[k])
    case None => None
  }

  /** The unsigned value of the record the pattern selects; None when it is absent or not an integer. */
  function UnsignedOf(t: seq<Entry>, p: Pattern): (r: Option<nat>)
    ensures Find(t, p).None? ==> r.None?
    ensures r.Some? ==>
      Find(t, p).Some? && var e := t[Find(t, p).value];
      Hit(p, e) && HeaderOf(e).Some? && HeaderOf(e).value.dib.coding.Integer? &&
      r.value == Values.LeUnsigned(e.data) && r.value < Text.Pow(256, Width(HeaderOf(e).value.dib.coding))
  {
    match Find(t, p)
    case Some(k) => Values.Unsigned(t[k])
    case None => None
  }

  /** A value found in the telegram replaces the member; otherwise the member keeps its value. */
  function Kept<T>(found: Option<T>, prev: T): T
  {
    match found
    case Some(v) => v
    case None => prev
  }

  /**
   * An extraction by literal key with no findKey guard around it: a missing
   * key writes zero into the member, a record that yields a value replaces
   * it, and a record that yields none leaves it as it was.
   */
  function Unguarded<T>(present: bool, found: Option<T>, prev: T, zero: T): T
  {
    if present then Kept(found, prev) else zero
  }

  /**
   * A record under the literal key 03FD17 that yields a value has DIF 03,
   * a three-byte integer, so the info codes always fit in 24 bits.
   */
  lemma InfoCodesFit(e: Entry)
    requires e.Key() == InfoCodesKey && Values.Unsigned(e).Some?
    ensures Values.Unsigned(e).value < InfoCodesLimit
  {
    var h := HeaderOf(e).value;
    assert ChainOk(e.dib);
    assert e.Key()[0] == e.dib[0] == 0x03;
    assert !Extends(e.dib[0]);
    assert |e.dib| == 1;
    assert e.dib == e.Key()[..1] == [0x03];
    assert h.dib.coding == Integer(3);
    assert Text.Pow(256, 3) == InfoCodesLimit;
  }

  /** The info codes the pass stores are below 2^24, whatever the telegram. */
  lemma InfoCodesFound(t: seq<Entry>)
    ensures UnsignedOf(t, Literal(InfoCodesKey)).Some? ==> UnsignedOf(t, Literal(InfoCodesKey)).value < InfoCodesLimit
  {
    var r := Find(t, Literal(InfoCodesKey));
    if r.Some? && Values.Unsigned(t[r.value]).Some? {
      InfoCodesFit(t[r.value]);
    }
  }

  /** The total (storage 0) and the target (storage 1) never take their value from the same record. */
  lemma TotalAndTargetDisjoint(t: seq<Entry>)
    ensures Find(t, VolumeSelector(0)).Some? && Find(t, VolumeSelector(1)).Some? ==>
      Find(t, VolumeSelector(0)) != Find(t, VolumeSelector(1))
  {
    DisjointSelect(t, VolumeSelector(0), VolumeSelector(1));
  }

  /** "OK" for code 0, otherwise "ERR(" and the code as six lower-case hex digits and ")". */
  function StatusText(code: nat): (s: string)
    requires code < InfoCodesLimit
    ensures s == "OK" <==> code == 0
    ensures code != 0 ==> |s| == 11 && s[..4] == "ERR(" && s[10] == ')'
  {
    if code == 0 then "OK"
    else
      var s := "ERR(" + Text.Digits(code, 16, 6) + ")";
      assert s[0] == 'E' && s[..4] == "ERR(";
      s
  }

  /**
   * A set 24-bit code is printed in exactly six hex digits that read back
   * as the code: nothing is truncated and nothing is padded beyond six.
   */
  lemma StatusHex(code: nat)
    requires 0 < code < InfoCodesLimit
    ensures var s := StatusText(code);
      |s| == 11 && s[..4] == "ERR(" && s[10] == ')' &&
      (forall i :: 4 <= i < 10 ==> ('0' <= s[i] <= '9') || ('a' <= s[i] <= 'f')) &&
      Text.ParseDigits(s[4..10], 16) == code
  {
    var h := Text.Digits(code, 16, 6);
    var s := StatusText(code);
    assert s == "ERR(" + h + ")";
    assert s[4..10] == h;
    assert Text.Pow(16, 6) == InfoCodesLimit;
    Text.DigitsRoundTrip(code, 16, 6);
  }

  /** Two codes below 2^24 give the same status only when they are equal. */
  lemma StatusInjective(a: nat, b: nat)
    requires a < InfoCodesLimit && b < InfoCodesLimit
    ensures StatusText(a) == StatusText(b) ==> a == b
  {
    if a != 0 && b != 0 {
      StatusHex(a);
      StatusHex(b);
    }
  }

  /** The info codes of the example telegram, 0C0C0C. */
  lemma StatusExample()
    ensures StatusText(0x0C0C0C) == "ERR(0c0c0c)"
  {
    assert Text.Digits(0x0C0C0C, 16, 6) == "0c0c0c";
  }

  /**
   * The example telegram: total 04 13 320C0000, info codes 03 FD17 0C0C0C,
   * target 44 13 21090000 (storage 1) and backward flow 04 93 3C 05000000.
   */
  function Example(): seq<Entry>
  {
    [Entry([0x04], [0x13], [0x32, 0x0C, 0x00, 0x00]),
     Entry([0x03], [0xFD, 0x17], [0x0C, 0x0C, 0x0C]),
     Entry([0x44], [0x13], [0x21, 0x09, 0x00, 0x00]),
     Entry([0x04], [0x93, 0x3C], [0x05, 0x00, 0x00, 0x00])]
  }

  lemma ExampleHeaders()
    ensures HeaderOf(Example()[0]) == Some(Header(Dib(Instantaneous, Integer(4), 0, 0, 0), Vif(Volume, -3)))
    ensures HeaderOf(Example()[1]).Some? && HeaderOf(Example()[1]).value.dib.coding == Integer(3)
    ensures HeaderOf(Example()[1]).value.vif.range == ErrorFlags
    ensures HeaderOf(Example()[2]) == Some(Header(Dib(Instantaneous, Integer(4), 1, 0, 0), Vif(Volume, -3)))
    ensures HeaderOf(Example()[3]) == Some(Header(Dib(Instantaneous, Integer(4), 0, 0, 0), Vif(Volume, -3)))
  {
    ExampleBlocks();
  }

  /** The DIBs and VIBs of the example, decoded one block at a time. */
  lemma ExampleBlocks()
    ensures DecodeDib([0x04]) == Some(Dib(Instantaneous, Integer(4), 0, 0, 0))
    ensures DecodeDib([0x03]) == Some(Dib(Instantaneous, Integer(3), 0, 0, 0))
    ensures DecodeDib([0x44]) == Some(Dib(Instantaneous, Integer(4), 1, 0, 0))
    ensures DecodeVif([0x13]) == Some(Vif(Volume, -3)) && DecodeVif([0x93, 0x3C]) == Some(Vif(Volume, -3))
    ensures DecodeVif([0xFD, 0x17]) == Some(Vif(ErrorFlags, 0))
  {
  }

  /** The total consumption of the example: 3122 liters, 3.122 m3. */
  lemma ExampleTotal()
    ensures VolumeOf(Example(), VolumeSelector(0)) == Some(3.122)
  {
    var t := Example();
    ExampleHeaders();
    FindFirst(t, VolumeSelector(0), 0);
    assert Values.LeUnsigned(t[0].data) == 3122;
    assert Values.Scaled(3122, -3) == 3.122 by { assert Values.Pow10(-3) == 0.001; }
  }

  /**
   * The total's selector also matches the backward flow record 04 93 3C:
   * a combinable VIFE does not change the range. The total is the plain
   * record only because it is the first of the two.
   */
  lemma ExampleTotalSelectorTwice()
    ensures Hit(VolumeSelector(0), Example()[0]) && Hit(VolumeSelector(0), Example()[3])
    ensures Example()[3].Key() == BackwardFlowKey
  {
    ExampleHeaders();
  }

  /** The info codes of the example: 0C0C0C (see StatusExample for its text). */
  lemma ExampleInfoCodes()
    ensures UnsignedOf(Example(), Literal(InfoCodesKey)) == Some(0x0C0C0C)
  {
    var t := Example();
    ExampleHeaders();
    assert t[0].Key() == [0x04, 0x13];
    FindFirst(t, Literal(InfoCodesKey), 1);
    assert Values.LeUnsigned(t[1].data) == 0x0C0C0C;
  }

  /** The target of the example is the storage 1 record: 2337 liters, 2.337 m3. */
  lemma ExampleTarget()
    ensures VolumeOf(Example(), VolumeSelector(1)) == Some(2.337)
  {
    var t := Example();
    var p := VolumeSelector(1);
    ExampleHeaders();
    assert !Hit(p, t[0]) && !Hit(p, t[1]) && Hit(p, t[2]);
    FindFirst(t, p, 2);
    assert Values.LeUnsigned(t[2].data) == 2337;
    assert Values.Scaled(2337, -3) == 2.337 by { assert Values.Pow10(-3) == 0.001; }
  }

  /** The backward flow of the example, under the literal key 04933C: 5 liters, 0.005 m3. */
  lemma ExampleBackwardFlow()
    ensures VolumeOf(Example(), Literal(BackwardFlowKey)) == Some(0.005)
  {
    var t := Example();
    assert HeaderOf(t[3]) == Some(Header(Dib(Instantaneous, Integer(4), 0, 0, 0), Vif(Volume, -3)));
    assert t[0].Key() == [0x04, 0x13] && t[1].Key() == [0x03, 0xFD, 0x17] && t[2].Key() == [0x44, 0x13];
    FindFirst(t, Literal(BackwardFlowKey), 3);
    assert Values.LeUnsigned(t[3].data) == 5;
    assert Values.Pow10(-3) == 0.001;
  }

  class MeterUltrimis {
    var infoCodes: nat
    var totalWaterConsumptionM3: real
    var targetWaterConsumptionM3: real
    var totalBackwardFlowM3: real

    /** The info codes are really only 24 bits. */
    ghost predicate Valid()
      reads this
    {
      infoCodes < InfoCodesLimit
    }

    constructor ()
      ensures Valid()
      ensures infoCodes == 0 && totalWaterConsumptionM3 == 0.0
      ensures targetWaterConsumptionM3 == 0.0 && totalBackwardFlowM3 == 0.0
    {
      infoCodes := 0;
      totalWaterConsumptionM3, targetWaterConsumptionM3, totalBackwardFlowM3 := 0.0, 0.0, 0.0;
    }

    /**
     * One decode pass. The total and the target are looked up under a
     * findKey guard: they take their record's value when the telegram has
     * one and keep their value otherwise. The info codes and the backward
     * flow are extracted unguarded: a missing key sets them to zero.
     */
    method ProcessContent(t: seq<Entry>)
      requires Valid()
      modifies this
      ensures Valid()
      ensures totalWaterConsumptionM3 == Kept(VolumeOf(t, VolumeSelector(0)), old(totalWaterConsumptionM3))
      ensures infoCodes == Unguarded(Find(t, Literal(InfoCodesKey)).Some?, UnsignedOf(t, Literal(InfoCodesKey)), old(infoCodes), 0)
      ensures targetWaterConsumptionM3 == Kept(VolumeOf(t, VolumeSelector(1)), old(targetWaterConsumptionM3))
      ensures totalBackwardFlowM3 ==
        Unguarded(Find(t, Literal(BackwardFlowKey)).Some?, VolumeOf(t, Literal(BackwardFlowKey)), old(totalBackwardFlowM3), 0.0)
      ensures Find(t, Literal(InfoCodesKey)).None? ==> Status() == "OK"
    {
      var total := VolumeOf(t, VolumeSelector(0));
      if total.Some? {
        totalWaterConsumptionM3 := total.value;
      }

      var info := Find(t, Literal(InfoCodesKey));
      if info.Some? {
        var n := Values.Unsigned(t[info.value]);
        if n.Some? {
          InfoCodesFit(t[info.value]);
          infoCodes := n.value;
        }
      } else {
        infoCodes := 0;
      }

      var target := VolumeOf(t, VolumeSelector(1));
      if target.Some? {
        targetWaterConsumptionM3 := target.value;
      }

      var backward := VolumeOf(t, Literal(BackwardFlowKey));
      if Find(t, Literal(BackwardFlowKey)).None? {
        totalBackwardFlowM3 := 0.0;
      } else if backward.Some? {
        totalBackwardFlowM3 := backward.value;
      }
    }

    /** The current status text: "OK", or ERR with the info codes in six hex digits. */
    function Status(): (s: string)
      requires Valid()
      reads this
      ensures s == "OK" <==> infoCodes == 0
      ensures infoCodes != 0 ==> |s| == 11 && Text.ParseDigits(s[4..10], 16) == infoCodes
    {
      assert infoCodes != 0 ==> Text.ParseDigits(StatusText(infoCodes)[4..10], 16) == infoCodes by {
        if infoCodes != 0 {
          StatusHex(infoCodes);
        }
      }
      StatusText(infoCodes)
    }

    /** The total volume in a requested volume unit; in m3 it is the stored value. */
    function TotalWaterConsumption(u: Units.Unit): (r: real)
      requires Units.QuantityOf(u) == Units.Volume
      reads this
      ensures u == Units.M3 ==> r == totalWaterConsumptionM3
    {
      Units.Convert(totalWaterConsumptionM3, Units.M3, u)
    }

    function TargetWaterConsumption(u: Units.Unit): (r: real)
      requires Units.QuantityOf(u) == Units.Volume
      reads this
      ensures u == Units.M3 ==> r == targetWaterConsumptionM3
    {
      Units.Convert(targetWaterConsumptionM3, Units.M3, u)
    }

    function TotalBackwardFlow(u: Units.Unit): (r: real)
      requires Units.QuantityOf(u) == Units.Volume
      reads this
      ensures u == Units.M3 ==> r == totalBackwardFlowM3
    {
      Units.Convert(totalBackwardFlowM3, Units.M3, u)
    }

    function HasTotalWaterConsumption(): (r: bool)
      ensures r
    {
      true
    }
  }
}
