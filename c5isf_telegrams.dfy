/**
 * The example telegrams of the c5isf driver, record by record, and what
 * the field descriptors extract from them: the values the driver's
 * expected JSON lists for the T1B telegram, and the storage numbers that
 * place the T1A records in the fourteen previous months.
 */
module C5isfTelegrams {
  import opened Wrappers
  import opened Records
  import opened Selectors
  import opened Values
  import opened Registry
  import opened C5isfFields
  import Text
  import Units

  /** DIF 84 with DIFE 04: storage 8 (the due date values of T1B). */
  lemma DueStorage()
    ensures DecodeDib([0x84, 0x04]) == Some(Dib(Instantaneous, Integer(4), 8, 0, 0))
    ensures DecodeDib([0x82, 0x04]) == Some(Dib(Instantaneous, Integer(2), 8, 0, 0))
  {
  }

  /** DIF 84/C4 with DIFE 80 01: storage 32 and 33, the first two previous months. */
  lemma MonthStorage()
    ensures DecodeDib([0x84, 0x80, 0x01]) == Some(Dib(Instantaneous, Integer(4), 32, 0, 0))
    ensures DecodeDib([0xC4, 0x80, 0x01]) == Some(Dib(Instantaneous, Integer(4), 33, 0, 0))
  {
  }

  /** DIF 84 with DIFE 81 01 is storage 34, the third month. */
  lemma ThirdMonthStorage()
    ensures DecodeDib([0x84, 0x81, 0x01]) == Some(Dib(Instantaneous, Integer(4), 34, 0, 0))
  {
    ChainCons(0x01, []);
    ChainCons(0x81, [0x01]);
    ChainCons(0x84, [0x81, 0x01]);
    assert [0x84, 0x81, 0x01] == [0x84] + [0x81, 0x01];
    assert DifeStorage([0x81, 0x01]) == 17 && DifeTariff([0x81, 0x01]) == 0 && DifeSubunit([0x81, 0x01]) == 0 by {
      assert [0x81, 0x01][1..] == [0x01] && [0x01][1..] == [];
    }
    assert FunctionOf(0x84) == Instantaneous;
    DecodeCons(0x84, [0x81, 0x01], Integer(4));
  }

  /** DIF 94 with DIFE 80 01 is the maximum of storage 32. */
  lemma MaximumMonthStorage()
    ensures DecodeDib([0x94, 0x80, 0x01]) == Some(Dib(Maximum, Integer(4), 32, 0, 0))
  {
    ChainCons(0x01, []);
    ChainCons(0x80, [0x01]);
    ChainCons(0x94, [0x80, 0x01]);
    assert [0x94, 0x80, 0x01] == [0x94] + [0x80, 0x01];
    assert DifeStorage([0x80, 0x01]) == 16 && DifeTariff([0x80, 0x01]) == 0 && DifeSubunit([0x80, 0x01]) == 0 by {
      assert [0x80, 0x01][1..] == [0x01] && [0x01][1..] == [];
    }
    assert FunctionOf(0x94) == Maximum;
    DecodeCons(0x94, [0x80, 0x01], Integer(4));
  }

  /** The data 00 00 00 80, least significant byte first. */
  lemma TopBitWord()
    ensures LeUnsigned([0x00, 0x00, 0x00, 0x80]) == 2147483648
  {
  }

  /** DIF 04 and DIF 02: a 32-bit and a 16-bit instantaneous integer of storage 0. */
  lemma PlainStorage()
    ensures DecodeDib([0x04]) == Some(Dib(Instantaneous, Integer(4), 0, 0, 0))
    ensures DecodeDib([0x02]) == Some(Dib(Instantaneous, Integer(2), 0, 0, 0))
  {
  }

  /** total_energy_consumption_kwh 26: VIF 06 is 10^3 Wh, that is kWh. */
  lemma TotalEnergyRecord()
    ensures HeaderOf(Entry([0x04], [0x06], [0x1A, 0x00, 0x00, 0x00])) == Some(Header(Dib(Instantaneous, Integer(4), 0, 0, 0), Vif(EnergyWh, 0)))
    ensures Numeric(Entry([0x04], [0x06], [0x1A, 0x00, 0x00, 0x00])) == Some(26.0)
  {
    PlainStorage();
    var e := Entry([0x04], [0x06], [0x1A, 0x00, 0x00, 0x00]);
    assert DecodeVif(e.vib) == Some(Vif(EnergyWh, 0));
    assert LeUnsigned(e.data) == 26;
    assert Scaled(26, 0) == 26.0 by { assert Pow10(0) == 1.0; }
  }

  /** total_volume_m3 2.242: VIF 13 is 10^-3 m3. */
  lemma TotalVolumeRecord()
    ensures HeaderOf(Entry([0x04], [0x13], [0xC2, 0x08, 0x00, 0x00])) == Some(Header(Dib(Instantaneous, Integer(4), 0, 0, 0), Vif(Volume, -3)))
    ensures Numeric(Entry([0x04], [0x13], [0xC2, 0x08, 0x00, 0x00])) == Some(2.242)
  {
    PlainStorage();
    var e := Entry([0x04], [0x13], [0xC2, 0x08, 0x00, 0x00]);
    assert DecodeVif(e.vib) == Some(Vif(Volume, -3));
    assert LeUnsigned(e.data) == 2242;
    assert Scaled(2242, -3) == 2.242 by { assert Pow10(-3) == 0.001; }
  }

  /** volume_flow_m3h 0.164: VIF 3B is 10^-3 m3/h. */
  lemma VolumeFlowRecord()
    ensures HeaderOf(Entry([0x04], [0x3B], [0xA4, 0x00, 0x00, 0x00])) == Some(Header(Dib(Instantaneous, Integer(4), 0, 0, 0), Vif(VolumeFlow, -3)))
    ensures Numeric(Entry([0x04], [0x3B], [0xA4, 0x00, 0x00, 0x00])) == Some(0.164)
  {
    PlainStorage();
    var e := Entry([0x04], [0x3B], [0xA4, 0x00, 0x00, 0x00]);
    assert DecodeVif(e.vib) == Some(Vif(VolumeFlow, -3));
    assert LeUnsigned(e.data) == 164;
    assert Scaled(164, -3) == 0.164 by { assert Pow10(-3) == 0.001; }
  }

  /** power_kw 2.5: VIF 2D is 10^2 W, a tenth of a kW. */
  lemma PowerRecord()
    ensures HeaderOf(Entry([0x04], [0x2D], [0x19, 0x00, 0x00, 0x00])) == Some(Header(Dib(Instantaneous, Integer(4), 0, 0, 0), Vif(PowerW, -1)))
    ensures Numeric(Entry([0x04], [0x2D], [0x19, 0x00, 0x00, 0x00])) == Some(2.5)
  {
    PlainStorage();
    var e := Entry([0x04], [0x2D], [0x19, 0x00, 0x00, 0x00]);
    assert DecodeVif(e.vib) == Some(Vif(PowerW, -1));
    assert LeUnsigned(e.data) == 25;
    assert Scaled(25, -1) == 2.5 by { assert Pow10(-1) == 0.1; }
  }

  /** flow_temperature_c 56.5: VIF 59 is 10^-2 degrees Celsius. */
  lemma FlowTemperatureRecord()
    ensures HeaderOf(Entry([0x02], [0x59], [0x12, 0x16])) == Some(Header(Dib(Instantaneous, Integer(2), 0, 0, 0), Vif(FlowTemperature, -2)))
    ensures Numeric(Entry([0x02], [0x59], [0x12, 0x16])) == Some(56.5)
  {
    PlainStorage();
    var e := Entry([0x02], [0x59], [0x12, 0x16]);
    assert DecodeVif(e.vib) == Some(Vif(FlowTemperature, -2));
    assert LeUnsigned(e.data) == 5650;
    assert Scaled(5650, -2) == 56.5 by { assert Pow10(-2) == 0.01; }
  }

  /** return_temperature_c 43.22: VIF 5D is 10^-2 degrees Celsius. */
  lemma ReturnTemperatureRecord()
    ensures HeaderOf(Entry([0x02], [0x5D], [0xE2, 0x10])) == Some(Header(Dib(Instantaneous, Integer(2), 0, 0, 0), Vif(ReturnTemperature, -2)))
    ensures Numeric(Entry([0x02], [0x5D], [0xE2, 0x10])) == Some(43.22)
  {
    PlainStorage();
    var e := Entry([0x02], [0x5D], [0xE2, 0x10]);
    assert DecodeVif(e.vib) == Some(Vif(ReturnTemperature, -2));
    assert LeUnsigned(e.data) == 4322;
    assert Scaled(4322, -2) == 43.22 by { assert Pow10(-2) == 0.01; }
  }

  /** prev_2_month_kwh 2147483648 (T1A1): the data 0x80000000 is read unsigned. */
  lemma PrevMonthEnergyRecord()
    ensures HeaderOf(Entry([0xC4, 0x80, 0x01], [0x06], [0x00, 0x00, 0x00, 0x80])) == Some(Header(Dib(Instantaneous, Integer(4), 33, 0, 0), Vif(EnergyWh, 0)))
    ensures Numeric(Entry([0xC4, 0x80, 0x01], [0x06], [0x00, 0x00, 0x00, 0x80])) == Some(2147483648.0)
  {
    var e := Entry([0xC4, 0x80, 0x01], [0x06], [0x00, 0x00, 0x00, 0x80]);
    MonthStorage();
    TopBitWord();
    assert DecodeVif(e.vib) == Some(Vif(EnergyWh, 0));
    assert HeaderOf(e) == Some(Header(Dib(Instantaneous, Integer(4), 33, 0, 0), Vif(EnergyWh, 0)));
    assert Scaled(2147483648, 0) == 2147483648.0 by { assert Pow10(0) == 1.0; }
  }

  /** prev_2_month_m3 21474836.48 (T1A2): VIF 14 is 10^-2 m3. */
  lemma PrevMonthVolumeRecord()
    ensures HeaderOf(Entry([0xC4, 0x80, 0x01], [0x14], [0x00, 0x00, 0x00, 0x80])) == Some(Header(Dib(Instantaneous, Integer(4), 33, 0, 0), Vif(Volume, -2)))
    ensures Numeric(Entry([0xC4, 0x80, 0x01], [0x14], [0x00, 0x00, 0x00, 0x80])) == Some(21474836.48)
  {
    var e := Entry([0xC4, 0x80, 0x01], [0x14], [0x00, 0x00, 0x00, 0x80]);
    MonthStorage();
    TopBitWord();
    assert DecodeVif(e.vib) == Some(Vif(Volume, -2));
    assert HeaderOf(e) == Some(Header(Dib(Instantaneous, Integer(4), 33, 0, 0), Vif(Volume, -2)));
    assert Scaled(2147483648, -2) == 21474836.48 by { assert Pow10(-2) == 0.01; }
  }

  /** The three dates of the example telegrams. The all-ones date is rendered as it is coded, month 15 included. */
  lemma DateText2022()
    ensures DateText(0x21C1) == "2022-01-01"
  {
    assert DecodeDateG(0x21C1) == DateG(2022, 1, 1);
    Digits2022();
  }

  lemma Digits2022()
    ensures Text.Decimal(2022) == "2022" && Text.Digits(1, 10, 2) == "01"
  {
  }

  lemma DateText2017()
    ensures DateText(0x2421) == "2017-04-01"
  {
    assert DecodeDateG(0x2421) == DateG(2017, 4, 1);
    Digits2017();
  }

  lemma Digits2017()
    ensures Text.Decimal(2017) == "2017"
    ensures Text.Digits(4, 10, 2) == "04" && Text.Digits(1, 10, 2) == "01"
  {
  }

  lemma DateTextAllOnes()
    ensures DateText(0xFFFF) == "2127-15-31"
  {
    assert DecodeDateG(0xFFFF) == DateG(2127, 15, 31);
    AllOnesDigits();
  }

  lemma AllOnesDigits()
    ensures Text.Decimal(2127) == "2127"
    ensures Text.Digits(15, 10, 2) == "15" && Text.Digits(31, 10, 2) == "31"
  {
  }

  lemma DueDateRecord()
    ensures HeaderOf(Entry([0x82, 0x04], [0x6C], [0xC1, 0x21])) == Some(Header(Dib(Instantaneous, Integer(2), 8, 0, 0), Vif(Records.Date, 0)))
    ensures Values.Date(Entry([0x82, 0x04], [0x6C], [0xC1, 0x21])) == Some("2022-01-01")
  {
    var e := Entry([0x82, 0x04], [0x6C], [0xC1, 0x21]);
    assert HeaderOf(e) == Some(Header(Dib(Instantaneous, Integer(2), 8, 0, 0), Vif(Records.Date, 0)));
    assert LeUnsigned(e.data) == 0x21C1;
    DateText2022();
  }

  /** The T1A status record 02 FD17 2400 holds error code 36, and the status field prints its two labels. */
  lemma StatusRecord()
    ensures Values.Unsigned(Entry([0x02], [0xFD, 0x17], [0x24, 0x00])) == Some(36)
    ensures Extract(Common()[2], [Entry([0x02], [0xFD, 0x17], [0x24, 0x00])]) == Some(Str("REVERSE_FLOW SUPPLY_SENSOR_INTERRUPTED"))
  {
    var e := Entry([0x02], [0xFD, 0x17], [0x24, 0x00]);
    var f := Common()[2];
    assert f.pattern == Literal(StatusKey) && f.kind == LookupKind(C5isfFields.ErrorFlags());
    StatusCode(0x24, 0x00);
    StatusFound([0x24, 0x00]);
    StatusReverseFlow();
    ExtractFound(f, [e], 0);
  }

  /** The T1B status record 02 FD17 0000 holds no error, and the status field prints "OK". */
  lemma StatusOkRecord()
    ensures Extract(Common()[2], [Entry([0x02], [0xFD, 0x17], [0x00, 0x00])]) == Some(Str("OK"))
  {
    var e := Entry([0x02], [0xFD, 0x17], [0x00, 0x00]);
    var f := Common()[2];
    assert f.pattern == Literal(StatusKey) && f.kind == LookupKind(C5isfFields.ErrorFlags());
    StatusCode(0x00, 0x00);
    StatusFound([0x00, 0x00]);
    StatusOkOnlyForZero(0);
    ExtractFound(f, [e], 0);
  }

  /** A status record 02 FD17 holds its two data bytes as a 16-bit little-endian error code. */
  lemma StatusCode(lo: byte, hi: byte)
    ensures Values.Unsigned(Entry([0x02], [0xFD, 0x17], [lo, hi])) == Some(lo as nat + 256 * hi as nat)
  {
    PlainStorage();
    var e := Entry([0x02], [0xFD, 0x17], [lo, hi]);
    assert DecodeVif(e.vib) == Some(Vif(ErrorFlags, 0));
    assert HeaderOf(e) == Some(Header(Dib(Instantaneous, Integer(2), 0, 0, 0), Vif(ErrorFlags, 0)));
    assert LeUnsigned(e.data) == lo as nat + 256 * hi as nat;
  }

  /** The status selector finds the status record in a telegram made of it alone. */
  lemma StatusFound(data: seq<byte>)
    ensures Find([Entry([0x02], [0xFD, 0x17], data)], Literal(StatusKey)) == Some(0)
  {
    var e := Entry([0x02], [0xFD, 0x17], data);
    assert e.Key() == StatusKey;
    FindFirst([e], Literal(StatusKey), 0);
  }

  /** The total energy field stores 26 kWh from the T1B total energy record. */
  lemma TotalEnergyExtracted()
    ensures Extract(Common()[0], [Entry([0x04], [0x06], [0x1A, 0x00, 0x00, 0x00])]) == Some(Num(26.0))
  {
    var e := Entry([0x04], [0x06], [0x1A, 0x00, 0x00, 0x00]);
    var f := Common()[0];
    assert f.pattern == Select(Instantaneous, EnergyWh, 0) && f.kind == NumericKind(Units.KWH);
    TotalEnergyRecord();
    FindFirst([e], f.pattern, 0);
    ExtractCoherent(f, [e], 0);
  }

  /** The due date field stores "2022-01-01" from the T1B due date record. */
  lemma DueDateExtracted()
    ensures Extract(T1B()[1], [Entry([0x82, 0x04], [0x6C], [0xC1, 0x21])]) == Some(Str("2022-01-01"))
  {
    var e := Entry([0x82, 0x04], [0x6C], [0xC1, 0x21]);
    var f := T1B()[1];
    assert f.pattern == Select(Instantaneous, Records.Date, 8) && f.kind == DateKind;
    DueDateRecord();
    assert Hit(f.pattern, e);
    FindFirst([e], f.pattern, 0);
    ExtractFound(f, [e], 0);
  }

  /** The second previous month's energy record is selected by prev_2_month and by no other monthly energy field. */
  lemma SecondMonthSelected(i: nat)
    requires i < Months
    ensures Hit(Monthly(Energies, i).pattern, Entry([0xC4, 0x80, 0x01], [0x06], [0x00, 0x00, 0x00, 0x80])) <==> i == 1
  {
    PrevMonthEnergyRecord();
  }
}
