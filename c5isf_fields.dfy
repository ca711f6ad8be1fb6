/**
 * The c5isf heat meter (Zenner): one driver for three incompatible telegram
 * variants, T1A1, T1A2 and T1B. This module holds the driver's data: the
 * slots it stores, the ERROR_FLAGS status table and the ordered list of
 * field descriptors its constructor registers.
 *
 * FIND_FIELD(m, r) selects (m, r, StorageNr(0), TariffNr(0), IndexNr(1));
 * FIND_FIELD_S and FIND_SFIELD_S take the storage number as an argument and
 * keep TariffNr(0) and IndexNr(1).
 */
module C5isfFields {
  import opened Records
  import opened Selectors
  import opened Registry
  import Units
  import opened Translate
  import Text

  /** The fourteen months of history the T1A1 and T1A2 telegrams carry. */
  const Months := 14

  /** The member fields of the meter; the i of a monthly slot is the month offset minus one. */
  datatype Slot =
    | TotalEnergyKwh | TotalVolumeM3 | StatusText
    | PrevMonthDate(i: nat) | TotalEnergyPrevMonthKwh(i: nat) | TotalVolumePrevMonthM3(i: nat)
    | DueEnergyKwh | DueDate | VolumeFlowM3h | PowerKw | TotalEnergyLastMonthKwh | LastMonthDate
    | MaxPowerLastMonthKw | FlowTemperatureC | ReturnTemperatureC

  predicate ValidSlot(s: Slot)
  {
    (s.PrevMonthDate? || s.TotalEnergyPrevMonthKwh? || s.TotalVolumePrevMonthM3?) ==> s.i < Months
  }

  /** The slots that are strings in the meter; all others are doubles. */
  predicate IsText(s: Slot)
  {
    s.StatusText? || s.PrevMonthDate? || s.DueDate? || s.LastMonthDate?
  }

  /** A slot's value before any telegram has set it: 0 for numbers, "" for strings. */
  function Initial(s: Slot): Value
  {
    if IsText(s) then Str("") else Num(0.0)
  }

  /** The ERROR_FLAGS rule of the status field: a DecimalsToString lookup bounded by 9999, code 0 reads "OK". */
  function ErrorFlags(): (l: Lookup)
    ensures l.bound == 9999 && l.okLabel == "OK" && |l.rules| == 18
  {
    Lookup("ERROR_FLAGS", 9999, "OK", [
      Rule(2000, "VERIFICATION_EXPIRED"),
      Rule(1000, "BATTERY_EXPIRED"),
      Rule(800, "WIRELESS_ERROR"),
      Rule(100, "HARDWARE_ERROR3"),
      Rule(50, "VALUE_OVERLOAD"),
      Rule(40, "AIR_INSIDE"),
      Rule(30, "REVERSE_FLOW"),
      Rule(20, "DRY"),
      Rule(10, "ERROR_MEASURING"),
      Rule(9, "HARDWARE_ERROR2"),
      Rule(8, "HARDWARE_ERROR1"),
      Rule(7, "LOW_BATTERY"),
      Rule(6, "SUPPLY_SENSOR_INTERRUPTED"),
      Rule(5, "SHORT_CIRCUIT_SUPPLY_SENSOR"),
      Rule(4, "RETURN_SENSOR_INTERRUPTED"),
      Rule(3, "SHORT_CIRCUIT_RETURN_SENSOR"),
      Rule(2, "TEMP_ABOVE_RANGE"),
      Rule(1, "TEMP_BELOW_RANGE")
    ])
  }

  const Shown := PrintProps(true, true, true)
  const JsonOnly := PrintProps(true, false, false)

  /** The literal key of the status field, DifVifKey("02FD17"). */
  const StatusKey: seq<byte> := [0x02, 0xFD, 0x17]

  /** A structural selector as the driver writes it: tariff 0, and the first matching record. */
  function Select(m: MeasurementType, r: VifRange, storage: nat): (p: Pattern)
    ensures p.Structural? && p.storage == storage && p.tariff == 0 && Occurrence(p) == 1
  {
    Structural(m, r, storage, 0, 1)
  }

  /** FIND_FIELD passes its measurement type and VIF range through to the selector. */
  lemma SelectFields(m: MeasurementType, r: VifRange, storage: nat)
    ensures Select(m, r, storage).mtype == m && Select(m, r, storage).range == r
  {
  }

  /** The fields common to all three variants: total energy, total volume and the status. */
  function Common(): (fs: seq<FieldDescriptor<Slot>>)
    ensures |fs| == 3 && forall k :: 0 <= k < |fs| ==> Coherent(fs[k])
    ensures fs[2].pattern == Literal(StatusKey) && fs[2].kind == LookupKind(ErrorFlags())
  {
    [ Field("total_energy_consumption", Units.Energy, Select(Instantaneous, EnergyWh, 0), Shown, NumericKind(Units.KWH), TotalEnergyKwh),
      Field("total_volume", Units.Volume, Select(Instantaneous, Volume, 0), Shown, NumericKind(Units.M3), TotalVolumeM3),
      Field("status", Units.Text, Literal(StatusKey), Shown, LookupKind(ErrorFlags()), StatusText) ]
  }

  /** The three groups of fourteen monthly fields, registered one group after the other. */
  datatype Group = Dates | Energies | Volumes

  function GroupRange(g: Group): VifRange
  {
    match g
    case Dates => Date
    case Energies => EnergyWh
    case Volumes => Volume
  }

  /** The i-th (from 0) field of a monthly group: named prev_<i+1>_month, stored at StorageNr(32 + i). */
  function Monthly(g: Group, i: nat): (f: FieldDescriptor<Slot>)
    ensures Coherent(f) && !f.props.field && f.props == JsonOnly
    ensures f.name == "prev_" + Text.Decimal(i + 1) + "_month"
    ensures f.pattern == Select(Instantaneous, GroupRange(g), 32 + i)
  {
    var name := "prev_" + Text.Decimal(i + 1) + "_month";
    var pattern := Select(Instantaneous, GroupRange(g), 32 + i);
    match g
    case Dates => Field(name, Units.Text, pattern, JsonOnly, DateKind, PrevMonthDate(i))
    case Energies => Field(name, Units.Energy, pattern, JsonOnly, NumericKind(Units.KWH), TotalEnergyPrevMonthKwh(i))
    case Volumes => Field(name, Units.Volume, pattern, JsonOnly, NumericKind(Units.M3), TotalVolumePrevMonthM3(i))
  }

  /** The first n fields of a monthly group, as the constructor's loop appends them. */
  function MonthlyGroup(g: Group, n: nat): (fs: seq<FieldDescriptor<Slot>>)
    ensures |fs| == n && forall i :: 0 <= i < n ==> Coherent(fs[i])
  {
    seq(n, i requires 0 <= i < n => Monthly(g, i))
  }

  /** One more turn of the loop appends the next month's field. */
  lemma MonthlyGroupSnoc(g: Group, n: nat)
    ensures MonthlyGroup(g, n + 1) == MonthlyGroup(g, n) + [Monthly(g, n)]
  {
    assert forall i :: 0 <= i < n ==> MonthlyGroup(g, n + 1)[i] == MonthlyGroup(g, n)[i];
  }

  /** One of the driver's `for i < 14` registration loops: appends a group's fourteen descriptors. */
  method RegisterMonthly(fs: seq<FieldDescriptor<Slot>>, g: Group) returns (r: seq<FieldDescriptor<Slot>>)
    ensures r == fs + MonthlyGroup(g, Months)
  {
    r := fs;
    for i := 0 to Months
      invariant r == fs + MonthlyGroup(g, i)
    {
      MonthlyGroupSnoc(g, i);
      r := r + [Monthly(g, i)];
    }
  }

  /** The fields only the T1B telegram carries. */
  function T1B(): (fs: seq<FieldDescriptor<Slot>>)
    ensures |fs| == 9 && forall k :: 0 <= k < |fs| ==> Coherent(fs[k])
  {
    [ Field("due_energy_consumption", Units.Energy, Select(Instantaneous, EnergyWh, 8), JsonOnly, NumericKind(Units.KWH), DueEnergyKwh),
      Field("due_date", Units.Text, Select(Instantaneous, Date, 8), JsonOnly, DateKind, DueDate),
      Field("volume_flow", Units.Flow, Select(Instantaneous, VolumeFlow, 0), JsonOnly, NumericKind(Units.M3H), VolumeFlowM3h),
      Field("power", Units.Power, Select(Instantaneous, PowerW, 0), JsonOnly, NumericKind(Units.KW), PowerKw),
      Field("total_energy_consumption_last_month", Units.Energy, Select(Instantaneous, EnergyWh, 32), JsonOnly, NumericKind(Units.KWH), TotalEnergyLastMonthKwh),
      Field("last_month_date", Units.Text, Select(Instantaneous, Date, 32), JsonOnly, DateKind, LastMonthDate),
      Field("max_power_last_month", Units.Power, Select(Maximum, PowerW, 32), JsonOnly, NumericKind(Units.KW), MaxPowerLastMonthKw),
      Field("flow_temperature", Units.Temperature, Select(Instantaneous, FlowTemperature, 0), JsonOnly, NumericKind(Units.C), FlowTemperatureC),
      Field("return_temperature", Units.Temperature, Select(Instantaneous, ReturnTemperature, 0), JsonOnly, NumericKind(Units.C), ReturnTemperatureC) ]
  }

  /** All descriptors in registration order. */
  function Descriptors(): (fs: seq<FieldDescriptor<Slot>>)
    ensures |fs| == 54 && forall k :: 0 <= k < |fs| ==> Coherent(fs[k])
  {
    Common() + MonthlyGroup(Dates, Months) + MonthlyGroup(Energies, Months) + MonthlyGroup(Volumes, Months) + T1B()
  }

  /** Where each slot's descriptor stands in the registration order. */
  function SlotIndex(s: Slot): nat
  {
    match s
    case TotalEnergyKwh => 0
    case TotalVolumeM3 => 1
    case StatusText => 2
    case PrevMonthDate(i) => 3 + i
    case TotalEnergyPrevMonthKwh(i) => 3 + Months + i
    case TotalVolumePrevMonthM3(i) => 3 + 2 * Months + i
    case DueEnergyKwh => 45
    case DueDate => 46
    case VolumeFlowM3h => 47
    case PowerKw => 48
    case TotalEnergyLastMonthKwh => 49
    case LastMonthDate => 50
    case MaxPowerLastMonthKw => 51
    case FlowTemperatureC => 52
    case ReturnTemperatureC => 53
  }

  lemma DescriptorAt(k: nat)
    requires k < 54
    ensures Descriptors()[k] ==
      if k < 3 then Common()[k]
      else if k < 17 then Monthly(Dates, k - 3)
      else if k < 31 then Monthly(Energies, k - 17)
      else if k < 45 then Monthly(Volumes, k - 31)
      else T1B()[k - 45]
  {
  }

  /** A descriptor at position k binds a valid slot whose index is k and whose type fits the field's kind. */
  predicate BindsAt(f: FieldDescriptor<Slot>, k: nat)
  {
    ValidSlot(f.slot) && SlotIndex(f.slot) == k && (IsText(f.slot) <==> !f.kind.NumericKind?)
  }

  lemma CommonBinds(k: nat)
    requires k < 3
    ensures BindsAt(Common()[k], k)
  {
  }

  lemma MonthlyBinds(g: Group, i: nat)
    requires i < Months
    ensures BindsAt(Monthly(g, i), 3 + (match g case Dates => 0 case Energies => Months case Volumes => 2 * Months) + i)
  {
  }

  lemma T1BBinds(j: nat)
    requires j < 9
    ensures BindsAt(T1B()[j], 45 + j)
  {
  }

  /**
   * Every descriptor binds a valid slot whose index is its position, and
   * text slots are exactly those filled by date and lookup fields.
   */
  lemma DescriptorSlots(k: nat)
    requires k < |Descriptors()|
    ensures BindsAt(Descriptors()[k], k)
  {
    DescriptorAt(k);
    if k < 3 {
      CommonBinds(k);
    } else if k < 17 {
      MonthlyBinds(Dates, k - 3);
    } else if k < 31 {
      MonthlyBinds(Energies, k - 17);
    } else if k < 45 {
      MonthlyBinds(Volumes, k - 31);
    } else {
      T1BBinds(k - 45);
    }
  }

  /** Every valid slot has its descriptor. */
  lemma SlotDescribed(s: Slot)
    requires ValidSlot(s)
    ensures SlotIndex(s) < |Descriptors()| && Descriptors()[SlotIndex(s)].slot == s
  {
    var k := SlotIndex(s);
    SlotIndexInjective(s, s);
    DescriptorSlots(k);
    SlotIndexInjective(Descriptors()[k].slot, s);
  }

  /** Valid slots have distinct indices, all below 54. */
  lemma SlotIndexInjective(a: Slot, b: Slot)
    requires ValidSlot(a) && ValidSlot(b)
    ensures SlotIndex(a) < 54
    ensures SlotIndex(a) == SlotIndex(b) ==> a == b
  {
  }

  /** Each position binds the slot of that index, and each valid slot has its position. */
  ghost predicate WellBound(fs: seq<FieldDescriptor<Slot>>)
  {
    |fs| == 54 &&
    (forall k :: 0 <= k < |fs| ==> BindsAt(fs[k], k)) &&
    (forall s :: ValidSlot(s) ==> SlotIndex(s) < |fs| && fs[SlotIndex(s)].slot == s)
  }

  lemma DescriptorsWellBound()
    ensures WellBound(Descriptors())
  {
    forall k | 0 <= k < |Descriptors()| ensures BindsAt(Descriptors()[k], k) {
      DescriptorSlots(k);
    }
    forall s | ValidSlot(s) ensures SlotIndex(s) < |Descriptors()| && Descriptors()[SlotIndex(s)].slot == s {
      SlotDescribed(s);
    }
  }

  /** The constructor's registration sequence: the common fields, the three monthly loops, then the T1B fields. */
  method Register() returns (fs: seq<FieldDescriptor<Slot>>)
    ensures fs == Descriptors() && WellBound(fs)
  {
    fs := Common();
    fs := RegisterMonthly(fs, Dates);
    fs := RegisterMonthly(fs, Energies);
    fs := RegisterMonthly(fs, Volumes);
    fs := fs + T1B();
    DescriptorsWellBound();
  }

  /** Under a well-bound registration, a decode pass leaves in each slot what its own descriptor extracts, or the old value. */
  lemma WellBoundUpdated(fs: seq<FieldDescriptor<Slot>>, t: seq<Entry>, prev: Value, s: Slot)
    requires WellBound(fs) && ValidSlot(s)
    ensures Updated(fs, t, prev, s) == match Extract(fs[SlotIndex(s)], t) case Some(v) => v case None => prev
  {
    forall i | 0 <= i < |fs| && i != SlotIndex(s)
      ensures fs[i].slot != fs[SlotIndex(s)].slot
    {
      assert BindsAt(fs[i], i);
    }
    UpdatedSingle(fs, t, prev, SlotIndex(s));
  }

  /** The triggers of the ERROR_FLAGS table, in order. */
  predicate ErrorTriggers(r: seq<Rule>)
  {
    |r| == 18 && r[0].trigger == 2000 && r[1].trigger == 1000 && r[2].trigger == 800 && r[3].trigger == 100 && r[4].trigger == 50 && r[5].trigger == 40 &&
    r[6].trigger == 30 && r[7].trigger == 20 && r[8].trigger == 10 && r[9].trigger == 9 && r[10].trigger == 8 && r[11].trigger == 7 &&
    r[12].trigger == 6 && r[13].trigger == 5 && r[14].trigger == 4 && r[15].trigger == 3 && r[16].trigger == 2 && r[17].trigger == 1
  }

  /** A table with the ERROR_FLAGS triggers descends strictly within the bound 9999. */
  lemma ErrorTriggersDescend(r: seq<Rule>)
    requires ErrorTriggers(r)
    ensures Descending(r) && forall i :: 0 <= i < |r| ==> 0 < r[i].trigger <= 9999
  {
    assert StepsDown(r);
    StepsDownDescending(r);
  }

  /** The ERROR_FLAGS table is well formed: triggers strictly descend within the bound 9999 and no label reads "OK". */
  lemma ErrorFlagsWellFormed()
    ensures WellFormed(ErrorFlags())
  {
    ErrorFlagsTriggers();
    ErrorLabelsLong();
    ErrorTableWellFormed(ErrorFlags());
  }

  lemma ErrorFlagsTriggers()
    ensures ErrorTriggers(ErrorFlags().rules)
  {
    var r := ErrorFlags().rules;
    assert |r| == 18;
    assert r[0].trigger == 2000 && r[1].trigger == 1000 && r[2].trigger == 800 && r[3].trigger == 100 && r[4].trigger == 50 && r[5].trigger == 40;
    assert r[6].trigger == 30 && r[7].trigger == 20 && r[8].trigger == 10 && r[9].trigger == 9 && r[10].trigger == 8 && r[11].trigger == 7;
    assert r[12].trigger == 6 && r[13].trigger == 5 && r[14].trigger == 4 && r[15].trigger == 3 && r[16].trigger == 2 && r[17].trigger == 1;
  }

  /** A table with the ERROR_FLAGS triggers, bound and OK label, and labels of three letters or more, is well formed. */
  lemma ErrorTableWellFormed(l: Lookup)
    requires ErrorTriggers(l.rules) && l.bound == 9999 && l.okLabel == "OK"
    requires forall i :: 0 <= i < |l.rules| ==> |l.rules[i].name| >= 3
    ensures WellFormed(l)
  {
    ErrorTriggersDescend(l.rules);
    forall i | 0 <= i < |l.rules| ensures LabelOk(l, l.rules[i].name) {
      assert |l.rules[i].name| >= 3;
    }
  }

  /** Every ERROR_FLAGS label has at least three letters, so none reads "OK". */
  lemma ErrorLabelsLong()
    ensures forall i :: 0 <= i < |ErrorFlags().rules| ==> |ErrorFlags().rules[i].name| >= 3
  {
    var r := ErrorFlags().rules;
    assert |r| == 18;
    forall i | 0 <= i < 18 ensures |r[i].name| >= 3 {
    }
  }

  /** The status reads "OK" exactly when the error code is 0. */
  lemma StatusOkOnlyForZero(code: nat)
    ensures Translate.Translate(ErrorFlags(), code) == "OK" <==> code == 0
  {
    ErrorFlagsWellFormed();
    Translate.TranslateOk(ErrorFlags(), code);
  }

  /** A code the pass splits into exactly two rules prints their two labels, space separated. */
  lemma TranslatePair(l: Lookup, code: nat, i: nat, j: nat)
    requires code != 0 && i < |l.rules| && j < |l.rules|
    requires Greedy(l.rules, 0, code) == ([l.rules[i], l.rules[j]], 0)
    ensures Translate.Translate(l, code) == l.rules[i].name + " " + l.rules[j].name
  {
    var ls := [l.rules[i].name, l.rules[j].name];
    assert Labels([l.rules[i], l.rules[j]]) == ls;
    assert Decompose(l, code) == ls;
    assert ls[1..] == [ls[1]];
  }

  lemma StatusReverseFlowPass(r: seq<Rule>)
    requires ErrorTriggers(r)
    ensures Greedy(r, 0, 36) == ([r[6], r[12]], 0)
  {
    assert Greedy(r, 17, 0) == ([], 0);
    assert Greedy(r, 16, 0) == ([], 0);
    assert Greedy(r, 15, 0) == ([], 0);
    assert Greedy(r, 14, 0) == ([], 0);
    assert Greedy(r, 13, 0) == ([], 0);
    assert [r[12]] + [] == [r[12]];
    assert Greedy(r, 12, 6) == ([r[12]], 0);
    assert Greedy(r, 11, 6) == ([r[12]], 0);
    assert Greedy(r, 10, 6) == ([r[12]], 0);
    assert Greedy(r, 9, 6) == ([r[12]], 0);
    assert Greedy(r, 8, 6) == ([r[12]], 0);
    assert Greedy(r, 7, 6) == ([r[12]], 0);
    assert [r[6]] + [r[12]] == [r[6], r[12]];
    assert Greedy(r, 6, 36) == ([r[6], r[12]], 0);
    assert Greedy(r, 5, 36) == ([r[6], r[12]], 0);
    assert Greedy(r, 4, 36) == ([r[6], r[12]], 0);
    assert Greedy(r, 3, 36) == ([r[6], r[12]], 0);
    assert Greedy(r, 2, 36) == ([r[6], r[12]], 0);
    assert Greedy(r, 1, 36) == ([r[6], r[12]], 0);
    assert Greedy(r, 0, 36) == ([r[6], r[12]], 0);
  }

  /** The two labels of error code 36, space separated (kept apart: the string equality is costly beside the table). */
  lemma ReverseFlowText(a: string, b: string)
    requires a == "REVERSE_FLOW" && b == "SUPPLY_SENSOR_INTERRUPTED"
    ensures a + " " + b == "REVERSE_FLOW SUPPLY_SENSOR_INTERRUPTED"
  {
  }

  /** The two labels of error code 1030, space separated. */
  lemma BatteryReverseFlowText(a: string, b: string)
    requires a == "BATTERY_EXPIRED" && b == "REVERSE_FLOW"
    ensures a + " " + b == "BATTERY_EXPIRED REVERSE_FLOW"
  {
  }

  /** Error code 36, as in the T1A telegrams: reverse flow (30) and an interrupted supply sensor (6). */
  lemma StatusReverseFlow()
    ensures Translate.Translate(ErrorFlags(), 36) == "REVERSE_FLOW SUPPLY_SENSOR_INTERRUPTED"
  {
    var r := ErrorFlags().rules;
    ErrorFlagsTriggers();
    StatusReverseFlowPass(r);
    TranslatePair(ErrorFlags(), 36, 6, 12);
    ReverseFlowText(r[6].name, r[12].name);
  }

  lemma StatusBatteryReverseFlowPass(r: seq<Rule>)
    requires ErrorTriggers(r)
    ensures Greedy(r, 0, 1030) == ([r[1], r[6]], 0)
  {
    assert Greedy(r, 17, 0) == ([], 0);
    assert Greedy(r, 16, 0) == ([], 0);
    assert Greedy(r, 15, 0) == ([], 0);
    assert Greedy(r, 14, 0) == ([], 0);
    assert Greedy(r, 13, 0) == ([], 0);
    assert Greedy(r, 12, 0) == ([], 0);
    assert Greedy(r, 11, 0) == ([], 0);
    assert Greedy(r, 10, 0) == ([], 0);
    assert Greedy(r, 9, 0) == ([], 0);
    assert Greedy(r, 8, 0) == ([], 0);
    assert Greedy(r, 7, 0) == ([], 0);
    assert [r[6]] + [] == [r[6]];
    assert Greedy(r, 6, 30) == ([r[6]], 0);
    assert Greedy(r, 5, 30) == ([r[6]], 0);
    assert Greedy(r, 4, 30) == ([r[6]], 0);
    assert Greedy(r, 3, 30) == ([r[6]], 0);
    assert Greedy(r, 2, 30) == ([r[6]], 0);
    assert [r[1]] + [r[6]] == [r[1], r[6]];
    assert Greedy(r, 1, 1030) == ([r[1], r[6]], 0);
    assert Greedy(r, 0, 1030) == ([r[1], r[6]], 0);
  }

  /** Error code 1030: an expired battery (1000) and reverse flow (30). */
  lemma StatusBatteryReverseFlow()
    ensures Translate.Translate(ErrorFlags(), 1030) == "BATTERY_EXPIRED REVERSE_FLOW"
  {
    var r := ErrorFlags().rules;
    ErrorFlagsTriggers();
    StatusBatteryReverseFlowPass(r);
    TranslatePair(ErrorFlags(), 1030, 1, 6);
    BatteryReverseFlowText(r[1].name, r[6].name);
  }

  lemma {:induction false} MonthlyFieldLine(g: Group, n: nat)
    ensures FieldLine(MonthlyGroup(g, n)) == []
  {
    if n > 0 {
      MonthlyFieldLine(g, n - 1);
      MonthlyGroupSnoc(g, n - 1);
      FieldLineAppend(MonthlyGroup(g, n - 1), [Monthly(g, n - 1)]);
    }
  }

  lemma CommonFieldLine()
    ensures FieldLine(Common()) == ["total_energy_consumption", "total_volume", "status"]
  {
    var c := Common();
    assert FieldLine(c[2..]) == ["status"] by { assert c[2..][1..] == []; }
    assert FieldLine(c[1..]) == ["total_volume", "status"] by { assert c[1..][1..] == c[2..]; }
  }

  lemma T1BFieldLine()
    ensures FieldLine(T1B()) == []
  {
  }

  /** Only the three common fields are printed on the text line; all monthly and T1B fields are JSON only. */
  lemma TextLineFields()
    ensures FieldLine(Descriptors()) == ["total_energy_consumption", "total_volume", "status"]
  {
    CommonFieldLine();
    T1BFieldLine();
    MonthlyFieldLine(Dates, Months);
    MonthlyFieldLine(Energies, Months);
    MonthlyFieldLine(Volumes, Months);
    SilentTail(Common(), MonthlyGroup(Dates, Months), MonthlyGroup(Energies, Months), MonthlyGroup(Volumes, Months), T1B());
  }

  /** Appending descriptors that are all JSON-only leaves the text line as it was. */
  lemma SilentTail<S>(c: seq<FieldDescriptor<S>>, d: seq<FieldDescriptor<S>>, e: seq<FieldDescriptor<S>>,
                      v: seq<FieldDescriptor<S>>, b: seq<FieldDescriptor<S>>)
    requires FieldLine(d) == [] && FieldLine(e) == [] && FieldLine(v) == [] && FieldLine(b) == []
    ensures FieldLine(c + d + e + v + b) == FieldLine(c)
  {
    FieldLineAppend(c, d);
    FieldLineAppend(c + d, e);
    FieldLineAppend(c + d + e, v);
    FieldLineAppend(c + d + e + v, b);
  }

  /**
   * The last-month energy and date fields (T1B) use the selectors of the
   * first previous-month energy and date fields, so they extract the same
   * value from every telegram.
   */
  lemma LastMonthMirrorsFirstMonth(t: seq<Entry>)
    ensures T1B()[4].slot == TotalEnergyLastMonthKwh && Extract(T1B()[4], t) == Extract(Monthly(Energies, 0), t)
    ensures T1B()[5].slot == LastMonthDate && Extract(T1B()[5], t) == Extract(Monthly(Dates, 0), t)
  {
    ExtractBySelector(T1B()[4], Monthly(Energies, 0), t);
    ExtractBySelector(T1B()[5], Monthly(Dates, 0), t);
  }

  /** Two different monthly fields never take their value from the same record. */
  lemma MonthlyDisjoint(t: seq<Entry>, g: Group, i: nat, h: Group, j: nat)
    requires (g, i) != (h, j)
    ensures var p, q := Monthly(g, i).pattern, Monthly(h, j).pattern;
      Find(t, p).Some? && Find(t, q).Some? ==> Find(t, p) != Find(t, q)
  {
    assert GroupRange(g) == GroupRange(h) ==> g == h;
    DisjointSelect(t, Monthly(g, i).pattern, Monthly(h, j).pattern);
  }
}
