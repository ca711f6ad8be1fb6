/**
 * The c5isf meter object: its member fields and the three fourteen-slot
 * arrays, the constructor that registers the descriptors, and the decode
 * pass that writes the slots whose selector matched and leaves all others
 * as they were.
 */
module DriverC5isf {
  import opened Records
  import opened Registry
  import opened C5isfFields

  class MeterC5isf {
    var totalEnergyKwh: real
    var totalVolumeM3: real
    var status: string
    const prevMonthDate: array<string>
    const totalEnergyPrevMonthKwh: array<real>
    const totalVolumePrevMonthM3: array<real>
    var dueEnergyKwh: real
    var dueDate: string
    var volumeFlowM3h: real
    var powerKw: real
    var totalEnergyLastMonthKwh: real
    var lastMonthDate: string
    var maxPowerLastMonthKw: real
    var flowTemperatureC: real
    var returnTemperatureC: real

    /** The registered field descriptors, in registration order. */
    const fields: seq<FieldDescriptor<Slot>>

    ghost predicate Valid()
      reads this
    {
      prevMonthDate.Length == Months &&
      totalEnergyPrevMonthKwh.Length == Months &&
      totalVolumePrevMonthM3.Length == Months &&
      totalEnergyPrevMonthKwh != totalVolumePrevMonthM3 &&
      WellBound(fields)
    }

    /** The value a slot holds. */
    ghost function Get(s: Slot): Value
      requires Valid() && ValidSlot(s)
      reads this, prevMonthDate, totalEnergyPrevMonthKwh, totalVolumePrevMonthM3
    {
      match s
      case TotalEnergyKwh => Num(totalEnergyKwh)
      case TotalVolumeM3 => Num(totalVolumeM3)
      case StatusText => Str(status)
      case PrevMonthDate(i) => Str(prevMonthDate[i])
      case TotalEnergyPrevMonthKwh(i) => Num(totalEnergyPrevMonthKwh[i])
      case TotalVolumePrevMonthM3(i) => Num(totalVolumePrevMonthM3[i])
      case DueEnergyKwh => Num(dueEnergyKwh)
      case DueDate => Str(dueDate)
      case VolumeFlowM3h => Num(volumeFlowM3h)
      case PowerKw => Num(powerKw)
      case TotalEnergyLastMonthKwh => Num(totalEnergyLastMonthKwh)
      case LastMonthDate => Str(lastMonthDate)
      case MaxPowerLastMonthKw => Num(maxPowerLastMonthKw)
      case FlowTemperatureC => Num(flowTemperatureC)
      case ReturnTemperatureC => Num(returnTemperatureC)
    }

    /** Registers the descriptors in order; every slot starts at 0 or "". */
    constructor ()
      ensures Valid() && fields == Descriptors()
      ensures fresh(prevMonthDate) && fresh(totalEnergyPrevMonthKwh) && fresh(totalVolumePrevMonthM3)
      ensures forall s | ValidSlot(s) :: Get(s) == Initial(s)
    {
      var fs := Register();
      fields := fs;
      prevMonthDate := new string[Months](_ => "");
      totalEnergyPrevMonthKwh := new real[Months](_ => 0.0);
      totalVolumePrevMonthM3 := new real[Months](_ => 0.0);
      totalEnergyKwh, totalVolumeM3, status := 0.0, 0.0, "";
      dueEnergyKwh, dueDate, volumeFlowM3h, powerKw := 0.0, "", 0.0, 0.0;
      totalEnergyLastMonthKwh, lastMonthDate, maxPowerLastMonthKw := 0.0, "", 0.0;
      flowTemperatureC, returnTemperatureC := 0.0, 0.0;
      new;
      forall s | ValidSlot(s) ensures Get(s) == Initial(s) {
        match s
        case PrevMonthDate(i) => assert prevMonthDate[i] == "";
        case TotalEnergyPrevMonthKwh(i) => assert totalEnergyPrevMonthKwh[i] == 0.0;
        case TotalVolumePrevMonthM3(i) => assert totalVolumePrevMonthM3[i] == 0.0;
        case StatusText | DueDate | LastMonthDate => assert Initial(s) == Str("");
        case _ => assert Initial(s) == Num(0.0);
      }
    }

    /** SET_FUNC / SET_STRING_FUNC: writes one slot and nothing else. */
    method Store(s: Slot, v: Value)
      requires Valid() && ValidSlot(s) && (IsText(s) <==> v.Str?)
      modifies this, prevMonthDate, totalEnergyPrevMonthKwh, totalVolumePrevMonthM3
      ensures Valid()
      ensures Get(s) == v
      ensures forall s' | ValidSlot(s') && s' != s :: Get(s') == old(Get(s'))
    {
      match s
      case TotalEnergyKwh => totalEnergyKwh := v.x;
      case TotalVolumeM3 => totalVolumeM3 := v.x;
      case StatusText => status := v.s;
      case PrevMonthDate(i) => prevMonthDate[i] := v.s;
      case TotalEnergyPrevMonthKwh(i) => totalEnergyPrevMonthKwh[i] := v.x;
      case TotalVolumePrevMonthM3(i) => totalVolumePrevMonthM3[i] := v.x;
      case DueEnergyKwh => dueEnergyKwh := v.x;
      case DueDate => dueDate := v.s;
      case VolumeFlowM3h => volumeFlowM3h := v.x;
      case PowerKw => powerKw := v.x;
      case TotalEnergyLastMonthKwh => totalEnergyLastMonthKwh := v.x;
      case LastMonthDate => lastMonthDate := v.s;
      case MaxPowerLastMonthKw => maxPowerLastMonthKw := v.x;
      case FlowTemperatureC => flowTemperatureC := v.x;
      case ReturnTemperatureC => returnTemperatureC := v.x;
    }

    /**
     * One decode pass over a telegram's records: each descriptor, in
     * registration order, writes its slot when its selector finds a record.
     * A slot whose record is absent keeps its previous value.
     */
    method Decode(t: seq<Entry>)
      requires Valid()
      modifies this, prevMonthDate, totalEnergyPrevMonthKwh, totalVolumePrevMonthM3
      ensures Valid()
      ensures forall s | ValidSlot(s) :: Get(s) == Updated(fields, t, old(Get(s)), s)
      ensures forall s | ValidSlot(s) ::
        Get(s) == match Extract(fields[SlotIndex(s)], t) case Some(v) => v case None => old(Get(s))
    {
      var k := 0;
      while k < |fields|
        invariant 0 <= k <= |fields| && Valid()
        invariant forall s | ValidSlot(s) :: Get(s) == Updated(fields[..k], t, old(Get(s)), s)
      {
        var f := fields[k];
        var v := Extract(f, t);
        forall s | ValidSlot(s)
          ensures Updated(fields[..k + 1], t, old(Get(s)), s) ==
            if f.slot == s && v.Some? then v.value else Updated(fields[..k], t, old(Get(s)), s)
        {
          UpdatedSnoc(fields, k, t, old(Get(s)), s);
        }
        if v.Some? {
          assert BindsAt(fields[k], k);
          Store(f.slot, v.value);
        }
        k := k + 1;
      }
      assert k == |fields|;
      assert fields[..k] == fields;
      forall s | ValidSlot(s)
        ensures Updated(fields, t, old(Get(s)), s) ==
          match Extract(fields[SlotIndex(s)], t) case Some(v) => v case None => old(Get(s))
      {
        WellBoundUpdated(fields, t, old(Get(s)), s);
      }
    }
  }
}
