/**
 * Field descriptors: the declarative binding of a field name, a Quantity
 * and a selector pattern to a stored slot, with print properties. One
 * decode pass visits the descriptors in registration order; a descriptor
 * whose pattern selects a record writes the extracted value to its slot,
 * every other slot keeps what it held.
 */
module Registry {
  import opened Wrappers
  import opened Records
  import opened Selectors
  import Units
  import Values
  import Translate

  /** Which outputs list the field: JSON, the text line (FIELD) and the condensed set (IMPORTANT). */
  datatype PrintProps = PrintProps(json: bool, field: bool, important: bool)

  /** How the selected record becomes a stored value. */
  datatype Kind =
    | NumericKind(unit: Units.Unit)
    | DateKind
    | LookupKind(table: Translate.Lookup)

  datatype FieldDescriptor<S> = Field(name: string, quantity: Units.Quantity, pattern: Pattern, props: PrintProps, kind: Kind, slot: S)

  /** A stored slot value: a number in the slot's unit, or text. */
  datatype Value = Num(x: real) | Str(s: string)

  /** What a kind of field stores. */
  predicate Stores(k: Kind, v: Value)
  {
    if k.NumericKind? then v.Num? else v.Str?
  }

  /** The value a descriptor extracts from a telegram, or None when its record is absent or does not fit the kind. */
  function Extract<S>(f: FieldDescriptor<S>, t: seq<Entry>): (r: Option<Value>)
    ensures r.Some? ==> Find(t, f.pattern).Some? && Stores(f.kind, r.value)
  {
    match Find(t, f.pattern)
    case None => None
    case Some(k) =>
      var e := t[k];
      match f.kind
      case NumericKind(u) =>
        (match Values.Numeric(e)
         case Some(v) =>
           var from := RangeUnit(HeaderOf(e).value.vif.range);
           if Units.QuantityOf(from) == Units.QuantityOf(u) then Some(Num(Units.Convert(v, from, u))) else None
         case None => None)
      case DateKind =>
        (match Values.Date(e)
         case Some(s) => Some(Str(s))
         case None => None)
      case LookupKind(table) =>
        (match Values.Unsigned(e)
         case Some(n) => Some(Str(Translate.Translate(table, n)))
         case None => None)
  }

  /**
   * The value a descriptor extracts from the record k its selector finds:
   * the record's scaled number converted from the unit of its VIF range to
   * the descriptor's unit, its date text, or its code translated through
   * the descriptor's table; None when the record does not fit the kind.
   */
  lemma ExtractFound<S>(f: FieldDescriptor<S>, t: seq<Entry>, k: nat)
    requires Find(t, f.pattern) == Some(k)
    ensures k < |t| && Hit(f.pattern, t[k])
    ensures f.kind.NumericKind? && Values.Numeric(t[k]).Some? &&
            Units.QuantityOf(RangeUnit(HeaderOf(t[k]).value.vif.range)) == Units.QuantityOf(f.kind.unit) ==>
              Extract(f, t) == Some(Num(Units.Convert(Values.Numeric(t[k]).value, RangeUnit(HeaderOf(t[k]).value.vif.range), f.kind.unit)))
    ensures f.kind.DateKind? && Values.Date(t[k]).Some? ==> Extract(f, t) == Some(Str(Values.Date(t[k]).value))
    ensures f.kind.LookupKind? && Values.Unsigned(t[k]).Some? ==>
              Extract(f, t) == Some(Str(Translate.Translate(f.kind.table, Values.Unsigned(t[k]).value)))
    ensures f.kind.NumericKind? && Values.Numeric(t[k]).None? ==> Extract(f, t).None?
    ensures f.kind.DateKind? && Values.Date(t[k]).None? ==> Extract(f, t).None?
    ensures f.kind.LookupKind? && Values.Unsigned(t[k]).None? ==> Extract(f, t).None?
  {
  }

  /**
   * A descriptor is coherent when its unit is of its Quantity and, for a
   * numeric field, its selector names a VIF range of that Quantity; date and
   * status fields are text.
   */
  predicate Coherent<S>(f: FieldDescriptor<S>)
  {
    match f.kind
    case NumericKind(u) =>
      Units.QuantityOf(u) == f.quantity && f.pattern.Structural? && Units.QuantityOf(RangeUnit(f.pattern.range)) == f.quantity
    case DateKind => f.quantity == Units.Text
    case LookupKind(_) => f.quantity == Units.Text
  }

  /**
   * A coherent numeric descriptor never loses a found integer record to a
   * unit mismatch: it stores the record's value converted to its unit.
   */
  lemma ExtractCoherent<S>(f: FieldDescriptor<S>, t: seq<Entry>, k: nat)
    requires Coherent(f) && f.kind.NumericKind? && Find(t, f.pattern) == Some(k)
    requires Values.Numeric(t[k]).Some?
    ensures Extract(f, t) == Some(Num(Units.Convert(Values.Numeric(t[k]).value, RangeUnit(f.pattern.range), f.kind.unit)))
  {
    ExtractFound(f, t, k);
  }

  /** What a descriptor extracts depends only on its selector and its kind, not on its name or slot. */
  lemma ExtractBySelector<S>(f: FieldDescriptor<S>, g: FieldDescriptor<S>, t: seq<Entry>)
    requires f.pattern == g.pattern && f.kind == g.kind
    ensures Extract(f, t) == Extract(g, t)
  {
  }

  /**
   * The value of slot s after one pass over the descriptors fs, when it held
   * `prev` before: the value of the last descriptor for s whose extraction
   * succeeded, else `prev`.
   */
  function Updated<S(==)>(fs: seq<FieldDescriptor<S>>, t: seq<Entry>, prev: Value, s: S): (v: Value)
    ensures (forall i :: 0 <= i < |fs| && fs[i].slot == s ==> Extract(fs[i], t).None?) ==> v == prev
    ensures v == prev || exists i :: 0 <= i < |fs| && fs[i].slot == s && Extract(fs[i], t) == Some(v)
  {
    if fs == [] then prev
    else
      var n := |fs| - 1;
      var f := fs[n];
      var init := fs[..n];
      var before := Updated(init, t, prev, s);
      var set_ := f.slot == s && Extract(f, t).Some?;
      var v := if set_ then Extract(f, t).value else before;
      assert (forall i :: 0 <= i < |fs| && fs[i].slot == s ==> Extract(fs[i], t).None?) ==> v == prev by {
        if forall i :: 0 <= i < |fs| && fs[i].slot == s ==> Extract(fs[i], t).None? {
          forall i | 0 <= i < n && init[i].slot == s ensures Extract(init[i], t).None? {
            assert init[i] == fs[i];
          }
        }
      }
      assert v != prev ==> exists i :: 0 <= i < |fs| && fs[i].slot == s && Extract(fs[i], t) == Some(v) by {
        if v != prev {
          if set_ {
            assert fs[n].slot == s && Extract(fs[n], t) == Some(v);
          } else {
            var w :| 0 <= w < n && init[w].slot == s && Extract(init[w], t) == Some(before);
            assert fs[w] == init[w];
          }
        }
      }
      v
  }

  /**
   * The last descriptor for s whose extraction succeeds decides the value:
   * later descriptors for s that find nothing leave it in place.
   */
  lemma UpdatedLast<S>(fs: seq<FieldDescriptor<S>>, t: seq<Entry>, prev: Value, s: S, i: nat)
    requires i < |fs| && fs[i].slot == s && Extract(fs[i], t).Some?
    requires forall j :: i < j < |fs| && fs[j].slot == s ==> Extract(fs[j], t).None?
    ensures Updated(fs, t, prev, s) == Extract(fs[i], t).value
  {
    UpdatedLastPrefix(fs, t, prev, s, i, |fs|);
    assert fs[..|fs|] == fs;
  }

  /** The same, for the prefix fs[..k] that ends after descriptor i. */
  lemma {:induction false} UpdatedLastPrefix<S>(fs: seq<FieldDescriptor<S>>, t: seq<Entry>, prev: Value, s: S, i: nat, k: nat)
    requires i < k <= |fs| && fs[i].slot == s && Extract(fs[i], t).Some?
    requires forall j :: i < j < k && fs[j].slot == s ==> Extract(fs[j], t).None?
    ensures Updated(fs[..k], t, prev, s) == Extract(fs[i], t).value
    decreases k
  {
    UpdatedSnoc(fs, k - 1, t, prev, s);
    if k - 1 > i {
      UpdatedLastPrefix(fs, t, prev, s, i, k - 1);
      assert !(fs[k - 1].slot == s && Extract(fs[k - 1], t).Some?);
    }
  }

  /** One more descriptor: it overwrites slot s when it names s and extracts a value. */
  lemma UpdatedSnoc<S>(fs: seq<FieldDescriptor<S>>, k: nat, t: seq<Entry>, prev: Value, s: S)
    requires k < |fs|
    ensures Updated(fs[..k + 1], t, prev, s) ==
      if fs[k].slot == s && Extract(fs[k], t).Some? then Extract(fs[k], t).value else Updated(fs[..k], t, prev, s)
  {
    assert fs[..k + 1][..k] == fs[..k];
  }

  /** A slot no descriptor names keeps its value. */
  lemma {:induction false} UpdatedUnnamed<S>(fs: seq<FieldDescriptor<S>>, t: seq<Entry>, prev: Value, s: S)
    requires forall i :: 0 <= i < |fs| ==> fs[i].slot != s
    ensures Updated(fs, t, prev, s) == prev
  {
    if fs != [] {
      UpdatedUnnamed(fs[..|fs| - 1], t, prev, s);
    }
  }

  /**
   * A slot named by exactly one descriptor f takes f's extracted value when
   * f's record is present and keeps its previous value otherwise.
   */
  lemma {:induction false} UpdatedSingle<S>(fs: seq<FieldDescriptor<S>>, t: seq<Entry>, prev: Value, k: nat)
    requires k < |fs|
    requires forall i :: 0 <= i < |fs| && i != k ==> fs[i].slot != fs[k].slot
    ensures Updated(fs, t, prev, fs[k].slot) == match Extract(fs[k], t) case Some(v) => v case None => prev
  {
    var s := fs[k].slot;
    var init := fs[..|fs| - 1];
    if k == |fs| - 1 {
      UpdatedUnnamed(init, t, prev, s);
    } else {
      assert init[k] == fs[k];
      UpdatedSingle(init, t, prev, k);
    }
  }

  /** The names of the descriptors listed on the text line (FIELD), in registration order. */
  function FieldLine<S>(fs: seq<FieldDescriptor<S>>): (names: seq<string>)
    ensures |names| <= |fs|
    ensures forall i :: 0 <= i < |fs| && fs[i].props.field ==> fs[i].name in names
  {
    if fs == [] then []
    else
      var rest := FieldLine(fs[1..]);
      var names := (if fs[0].props.field then [fs[0].name] else []) + rest;
      assert forall i :: 0 <= i < |fs| && fs[i].props.field ==> fs[i].name in names by {
        forall i | 0 <= i < |fs| && fs[i].props.field ensures fs[i].name in names {
          if i > 0 {
            assert fs[1..][i - 1] == fs[i];
          }
        }
      }
      names
  }

  /** Every name on the text line is the name of a descriptor marked FIELD. */
  lemma {:induction false} FieldLineNames<S>(fs: seq<FieldDescriptor<S>>)
    ensures forall k :: 0 <= k < |FieldLine(fs)| ==>
      exists i :: 0 <= i < |fs| && fs[i].props.field && fs[i].name == FieldLine(fs)[k]
  {
    if fs != [] {
      FieldLineNames(fs[1..]);
      var rest := FieldLine(fs[1..]);
      var head := if fs[0].props.field then [fs[0].name] else [];
      var names := FieldLine(fs);
      assert names == head + rest;
      forall k | 0 <= k < |FieldLine(fs)| ensures exists i :: 0 <= i < |fs| && fs[i].props.field && fs[i].name == FieldLine(fs)[k] {
        if k < |head| {
          assert fs[0].props.field && fs[0].name == names[k];
        } else {
          assert names[k] == rest[k - |head|];
          var i :| 0 <= i < |fs[1..]| && fs[1..][i].props.field && fs[1..][i].name == rest[k - |head|];
          assert fs[i + 1] == fs[1..][i];
        }
      }
    } else {
      assert FieldLine(fs) == [];
    }
  }

  lemma {:induction false} FieldLineAppend<S>(a: seq<FieldDescriptor<S>>, b: seq<FieldDescriptor<S>>)
    ensures FieldLine(a + b) == FieldLine(a) + FieldLine(b)
  {
    if a == [] {
      assert a + b == b;
    } else {
      var c := a + b;
      assert c[0] == a[0];
      assert c[1..] == a[1..] + b;
      FieldLineAppend(a[1..], b);
      assert FieldLine(c) == (if a[0].props.field then [a[0].name] else []) + FieldLine(a[1..] + b);
    }
  }
}
