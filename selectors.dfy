/**
 * Selector patterns and the lookup of the record a pattern selects in one
 * telegram. A pattern is either a literal DIF/VIF byte key, or a structural
 * tuple (MeasurementType, VIFRange, StorageNr, TariffNr, IndexNr) where
 * IndexNr n picks the n-th record matching the other four components. A
 * lookup that finds nothing returns None: the field is not in this
 * telegram variant.
 */
module Selectors {
  import opened Wrappers
  import opened Records

  /** Index numbers count matching records from 1. */
  type IndexNr = i: nat | i >= 1 witness 1

  datatype Pattern =
    | Literal(key: seq<byte>)
    | Structural(mtype: MeasurementType, range: VifRange, storage: nat, tariff: nat, index: IndexNr)

  /**
   * Whether a record matches a pattern: a literal key compares the record's
   * DIF/VIF bytes; a structural pattern needs a decodable header whose
   * measurement type, VIF range, storage and tariff numbers are the pattern's.
   */
  predicate Hit(p: Pattern, e: Entry)
    ensures p.Literal? ==> (Hit(p, e) <==> e.Key() == p.key)
    ensures p.Structural? && Hit(p, e) ==>
      HeaderOf(e).Some? && HeaderOf(e).value.dib.mtype == p.mtype && HeaderOf(e).value.vif.range == p.range &&
      HeaderOf(e).value.dib.storage == p.storage && HeaderOf(e).value.dib.tariff == p.tariff
    ensures p.Structural? && HeaderOf(e).None? ==> !Hit(p, e)
  {
    match p
    case Literal(key) => e.Key() == key
    case Structural(m, r, s, t, _) =>
      match HeaderOf(e)
      case Some(h) => h.dib.mtype == m && h.vif.range == r && h.dib.storage == s && h.dib.tariff == t
      case None => false
  }

  /** Which matching record a pattern takes: a literal key takes the first. */
  function Occurrence(p: Pattern): IndexNr
  {
    if p.Literal? then 1 else p.index
  }

  /** The number of records in t[lo..hi] the pattern matches. */
  function Count(t: seq<Entry>, p: Pattern, lo: nat, hi: nat): nat
    requires lo <= hi <= |t|
    decreases hi - lo
  {
    if lo == hi then 0 else (if Hit(p, t[lo]) then 1 else 0) + Count(t, p, lo + 1, hi)
  }

  /** The position of the n-th record from `from` on that the pattern matches. */
  function Scan(t: seq<Entry>, p: Pattern, from: nat, n: IndexNr): (r: Option<nat>)
    requires from <= |t|
    ensures r.Some? ==> from <= r.value < |t| && Hit(p, t[r.value]) && Count(t, p, from, r.value) == n - 1
    ensures r.None? ==> Count(t, p, from, |t|) < n
    decreases |t| - from
  {
    if from == |t| then None
    else if Hit(p, t[from]) then
      if n == 1 then Some(from) else Scan(t, p, from + 1, n - 1)
    else Scan(t, p, from + 1, n)
  }

  /** The position of the record the pattern selects in the telegram. */
  function Find(t: seq<Entry>, p: Pattern): (r: Option<nat>)
    ensures r.Some? ==> r.value < |t| && Hit(p, t[r.value]) && Count(t, p, 0, r.value) == Occurrence(p) - 1
    ensures r.None? ==> Count(t, p, 0, |t|) < Occurrence(p)
  {
    Scan(t, p, 0, Occurrence(p))
  }

  lemma {:induction false} ScanExact(t: seq<Entry>, p: Pattern, from: nat, n: IndexNr, k: nat)
    requires from <= k < |t| && Hit(p, t[k]) && Count(t, p, from, k) == n - 1
    ensures Scan(t, p, from, n) == Some(k)
    decreases k - from
  {
    if from < k {
      if Hit(p, t[from]) {
        ScanExact(t, p, from + 1, n - 1, k);
      } else {
        ScanExact(t, p, from + 1, n, k);
      }
    }
  }

  /** The selected record is exactly the n-th match: the lookup is determined by the telegram. */
  lemma FindSpec(t: seq<Entry>, p: Pattern, k: nat)
    ensures Find(t, p) == Some(k) <==> k < |t| && Hit(p, t[k]) && Count(t, p, 0, k) == Occurrence(p) - 1
    ensures Find(t, p) == None <==> Count(t, p, 0, |t|) < Occurrence(p)
  {
    if k < |t| && Hit(p, t[k]) && Count(t, p, 0, k) == Occurrence(p) - 1 {
      ScanExact(t, p, 0, Occurrence(p), k);
    }
    var r := Find(t, p);
    if r.Some? {
      CountMonotone(t, p, 0, r.value, |t|);
    }
  }

  lemma {:induction false} CountMonotone(t: seq<Entry>, p: Pattern, lo: nat, mid: nat, hi: nat)
    requires lo <= mid < hi <= |t| && Hit(p, t[mid])
    ensures Count(t, p, lo, hi) > Count(t, p, lo, mid)
    decreases mid - lo
  {
    if lo < mid {
      CountMonotone(t, p, lo + 1, mid, hi);
    }
  }

  /** No match in t[lo..hi] is a count of zero. */
  lemma {:induction false} CountZero(t: seq<Entry>, p: Pattern, lo: nat, hi: nat)
    requires lo <= hi <= |t|
    ensures Count(t, p, lo, hi) == 0 <==> forall j :: lo <= j < hi ==> !Hit(p, t[j])
    decreases hi - lo
  {
    if lo < hi {
      CountZero(t, p, lo + 1, hi);
    }
  }

  /** A first-match pattern selects the first record it matches, or nothing when none matches. */
  lemma FindFirst(t: seq<Entry>, p: Pattern, k: nat)
    requires Occurrence(p) == 1
    ensures k < |t| && Hit(p, t[k]) && (forall j :: 0 <= j < k ==> !Hit(p, t[j])) ==> Find(t, p) == Some(k)
    ensures (forall j :: 0 <= j < |t| ==> !Hit(p, t[j])) ==> Find(t, p) == None
  {
    FindSpec(t, p, k);
    if k < |t| {
      CountZero(t, p, 0, k);
    }
    CountZero(t, p, 0, |t|);
  }

  /**
   * Two structural patterns that differ in MeasurementType, VIFRange,
   * StorageNr or TariffNr never select the same record.
   */
  lemma DisjointSelect(t: seq<Entry>, p: Pattern, q: Pattern)
    requires p.Structural? && q.Structural?
    requires (p.mtype, p.range, p.storage, p.tariff) != (q.mtype, q.range, q.storage, q.tariff)
    ensures Find(t, p).Some? && Find(t, q).Some? ==> Find(t, p) != Find(t, q)
  {
  }
}
