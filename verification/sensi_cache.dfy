/** The cache of exact sensitivity snapshots kept by SensitivityInterpolation: for every time, for
    every risk class, a list of (curve name, sensitivities) entries. A lookup takes the first entry
    of the requested curve. */
module SensiCache {
  import opened Wrappers
  import opened Buckets

  type CurveName = string

  const Libor6m: CurveName := "Libor6m"

  datatype Entry = Entry(curve: CurveName, sensis: seq<real>)

  type SensiMap = map<real, map<RiskClass, seq<Entry>>>

  predicate HasCurve(list: seq<Entry>, curve: CurveName) {
    exists i :: 0 <= i < |list| && list[i].curve == curve
  }

  /** isEmptyMap: no time, no risk class under it, or no entry for the curve. */
  predicate IsEmptyMap(m: SensiMap, time: real, rc: RiskClass, curve: CurveName): (r: bool)
    ensures !r <==> time in m && rc in m[time] && FirstOf(m[time][rc], curve).Some?
  {
    time !in m || rc !in m[time] || !HasCurve(m[time][rc], curve)
  }

  /** The time or the risk class is absent: the condition under which interpolation refills an anchor. */
  predicate Missing(m: SensiMap, time: real, rc: RiskClass) {
    time !in m || rc !in m[time]
  }

  /** The first entry of the curve in the list (filter, then findFirst). */
  function FirstOf(list: seq<Entry>, curve: CurveName): (r: Option<seq<real>>)
    ensures r.Some? <==> HasCurve(list, curve)
    ensures r.Some? ==> exists i :: (0 <= i < |list| && list[i] == Entry(curve, r.value)
                                     && forall j :: 0 <= j < i ==> list[j].curve != curve)
  {
    if |list| == 0 then None
    else if list[0].curve == curve then Some(list[0].sensis)
    else
      var r := FirstOf(list[1..], curve);
      assert HasCurve(list, curve) ==> HasCurve(list[1..], curve) by {
        if HasCurve(list, curve) {
          var i :| 0 <= i < |list| && list[i].curve == curve;
          assert list[1..][i - 1] == list[i];
        }
      }
      assert r.Some? ==> exists i :: (0 <= i < |list| && list[i] == Entry(curve, r.value)
                                      && forall j :: 0 <= j < i ==> list[j].curve != curve) by {
        if r.Some? {
          var i :| 0 <= i < |list[1..]| && list[1..][i] == Entry(curve, r.value)
            && forall j :: 0 <= j < i ==> list[1..][j].curve != curve;
          assert list[i + 1] == Entry(curve, r.value);
          assert forall j :: 0 <= j < i + 1 ==> list[j].curve != curve by {
            forall j | 0 <= j < i + 1
              ensures list[j].curve != curve
            {
              if j > 0 {
                assert list[j] == list[1..][j - 1];
              }
            }
          }
        }
      }
      r
  }

  /** sensiMap.get(time).get(rc) ... findFirst().get(): a missing time or risk class dereferences
      null, a missing curve finds no element. */
  function Lookup(m: SensiMap, time: real, rc: RiskClass, curve: CurveName): (r: Result<seq<real>>)
    ensures r.Ok? <==> !IsEmptyMap(m, time, rc, curve)
    ensures Missing(m, time, rc) ==> r == Err(NullPointer)
    ensures !Missing(m, time, rc) && r.Err? ==> r.error == NoSuchElement
  {
    if time !in m || rc !in m[time] then Err(NullPointer)
    else match FirstOf(m[time][rc], curve)
      case None => Err(NoSuchElement)
      case Some(s) => Ok(s)
  }

  /** The insertion of setMap: appended to the list when the time and the risk class are present,
      otherwise the whole per-time map is replaced by a map holding only this risk class. */
  function Store(m: SensiMap, time: real, rc: RiskClass, curve: CurveName, sensis: seq<real>): (r: SensiMap)
    ensures !IsEmptyMap(r, time, rc, curve)
    ensures r.Keys == m.Keys + {time}
    ensures forall t :: t in m && t != time ==> r[t] == m[t]
    ensures !Missing(m, time, rc) ==> (r[time].Keys == m[time].Keys
                                       && forall c :: c in m[time] && c != rc ==> r[time][c] == m[time][c])
    ensures Missing(m, time, rc) ==> r[time].Keys == {rc}
  {
    var e := Entry(curve, sensis);
    if time in m && rc in m[time] then
      var list := m[time][rc] + [e];
      assert list[|list| - 1] == e;
      m[time := m[time][rc := list]]
    else
      assert [e][0] == e;
      m[time := map[rc := [e]]]
  }

  /** Storing into an empty slot makes the lookup return exactly what was stored. */
  lemma StoreThenLookup(m: SensiMap, time: real, rc: RiskClass, curve: CurveName, sensis: seq<real>)
    requires IsEmptyMap(m, time, rc, curve)
    ensures Lookup(Store(m, time, rc, curve, sensis), time, rc, curve) == Ok(sensis)
  {
    var r := Store(m, time, rc, curve, sensis);
    var list := r[time][rc];
    if !Missing(m, time, rc) {
      assert list == m[time][rc] + [Entry(curve, sensis)];
      FirstOfAppendNew(m[time][rc], curve, sensis);
    } else {
      assert list == [Entry(curve, sensis)];
    }
  }

  lemma {:induction false} FirstOfAppendNew(list: seq<Entry>, curve: CurveName, sensis: seq<real>)
    requires !HasCurve(list, curve)
    ensures FirstOf(list + [Entry(curve, sensis)], curve) == Some(sensis)
  {
    if |list| > 0 {
      assert (list + [Entry(curve, sensis)])[1..] == list[1..] + [Entry(curve, sensis)];
      assert forall i :: 0 <= i < |list[1..]| ==> list[1..][i] == list[i + 1];
      assert list[0].curve != curve;
      FirstOfAppendNew(list[1..], curve, sensis);
    }
  }

  lemma {:induction false} FirstOfAppendOld(list: seq<Entry>, curve: CurveName, e: Entry)
    requires HasCurve(list, curve)
    ensures FirstOf(list + [e], curve) == FirstOf(list, curve)
  {
    if list[0].curve != curve {
      assert (list + [e])[1..] == list[1..] + [e];
      assert HasCurve(list[1..], curve) by {
        var i :| 0 <= i < |list| && list[i].curve == curve;
        assert list[1..][i - 1] == list[i];
      }
      FirstOfAppendOld(list[1..], curve, e);
    }
  }

  /** Storing a curve that is already cached appends a duplicate that the lookup never sees. */
  lemma StoreAgainIsShadowed(m: SensiMap, time: real, rc: RiskClass, curve: CurveName, sensis: seq<real>)
    requires !IsEmptyMap(m, time, rc, curve)
    ensures Lookup(Store(m, time, rc, curve, sensis), time, rc, curve) == Lookup(m, time, rc, curve)
  {
    FirstOfAppendOld(m[time][rc], curve, Entry(curve, sensis));
  }

  /** A store for another curve of the same time and risk class keeps what is cached. */
  lemma StoreKeepsSameSlot(m: SensiMap, time: real, rc: RiskClass, curve: CurveName, other: CurveName, sensis: seq<real>)
    requires !IsEmptyMap(m, time, rc, curve)
    ensures Lookup(Store(m, time, rc, other, sensis), time, rc, curve) == Lookup(m, time, rc, curve)
  {
    FirstOfAppendOld(m[time][rc], curve, Entry(other, sensis));
  }

  /** A store into a time that holds other risk classes but not this one drops them. */
  lemma StoreDropsOtherRiskClasses(m: SensiMap, time: real, rc: RiskClass, other: RiskClass, curve: CurveName, c: CurveName, sensis: seq<real>)
    requires time in m && rc !in m[time] && other != rc
    ensures IsEmptyMap(Store(m, time, rc, curve, sensis), time, other, c)
  {
  }
}
