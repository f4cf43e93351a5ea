/**
 * The German unit roster used by the setup phase: the full-strength side
 * of every German corps, in roster order.
 */
module UnitData {
  datatype Faction = German | Soviet
  datatype UnitType = Infantry | Armor
  datatype UnitSide = Full | Reduced

  datatype Unit = Unit(id: string, unitType: UnitType, side: UnitSide, strength: nat, movement: nat, faction: Faction)

  /** The full-strength German units, in the order the roster lists them. */
  const FULL_GERMAN_UNITS: seq<Unit> := [
    Unit("XLVI", Armor, Full, 10, 6, German),
    Unit("XXIV", Armor, Full, 12, 6, German),
    Unit("XLI", Armor, Full, 12, 6, German),
    Unit("LVII", Armor, Full, 12, 6, German),
    Unit("XXII", Infantry, Full, 8, 4, German),
    Unit("XXXV", Infantry, Full, 8, 4, German),
    Unit("XL", Armor, Full, 8, 6, German),
    Unit("XLVIII", Armor, Full, 8, 6, German),
    Unit("XLVII", Armor, Full, 9, 6, German),
    Unit("LVI", Armor, Full, 9, 6, German),
    Unit("XX", Infantry, Full, 6, 4, German),
    Unit("XXVII", Infantry, Full, 6, 4, German),
    Unit("LIII", Infantry, Full, 6, 4, German),
    Unit("VII", Infantry, Full, 7, 4, German),
    Unit("VIII", Infantry, Full, 7, 4, German),
    Unit("IX", Infantry, Full, 7, 4, German),
    Unit("XXXIV", Infantry, Full, 4, 4, German),
    Unit("XLII", Infantry, Full, 4, 4, German),
    Unit("VI", Infantry, Full, 5, 4, German),
    Unit("XII", Infantry, Full, 5, 4, German),
    Unit("V", Infantry, Full, 6, 4, German),
    Unit("XIII", Infantry, Full, 6, 4, German)
  ]

  /** No two units of `units` share an id. */
  predicate DistinctIds(units: seq<Unit>) {
    forall i, j :: 0 <= i < j < |units| ==> units[i].id != units[j].id
  }

  /** The roster has 22 full-strength German units. */
  lemma FullRosterShape()
    ensures |FULL_GERMAN_UNITS| == 22
    ensures forall i :: 0 <= i < |FULL_GERMAN_UNITS| ==> FULL_GERMAN_UNITS[i].side == Full && FULL_GERMAN_UNITS[i].faction == German
  {
  }

  /** The roster's ids, in roster order. */
  const FULL_GERMAN_IDS: seq<string> := ["XLVI", "XXIV", "XLI", "LVII", "XXII", "XXXV", "XL", "XLVIII", "XLVII", "LVI", "XX", "XXVII", "LIII", "VII", "VIII", "IX", "XXXIV", "XLII", "VI", "XII", "V", "XIII"]

  /** Ids at positions `lo <= i < j < hi` differ. */
  predicate IdsDifferIn(ids: seq<string>, lo: int, hi: int)
    requires 0 <= lo <= hi <= |ids|
  {
    forall i, j :: lo <= i < j < hi ==> ids[i] != ids[j]
  }

  lemma IdsDifferFront()
    ensures IdsDifferIn(FULL_GERMAN_IDS, 0, 11)
  {
    forall i, j | 0 <= i < j < 11 ensures FULL_GERMAN_IDS[i] != FULL_GERMAN_IDS[j] {
      assert |FULL_GERMAN_IDS[i]| != |FULL_GERMAN_IDS[j]| || FULL_GERMAN_IDS[i][0] != FULL_GERMAN_IDS[j][0] || FULL_GERMAN_IDS[i] != FULL_GERMAN_IDS[j];
    }
  }

  lemma IdsDifferBack()
    ensures IdsDifferIn(FULL_GERMAN_IDS, 11, 22)
  {
    forall i, j | 11 <= i < j < 22 ensures FULL_GERMAN_IDS[i] != FULL_GERMAN_IDS[j] {
      assert |FULL_GERMAN_IDS[i]| != |FULL_GERMAN_IDS[j]| || FULL_GERMAN_IDS[i][0] != FULL_GERMAN_IDS[j][0] || FULL_GERMAN_IDS[i] != FULL_GERMAN_IDS[j];
    }
  }

  lemma IdsDifferAcross()
    ensures forall i, j :: 0 <= i < 11 <= j < 22 ==> FULL_GERMAN_IDS[i] != FULL_GERMAN_IDS[j]
  {
    forall i, j | 0 <= i < 11 <= j < 22 ensures FULL_GERMAN_IDS[i] != FULL_GERMAN_IDS[j] {
      assert |FULL_GERMAN_IDS[i]| != |FULL_GERMAN_IDS[j]| || FULL_GERMAN_IDS[i][0] != FULL_GERMAN_IDS[j][0] || FULL_GERMAN_IDS[i] != FULL_GERMAN_IDS[j];
    }
  }

  /** No two full-strength German units share an id. */
  lemma FullRosterDistinct()
    ensures DistinctIds(FULL_GERMAN_UNITS)
  {
    IdsDifferFront();
    IdsDifferBack();
    IdsDifferAcross();
    assert forall i :: 0 <= i < |FULL_GERMAN_UNITS| ==> FULL_GERMAN_UNITS[i].id == FULL_GERMAN_IDS[i];
  }
}
