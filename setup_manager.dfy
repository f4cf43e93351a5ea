/**
 * The German setup phase: the panel of units still to place, the units
 * placed on the German starting hexes, the selected unit, and the hand-over
 * of the finished placement to the unit registry.
 */
module SetupManager {
  import opened Wrappers
  import opened HexUtils
  import opened UnitData
  import opened MapData
  import UM = UnitManager

  /** Setup is complete once this many units stand on the map. */
  const SETUP_UNIT_COUNT := 22

  // ---------------------------------------------------------------------
  // Roster lookups

  /** `findIndex` by id: the first position of a unit with id `id`, or -1. */
  function IndexOfId(units: seq<Unit>, id: string): (k: int)
    ensures -1 <= k < |units|
    ensures k >= 0 ==> units[k].id == id
  {
    if units == [] then -1
    else if units[0].id == id then 0
    else
      var k := IndexOfId(units[1..], id);
      if k < 0 then -1 else k + 1
  }

  /** The position found is the first with that id, and -1 means there is none. */
  lemma {:induction false} IndexOfIdFirst(units: seq<Unit>, id: string)
    ensures var k := IndexOfId(units, id);
            && (forall j :: 0 <= j < k ==> units[j].id != id)
            && (k == -1 <==> forall j :: 0 <= j < |units| ==> units[j].id != id)
  {
    if units != [] && units[0].id != id {
      IndexOfIdFirst(units[1..], id);
      assert forall j :: 1 <= j < |units| ==> units[j] == units[1..][j - 1];
    }
  }

  /** In a roster without repeated ids, each unit is found at its own position. */
  lemma IndexOfIdDistinct(units: seq<Unit>, i: int)
    requires DistinctIds(units) && 0 <= i < |units|
    ensures IndexOfId(units, units[i].id) == i
  {
    IndexOfIdFirst(units, units[i].id);
  }

  /** The ids of `units`, as a set. */
  function IdsOf(units: seq<Unit>): set<string> {
    set i | 0 <= i < |units| :: units[i].id
  }

  /** A roster without repeated ids has as many ids as units. */
  lemma {:induction false} IdsOfCount(units: seq<Unit>)
    requires DistinctIds(units)
    ensures |IdsOf(units)| == |units|
  {
    if units != [] {
      var front := units[..|units| - 1];
      var last := units[|units| - 1];
      IdsOfCount(front);
      assert IdsOf(units) == IdsOf(front) + {last.id} by {
        forall x | x in IdsOf(units) ensures x in IdsOf(front) + {last.id} {
          var i :| 0 <= i < |units| && units[i].id == x;
          if i < |front| {
            assert front[i].id == x;
          }
        }
        forall x | x in IdsOf(front) ensures x in IdsOf(units) {
          var i :| 0 <= i < |front| && front[i].id == x;
          assert units[i].id == x;
        }
      }
      assert last.id !in IdsOf(front);
    }
  }

  /** The ids of `units`, in order (the ids the panel lists). */
  function IdSeq(units: seq<Unit>): (r: seq<string>)
    ensures |r| == |units| && forall i :: 0 <= i < |units| ==> r[i] == units[i].id
  {
    if units == [] then [] else IdSeq(units[..|units| - 1]) + [units[|units| - 1].id]
  }

  /** The units of `units` whose id is in `available`, in order. */
  function AvailableUnits(units: seq<Unit>, available: set<string>): (r: seq<Unit>)
    ensures forall u :: u in r <==> u in units && u.id in available
    ensures DistinctIds(units) ==> DistinctIds(r)
  {
    if units == [] then []
    else
      var rest := AvailableUnits(units[..|units| - 1], available);
      var last := units[|units| - 1];
      assert forall u :: u in units <==> u in units[..|units| - 1] || u == last by {
        assert units == units[..|units| - 1] + [last];
      }
      if last.id in available then
        assert DistinctIds(units) ==> forall u :: u in rest ==> u.id != last.id by {
          if DistinctIds(units) {
            forall u | u in rest ensures u.id != last.id {
              var i :| 0 <= i < |units| - 1 && units[i] == u;
            }
          }
        }
        rest + [last]
      else rest
  }

  /** No hex occurs twice in `hexes`. */
  predicate DistinctHexes(hexes: seq<HexId>) {
    forall i, j :: 0 <= i < j < |hexes| ==> hexes[i] != hexes[j]
  }

  /** The hexes of `hexes` not occupied in `placed`, in order. */
  function FreeHexes(hexes: seq<HexId>, placed: map<HexId, Unit>): (r: seq<HexId>)
    ensures forall h :: h in r <==> h in hexes && h !in placed
    ensures DistinctHexes(hexes) ==> DistinctHexes(r)
  {
    if hexes == [] then []
    else
      var rest := FreeHexes(hexes[..|hexes| - 1], placed);
      var last := hexes[|hexes| - 1];
      assert forall h :: h in hexes <==> h in hexes[..|hexes| - 1] || h == last by {
        assert hexes == hexes[..|hexes| - 1] + [last];
      }
      if last !in placed then rest + [last] else rest
  }

  /** No two German starting hexes are the same hex. */
  lemma GermanStartHexesDistinct()
    ensures DistinctHexes(START_HEXES_GERMAN)
  {
    var s := START_HEXES_GERMAN;
    forall i, j | 0 <= i < j < |s| ensures s[i] != s[j] {
      assert 100 * s[i].col + s[i].row < 100 * s[j].col + s[j].row;
    }
  }

  // ---------------------------------------------------------------------
  // The next unit to select after a placement

  /** The first position in `[lo, hi)` holding an available unit, or -1. */
  function FirstAvailable(units: seq<Unit>, available: set<string>, lo: int, hi: int): (k: int)
    requires 0 <= lo && hi <= |units|
    ensures k == -1 || lo <= k < hi
    ensures k >= 0 ==> units[k].id in available && forall j :: lo <= j < k ==> units[j].id !in available
    ensures k == -1 ==> forall j :: lo <= j < hi ==> units[j].id !in available
    decreases hi - lo
  {
    if lo >= hi then -1
    else if units[lo].id in available then lo
    else FirstAvailable(units, available, lo + 1, hi)
  }

  /**
   * How far `j` lies in a search that starts just after `from` and wraps
   * around from the end of a roster of `n` units to its start.
   */
  function SearchDistance(from: int, j: int, n: int): int {
    if j > from then j - from - 1 else j - from - 1 + n
  }

  /**
   * The roster position of the unit selected after placing the unit at
   * `current`: the first available one after it, else the first available
   * one before it, else -1.
   */
  function NextIndex(units: seq<Unit>, available: set<string>, current: int): (r: int)
    requires -1 <= current < |units|
    ensures -1 <= r < |units|
    ensures r >= 0 ==> r != current
    ensures r >= 0 ==> units[r].id in available
    ensures r >= 0 ==> forall j :: 0 <= j < |units| && j != current && units[j].id in available ==>
                         SearchDistance(current, r, |units|) <= SearchDistance(current, j, |units|)
    ensures r == -1 <==> forall j :: 0 <= j < |units| && j != current ==> units[j].id !in available
  {
    var forward := FirstAvailable(units, available, current + 1, |units|);
    if forward >= 0 then forward
    else FirstAvailable(units, available, 0, current)
  }

  // ---------------------------------------------------------------------
  // The panel: ids of the units still to place, in roster order. The
  // lemmas are stated for any `rank`; the panel ranks ids by roster position.

  /** Ranks an id by its position in `units` (-1 when it is not there). */
  function RosterRank(units: seq<Unit>): string -> int {
    id => IndexOfId(units, id)
  }

  /** Every entry has a rank and the entries are in strictly increasing rank. */
  predicate SortedBy(rank: string -> int, panel: seq<string>) {
    && (forall i :: 0 <= i < |panel| ==> rank(panel[i]) >= 0)
    && (forall i, j :: 0 <= i < j < |panel| ==> rank(panel[i]) < rank(panel[j]))
  }

  /** Where an entry of rank `r` goes: before the first entry of higher rank, else at the end. */
  function InsertPos(rank: string -> int, panel: seq<string>, r: int): (p: int)
    ensures 0 <= p <= |panel|
    ensures forall j :: 0 <= j < p ==> rank(panel[j]) <= r
    ensures p < |panel| ==> r < rank(panel[p])
  {
    if panel == [] then 0
    else if r < rank(panel[0]) then 0
    else 1 + InsertPos(rank, panel[1..], r)
  }

  /** The panel with `id` inserted at its place in rank order. */
  function InsertOrdered(rank: string -> int, panel: seq<string>, id: string): seq<string> {
    var p := InsertPos(rank, panel, rank(id));
    panel[..p] + [id] + panel[p..]
  }

  /** The first position of `id` in the panel, or -1. */
  function PanelIndex(panel: seq<string>, id: string): (k: int)
    ensures -1 <= k < |panel|
    ensures k >= 0 ==> panel[k] == id && forall j :: 0 <= j < k ==> panel[j] != id
    ensures k == -1 <==> id !in panel
  {
    if panel == [] then -1
    else if panel[0] == id then 0
    else
      var k := PanelIndex(panel[1..], id);
      if k < 0 then -1 else k + 1
  }

  /** The panel without its first entry for `id` (an absent id changes nothing). */
  function RemoveFirst(panel: seq<string>, id: string): (r: seq<string>)
    ensures |r| == if id in panel then |panel| - 1 else |panel|
  {
    var k := PanelIndex(panel, id);
    if k < 0 then panel else panel[..k] + panel[k + 1..]
  }

  /** Removing takes away one occurrence of `id` and nothing else. */
  lemma RemoveTakesOne(panel: seq<string>, id: string)
    ensures multiset(RemoveFirst(panel, id)) == multiset(panel) - multiset{id}
  {
    var k := PanelIndex(panel, id);
    if k >= 0 {
      assert panel == panel[..k] + [id] + panel[k + 1..];
    }
  }

  /** Inserting an id of a rank no entry has keeps the panel in rank order. */
  lemma InsertKeepsOrder(rank: string -> int, panel: seq<string>, id: string)
    requires SortedBy(rank, panel) && rank(id) >= 0
    requires forall x :: x in panel ==> rank(x) != rank(id)
    ensures SortedBy(rank, InsertOrdered(rank, panel, id))
  {
    var p := InsertPos(rank, panel, rank(id));
    var r := InsertOrdered(rank, panel, id);
    forall i | 0 <= i < |r| ensures r[i] == InsertedAt(panel, p, id, i) {
    }
    forall i | 0 <= i < |r| ensures rank(r[i]) >= 0 {
      if i != p {
        assert r[i] in panel;
      }
    }
    forall i, j | 0 <= i < j < |r| ensures rank(r[i]) < rank(r[j]) {
      if j < p {
        assert r[i] == panel[i] && r[j] == panel[j];
      } else if j == p {
        assert r[i] == panel[i];
      } else if i < p {
        assert r[i] == panel[i] && r[j] == panel[j - 1];
        assert rank(id) < rank(panel[p]);
      } else if i == p {
        assert r[j] == panel[j - 1];
        assert rank(id) < rank(panel[p]);
      } else {
        assert r[i] == panel[i - 1] && r[j] == panel[j - 1];
      }
    }
  }

  /** The entry at position `i` after inserting `id` at position `p`. */
  function InsertedAt(panel: seq<string>, p: int, id: string, i: int): string
    requires 0 <= p <= |panel| && 0 <= i <= |panel|
  {
    if i < p then panel[i] else if i == p then id else panel[i - 1]
  }

  /** Inserting adds exactly the new id. */
  lemma InsertAddsId(rank: string -> int, panel: seq<string>, id: string)
    ensures multiset(InsertOrdered(rank, panel, id)) == multiset(panel) + multiset{id}
  {
    var p := InsertPos(rank, panel, rank(id));
    assert panel == panel[..p] + panel[p..];
  }

  /** Removing keeps the panel in rank order. */
  lemma RemoveKeepsOrder(rank: string -> int, panel: seq<string>, id: string)
    requires SortedBy(rank, panel)
    ensures SortedBy(rank, RemoveFirst(panel, id))
  {
    var k := PanelIndex(panel, id);
    if k >= 0 {
      var r := RemoveFirst(panel, id);
      assert r == panel[..k] + panel[k + 1..];
      forall i | 0 <= i < |r| ensures r[i] == panel[if i < k then i else i + 1] {
      }
      forall i | 0 <= i < |r| ensures rank(r[i]) >= 0 {
        assert r[i] == panel[if i < k then i else i + 1];
      }
      forall i, j | 0 <= i < j < |r| ensures rank(r[i]) < rank(r[j]) {
        var i', j' := if i < k then i else i + 1, if j < k then j else j + 1;
        assert r[i] == panel[i'] && r[j] == panel[j'] && i' < j';
      }
    }
  }

  /** Removing from a sorted panel drops only the removed id. */
  lemma RemoveDropsId(rank: string -> int, panel: seq<string>, id: string)
    requires SortedBy(rank, panel)
    ensures forall x :: x in RemoveFirst(panel, id) <==> x in panel && x != id
  {
    var k := PanelIndex(panel, id);
    if k >= 0 {
      forall i | 0 <= i < |panel| && i != k ensures panel[i] != id {
        assert rank(panel[i]) != rank(panel[k]);
      }
      assert multiset(panel)[id] == 1 by {
        assert panel == panel[..k] + [id] + panel[k + 1..];
        assert id !in panel[..k] && id !in panel[k + 1..];
      }
    }
  }

  /** Inserting an absent id and removing it again gives back the panel. */
  lemma InsertThenRemove(rank: string -> int, panel: seq<string>, id: string)
    requires id !in panel
    ensures RemoveFirst(InsertOrdered(rank, panel, id), id) == panel
  {
    var p := InsertPos(rank, panel, rank(id));
    var r := InsertOrdered(rank, panel, id);
    assert r[..p] == panel[..p];
    assert r[p] == id;
    assert PanelIndex(r, id) == p;
    assert r[p + 1..] == panel[p..];
    assert panel == panel[..p] + panel[p..];
  }

  /** Removing an id of a sorted panel and inserting it again gives back the panel. */
  lemma RemoveThenInsert(rank: string -> int, panel: seq<string>, id: string)
    requires SortedBy(rank, panel) && id in panel
    ensures InsertOrdered(rank, RemoveFirst(panel, id), id) == panel
  {
    var k := PanelIndex(panel, id);
    var r := RemoveFirst(panel, id);
    assert r == panel[..k] + panel[k + 1..];
    assert forall i :: 0 <= i < k ==> rank(r[i]) < rank(id) by {
      assert forall i :: 0 <= i < k ==> r[i] == panel[i];
    }
    assert k < |r| ==> rank(id) < rank(r[k]) by {
      if k < |r| {
        assert r[k] == panel[k + 1];
      }
    }
    InsertPosAt(rank, r, rank(id), k);
    assert r[..k] == panel[..k];
    assert r[k..] == panel[k + 1..];
    assert panel == panel[..k] + [id] + panel[k + 1..];
  }

  /** A position before which every rank is lower and at which the rank is higher is the insert position. */
  lemma {:induction false} InsertPosAt(rank: string -> int, panel: seq<string>, x: int, k: int)
    requires 0 <= k <= |panel|
    requires forall i :: 0 <= i < k ==> rank(panel[i]) < x
    requires k < |panel| ==> x < rank(panel[k])
    ensures InsertPos(rank, panel, x) == k
  {
    if k > 0 {
      assert rank(panel[0]) < x;
      InsertPosAt(rank, panel[1..], x, k - 1);
    }
  }

  /** Roster ranks tell roster ids apart: two ids of the same rank are the same id. */
  lemma RosterRankInjective(units: seq<Unit>, x: string, y: string)
    requires RosterRank(units)(x) >= 0 && RosterRank(units)(x) == RosterRank(units)(y)
    ensures x == y
  {
  }

  // ---------------------------------------------------------------------
  // The setup state

  /** `germanSetupState`: the selected panel unit, the placements and the ids still to place. */
  datatype SetupState = SetupState(selectedUnit: Option<Unit>, placedUnits: map<HexId, Unit>, availableUnits: set<string>)

  /**
   * What the setup phase reads and changes: the full-strength German roster
   * and the German start hexes it reads from the game data; the setup state
   * (None once setup is over); the ids listed in the panel; and whether the
   * finish button shows.
   */
  datatype Setup = Setup(roster: seq<Unit>, startHexes: seq<HexId>,
                         state: Option<SetupState>, panel: seq<string>, finishButtonShown: bool)

  /** The setup phase before `populateGermanUnitPanel`, reading the game's own tables. */
  function InitialSetup(): Setup {
    Setup(FULL_GERMAN_UNITS, START_HEXES_GERMAN, None, [], false)
  }

  /** `checkGermanSetupComplete`'s test. */
  predicate IsSetupComplete(s: SetupState) {
    |s.placedUnits| == SETUP_UNIT_COUNT
  }

  /** `populateGermanUnitPanel`: every roster unit available, none placed, the first selected. */
  function Populate(v: Setup): Setup {
    var units := v.roster;
    var selected := if |units| > 0 then Some(units[0]) else None;
    v.(state := Some(SetupState(selected, map[], IdsOf(units))), panel := v.panel + IdSeq(units))
  }

  /** The unit selected after the unit with id `placedId` is placed, given the ids still available. */
  function NextSelection(roster: seq<Unit>, available: set<string>, placedId: string): (r: Option<Unit>)
    ensures r.Some? ==> r.value in roster && r.value.id in available
  {
    var next := NextIndex(roster, available, IndexOfId(roster, placedId));
    if next >= 0 then Some(roster[next]) else None
  }

  /** `placeGermanUnit`: place, drop the panel entry, select the next unit, check completion. */
  function Place(v: Setup, unit: Unit, hexId: HexId): (r: Setup)
    requires v.state.Some?
    ensures r.state.Some? && r.roster == v.roster && r.startHexes == v.startHexes
  {
    var s := v.state.value;
    var placed := s.placedUnits[hexId := unit];
    var available := s.availableUnits - {unit.id};
    v.(state := Some(SetupState(NextSelection(v.roster, available, unit.id), placed, available)),
       panel := RemoveFirst(v.panel, unit.id),
       finishButtonShown := v.finishButtonShown || |placed| == SETUP_UNIT_COUNT)
  }

  /** The number of roster units still available (the `remainingUnits` filter of `addUnitToPanel`). */
  function RemainingCount(roster: seq<Unit>, available: set<string>): nat {
    |AvailableUnits(roster, available)|
  }

  /** `addUnitToPanel`: the ordered insert, and the selection of the last unit left. */
  function AddToPanel(v: Setup, unit: Unit): (r: Setup)
    requires v.state.Some?
    ensures r.state.Some?
  {
    var s := v.state.value;
    var panel := InsertOrdered(RosterRank(v.roster), v.panel, unit.id);
    var selected := if RemainingCount(v.roster, s.availableUnits) == 1 then Some(unit) else s.selectedUnit;
    v.(state := Some(s.(selectedUnit := selected)), panel := panel)
  }

  /** `pickupGermanUnit`: return the unit in `hexId` to the panel and hide the finish button. */
  function Pickup(v: Setup, hexId: HexId): (r: Setup)
    ensures v.state.None? ==> r == v
    ensures v.state.Some? && hexId !in v.state.value.placedUnits ==> r == v
    ensures r.state.Some? == v.state.Some?
  {
    if v.state.None? || hexId !in v.state.value.placedUnits then v
    else
      var s := v.state.value;
      var unit := s.placedUnits[hexId];
      var s' := s.(placedUnits := s.placedUnits - {hexId}, availableUnits := s.availableUnits + {unit.id});
      AddToPanel(v.(state := Some(s')), unit).(finishButtonShown := false)
  }

  /** `onMapClick` at map pixel (x, y). */
  function MapClick(v: Setup, x: int, y: int): (r: Setup)
    ensures v.state.None? ==> r == v
    ensures v.state.Some? && v.state.value.selectedUnit.None? ==> r == v
    ensures PixelToHexId(x, y).None? ==> r == v
    ensures PixelToHexId(x, y).Some? && PixelToHexId(x, y).value !in v.startHexes ==> r == v
    ensures v.state.Some? && PixelToHexId(x, y).Some? && PixelToHexId(x, y).value in v.state.value.placedUnits ==> r == v
    ensures r != v ==> v.state.Some? && v.state.value.selectedUnit.Some? && PixelToHexId(x, y).Some? &&
                       r == Place(v, v.state.value.selectedUnit.value, PixelToHexId(x, y).value)
    ensures v.state.Some? && v.state.value.selectedUnit.Some? && PixelToHexId(x, y).Some? &&
            PixelToHexId(x, y).value in v.startHexes && PixelToHexId(x, y).value !in v.state.value.placedUnits ==>
              r == Place(v, v.state.value.selectedUnit.value, PixelToHexId(x, y).value)
  {
    if v.state.None? || v.state.value.selectedUnit.None? then v
    else
      match PixelToHexId(x, y)
      case None => v
      case Some(hexId) =>
        if hexId !in v.startHexes || hexId in v.state.value.placedUnits then v
        else Place(v, v.state.value.selectedUnit.value, hexId)
  }

  /** Places `units[i]` on `hexes[i]`, one after the other. */
  function PlaceAll(v: Setup, units: seq<Unit>, hexes: seq<HexId>): (r: Setup)
    requires v.state.Some? && |units| == |hexes|
    ensures r.state.Some? && r.roster == v.roster && r.startHexes == v.startHexes
  {
    if units == [] then v
    else
      var n := |units| - 1;
      Place(PlaceAll(v, units[..n], hexes[..n]), units[n], hexes[n])
  }

  /** Placing one more pair after a prefix of pairs. */
  lemma PlaceAllSnoc(v: Setup, units: seq<Unit>, hexes: seq<HexId>, k: int)
    requires v.state.Some? && 0 <= k < |units| && k < |hexes|
    ensures PlaceAll(v, units[..k + 1], hexes[..k + 1]) == Place(PlaceAll(v, units[..k], hexes[..k]), units[k], hexes[k])
  {
    assert units[..k + 1][..k] == units[..k];
    assert hexes[..k + 1][..k] == hexes[..k];
  }

  function Min(a: int, b: int): int {
    if a < b then a else b
  }

  /** `autoPlaceGermanUnits`: the i-th available unit on the i-th free German start hex. */
  function AutoPlace(v: Setup): (r: Setup)
    requires v.state.Some?
    ensures r.state.Some?
  {
    var s := v.state.value;
    var units := AvailableUnits(v.roster, s.availableUnits);
    var hexes := FreeHexes(v.startHexes, s.placedUnits);
    var n := Min(|units|, |hexes|);
    PlaceAll(v, units[..n], hexes[..n])
  }

  // ---------------------------------------------------------------------
  // The setup invariant

  /** The tables: 22 units without repeated ids, start hexes without repeats. */
  predicate TablesValid(v: Setup) {
    |v.roster| == SETUP_UNIT_COUNT && DistinctIds(v.roster) && DistinctHexes(v.startHexes)
  }

  /**
   * Placements are roster units on start hexes, each unit in at most one
   * place and never also available; the placed and the available units
   * together number the roster; a selection is an available roster unit.
   */
  ghost predicate StateInv(roster: seq<Unit>, startHexes: seq<HexId>, s: SetupState) {
    && s.availableUnits <= IdsOf(roster)
    && (forall h :: h in s.placedUnits ==>
          && h in startHexes
          && s.placedUnits[h] in roster
          && s.placedUnits[h].id !in s.availableUnits)
    && (forall h1, h2 :: h1 in s.placedUnits && h2 in s.placedUnits && h1 != h2 ==>
          s.placedUnits[h1].id != s.placedUnits[h2].id)
    && |s.placedUnits| + |s.availableUnits| == SETUP_UNIT_COUNT
    && (s.selectedUnit.Some? ==> s.selectedUnit.value in roster && s.selectedUnit.value.id in s.availableUnits)
  }

  /** The panel lists exactly the available units, in roster order. */
  ghost predicate PanelInv(roster: seq<Unit>, panel: seq<string>, s: SetupState) {
    && SortedBy(RosterRank(roster), panel)
    && (forall x :: x in panel <==> x in s.availableUnits)
  }

  /** Outside setup there is no panel and no button; during setup the button means completion. */
  ghost predicate Inv(v: Setup) {
    && TablesValid(v)
    && match v.state
       case None => v.panel == [] && !v.finishButtonShown
       case Some(s) =>
         && StateInv(v.roster, v.startHexes, s)
         && PanelInv(v.roster, v.panel, s)
         && (v.finishButtonShown ==> IsSetupComplete(s))
  }

  /** The game's own tables start the setup phase in the invariant. */
  lemma InvInitial()
    ensures Inv(InitialSetup())
  {
    FullRosterShape();
    FullRosterDistinct();
    GermanStartHexesDistinct();
  }

  /** A roster unit has a rank. */
  lemma RosterUnitRanked(roster: seq<Unit>, u: Unit)
    requires u in roster
    ensures RosterRank(roster)(u.id) >= 0
  {
    IndexOfIdFirst(roster, u.id);
  }

  /** Setup is complete exactly when no unit is left to place. */
  lemma CompleteIffNoneAvailable(v: Setup)
    requires Inv(v) && v.state.Some?
    ensures IsSetupComplete(v.state.value) <==> v.state.value.availableUnits == {}
  {
  }

  /** A roster's ids, listed in roster order, are sorted by roster rank and list its id set. */
  lemma RosterPanelSorted(units: seq<Unit>)
    requires DistinctIds(units)
    ensures SortedBy(RosterRank(units), IdSeq(units))
    ensures forall x :: x in IdSeq(units) <==> x in IdsOf(units)
  {
    var panel := IdSeq(units);
    forall i | 0 <= i < |units| ensures RosterRank(units)(panel[i]) == i {
      IndexOfIdDistinct(units, i);
    }
    forall x ensures x in panel <==> x in IdsOf(units) {
      if x in IdsOf(units) {
        var i :| 0 <= i < |units| && units[i].id == x;
        assert panel[i] == x;
      }
    }
  }

  /** Populating the panel at the start of setup establishes the invariant. */
  lemma InvPopulate(v: Setup)
    requires Inv(v) && v.state.None?
    ensures Inv(Populate(v))
  {
    IdsOfCount(v.roster);
    RosterPanelSorted(v.roster);
    assert v.roster[0].id in IdsOf(v.roster);
  }

  /** A placement the invariant survives: an available roster unit on a free start hex. */
  predicate CanPlace(v: Setup, unit: Unit, hexId: HexId) {
    && v.state.Some?
    && unit in v.roster && unit.id in v.state.value.availableUnits
    && hexId in v.startHexes && hexId !in v.state.value.placedUnits
  }

  lemma PlaceKeepsPlacements(v: Setup, unit: Unit, hexId: HexId)
    requires CanPlace(v, unit, hexId) && StateInv(v.roster, v.startHexes, v.state.value)
    ensures var s := v.state.value;
            var p := s.placedUnits[hexId := unit];
            var a := s.availableUnits - {unit.id};
            && a <= IdsOf(v.roster)
            && (forall h :: h in p ==> h in v.startHexes && p[h] in v.roster && p[h].id !in a)
            && (forall h1, h2 :: h1 in p && h2 in p && h1 != h2 ==> p[h1].id != p[h2].id)
            && |p| + |a| == SETUP_UNIT_COUNT
  {
    var s := v.state.value;
    assert s.availableUnits == (s.availableUnits - {unit.id}) + {unit.id};
  }

  /** Placing an available roster unit on a free start hex keeps the invariant. */
  lemma InvPlace(v: Setup, unit: Unit, hexId: HexId)
    requires Inv(v) && CanPlace(v, unit, hexId)
    ensures Inv(Place(v, unit, hexId))
  {
    var r := Place(v, unit, hexId);
    var s' := r.state.value;
    PlaceKeepsPlacements(v, unit, hexId);
    assert StateInv(v.roster, v.startHexes, s');
    RemoveKeepsOrder(RosterRank(v.roster), v.panel, unit.id);
    RemoveDropsId(RosterRank(v.roster), v.panel, unit.id);
    assert PanelInv(v.roster, r.panel, s');
  }

  /** Taking a placed unit back keeps the placement facts of the invariant. */
  lemma PickupKeepsPlacements(v: Setup, hexId: HexId)
    requires v.state.Some? && StateInv(v.roster, v.startHexes, v.state.value) && hexId in v.state.value.placedUnits
    ensures var s := v.state.value;
            var unit := s.placedUnits[hexId];
            var p := s.placedUnits - {hexId};
            var a := s.availableUnits + {unit.id};
            && a <= IdsOf(v.roster)
            && (forall h :: h in p ==> h in v.startHexes && p[h] in v.roster && p[h].id !in a)
            && (forall h1, h2 :: h1 in p && h2 in p && h1 != h2 ==> p[h1].id != p[h2].id)
            && |p| + |a| == SETUP_UNIT_COUNT
  {
    var s := v.state.value;
    var unit := s.placedUnits[hexId];
    var p := s.placedUnits - {hexId};
    var i :| 0 <= i < |v.roster| && v.roster[i] == unit;
    assert unit.id in IdsOf(v.roster);
    assert s.placedUnits.Keys == p.Keys + {hexId};
  }

  /** What a pickup from an occupied hex does to the placements, the available ids, the panel and the button. */
  lemma PickupEffect(v: Setup, hexId: HexId)
    requires v.state.Some? && hexId in v.state.value.placedUnits
    ensures var s := v.state.value;
            var unit := s.placedUnits[hexId];
            var r := Pickup(v, hexId);
            && r.state.Some? && r.roster == v.roster && r.startHexes == v.startHexes
            && r.state.value.placedUnits == s.placedUnits - {hexId}
            && r.state.value.availableUnits == s.availableUnits + {unit.id}
            && r.panel == InsertOrdered(RosterRank(v.roster), v.panel, unit.id)
            && !r.finishButtonShown
  {
  }

  /** Inserting a roster id that is not yet listed keeps the panel invariant for the enlarged id set. */
  lemma InsertKeepsPanelInv(roster: seq<Unit>, panel: seq<string>, s: SetupState, unit: Unit)
    requires PanelInv(roster, panel, s) && unit in roster && unit.id !in s.availableUnits
    ensures PanelInv(roster, InsertOrdered(RosterRank(roster), panel, unit.id),
                     s.(availableUnits := s.availableUnits + {unit.id}))
  {
    var rank := RosterRank(roster);
    var r := InsertOrdered(rank, panel, unit.id);
    RosterUnitRanked(roster, unit);
    forall x | x in panel ensures rank(x) != rank(unit.id) {
      if rank(x) == rank(unit.id) {
        RosterRankInjective(roster, unit.id, x);
      }
    }
    InsertKeepsOrder(rank, panel, unit.id);
    InsertAddsId(rank, panel, unit.id);
    forall x ensures x in r <==> x in panel || x == unit.id {
      assert x in r <==> x in multiset(r);
      assert x in panel <==> x in multiset(panel);
    }
  }

  /** Taking a unit back returns its id to the panel, at its place in roster order. */
  lemma PickupPanel(v: Setup, hexId: HexId)
    requires Inv(v) && v.state.Some? && hexId in v.state.value.placedUnits
    ensures PanelInv(v.roster, Pickup(v, hexId).panel, Pickup(v, hexId).state.value)
  {
    var s := v.state.value;
    var unit := s.placedUnits[hexId];
    PickupEffect(v, hexId);
    InsertKeepsPanelInv(v.roster, v.panel, s, unit);
    assert Pickup(v, hexId).state.value.availableUnits == s.(availableUnits := s.availableUnits + {unit.id}).availableUnits;
  }

  /** Taking a unit back (or a click that takes nothing back) keeps the invariant. */
  lemma InvPickup(v: Setup, hexId: HexId)
    requires Inv(v)
    ensures Inv(Pickup(v, hexId))
  {
    if v.state.Some? && hexId in v.state.value.placedUnits {
      PickupKeepsPlacements(v, hexId);
      PickupEffect(v, hexId);
      PickupPanel(v, hexId);
    }
  }

  /** A map click keeps the invariant. */
  lemma InvMapClick(v: Setup, x: int, y: int)
    requires Inv(v)
    ensures Inv(MapClick(v, x, y))
  {
    if MapClick(v, x, y) != v {
      InvPlace(v, v.state.value.selectedUnit.value, PixelToHexId(x, y).value);
    }
  }

  /** The ids of a roster are those of all but its last unit, and the last one's. */
  lemma IdsOfSnoc(units: seq<Unit>)
    requires units != []
    ensures IdsOf(units) == IdsOf(units[..|units| - 1]) + {units[|units| - 1].id}
  {
    var front := units[..|units| - 1];
    forall x | x in IdsOf(units) ensures x in IdsOf(front) + {units[|units| - 1].id} {
      var i :| 0 <= i < |units| && units[i].id == x;
      if i < |front| {
        assert front[i].id == x;
      }
    }
    forall x | x in IdsOf(front) ensures x in IdsOf(units) {
      var i :| 0 <= i < |front| && front[i].id == x;
      assert units[i].id == x;
    }
  }

  /** What one placement does to the placements and the available ids. */
  lemma PlaceEffect(v: Setup, unit: Unit, hexId: HexId)
    requires v.state.Some?
    ensures var r := Place(v, unit, hexId).state.value;
            var s := v.state.value;
            && r.placedUnits == s.placedUnits[hexId := unit]
            && r.availableUnits == s.availableUnits - {unit.id}
  {
  }

  /** Placing `units[i]` on `hexes[i]` in turn takes the placed ids out of the available set. */
  lemma {:induction false} PlaceAllAvailable(v: Setup, units: seq<Unit>, hexes: seq<HexId>)
    requires v.state.Some? && |units| == |hexes|
    ensures PlaceAll(v, units, hexes).state.value.availableUnits == v.state.value.availableUnits - IdsOf(units)
  {
    if units != [] {
      var n := |units| - 1;
      PlaceAllAvailable(v, units[..n], hexes[..n]);
      PlaceEffect(PlaceAll(v, units[..n], hexes[..n]), units[n], hexes[n]);
      IdsOfSnoc(units);
    }
  }

  /** Placing in turn occupies the listed hexes and leaves every other hex as it was. */
  lemma {:induction false} PlaceAllPlaced(v: Setup, units: seq<Unit>, hexes: seq<HexId>)
    requires v.state.Some? && |units| == |hexes|
    ensures var r := PlaceAll(v, units, hexes).state.value;
            var s := v.state.value;
            && (forall h :: h in r.placedUnits <==> h in s.placedUnits || h in hexes)
            && (forall h :: h in s.placedUnits && h !in hexes ==> r.placedUnits[h] == s.placedUnits[h])
  {
    if units != [] {
      var n := |units| - 1;
      PlaceAllPlaced(v, units[..n], hexes[..n]);
      PlaceEffect(PlaceAll(v, units[..n], hexes[..n]), units[n], hexes[n]);
      assert hexes == hexes[..n] + [hexes[n]];
    }
  }

  /** When no hex is listed twice, placing in turn leaves each listed hex holding its unit. */
  lemma {:induction false} PlaceAllPuts(v: Setup, units: seq<Unit>, hexes: seq<HexId>)
    requires v.state.Some? && |units| == |hexes| && DistinctHexes(hexes)
    ensures var r := PlaceAll(v, units, hexes).state.value;
            forall i :: 0 <= i < |hexes| ==> hexes[i] in r.placedUnits && r.placedUnits[hexes[i]] == units[i]
  {
    if units != [] {
      var n := |units| - 1;
      PlaceAllPuts(v, units[..n], hexes[..n]);
      PlaceEffect(PlaceAll(v, units[..n], hexes[..n]), units[n], hexes[n]);
      forall i | 0 <= i < n ensures hexes[..n][i] != hexes[n] && hexes[..n][i] == hexes[i] && units[..n][i] == units[i] {
      }
    }
  }

  /** After the first placements of a batch, the next one is still of an available unit on a free hex. */
  lemma PlaceAllNextAllowed(v: Setup, units: seq<Unit>, hexes: seq<HexId>)
    requires v.state.Some? && |units| == |hexes| && units != []
    requires forall u :: u in units ==> u in v.roster && u.id in v.state.value.availableUnits
    requires forall h :: h in hexes ==> h in v.startHexes && h !in v.state.value.placedUnits
    requires DistinctIds(units) && DistinctHexes(hexes)
    ensures var n := |units| - 1;
            CanPlace(PlaceAll(v, units[..n], hexes[..n]), units[n], hexes[n])
  {
    var n := |units| - 1;
    PlaceAllAvailable(v, units[..n], hexes[..n]);
    PlaceAllPlaced(v, units[..n], hexes[..n]);
    assert units[n].id !in IdsOf(units[..n]);
    assert hexes[n] !in hexes[..n];
  }

  /** Placing distinct available roster units on distinct free start hexes keeps the invariant. */
  lemma {:induction false} InvPlaceAll(v: Setup, units: seq<Unit>, hexes: seq<HexId>)
    requires Inv(v) && v.state.Some? && |units| == |hexes|
    requires forall u :: u in units ==> u in v.roster && u.id in v.state.value.availableUnits
    requires forall h :: h in hexes ==> h in v.startHexes && h !in v.state.value.placedUnits
    requires DistinctIds(units) && DistinctHexes(hexes)
    ensures Inv(PlaceAll(v, units, hexes))
  {
    if units != [] {
      var n := |units| - 1;
      assert forall u :: u in units[..n] ==> u in units;
      assert forall h :: h in hexes[..n] ==> h in hexes;
      InvPlaceAll(v, units[..n], hexes[..n]);
      PlaceAllNextAllowed(v, units, hexes);
      InvPlace(PlaceAll(v, units[..n], hexes[..n]), units[n], hexes[n]);
    }
  }

  /** Auto-placement keeps the invariant. */
  lemma InvAutoPlace(v: Setup)
    requires Inv(v) && v.state.Some?
    ensures Inv(AutoPlace(v))
  {
    var s := v.state.value;
    var units := AvailableUnits(v.roster, s.availableUnits);
    var hexes := FreeHexes(v.startHexes, s.placedUnits);
    var n := Min(|units|, |hexes|);
    assert forall u :: u in units[..n] ==> u in units;
    assert forall h :: h in hexes[..n] ==> h in hexes;
    InvPlaceAll(v, units[..n], hexes[..n]);
  }

  /**
   * Auto-placement puts the i-th still-available roster unit on the i-th
   * free start hex, for as many pairs as there are free hexes and units;
   * other hexes keep their units and the placed ids stop being available.
   */
  lemma AutoPlacePairs(v: Setup)
    requires v.state.Some? && DistinctHexes(v.startHexes)
    ensures var s := v.state.value;
            var units := AvailableUnits(v.roster, s.availableUnits);
            var hexes := FreeHexes(v.startHexes, s.placedUnits);
            var n := Min(|units|, |hexes|);
            var r := AutoPlace(v).state.value;
            && (forall i :: 0 <= i < n ==> hexes[i] in r.placedUnits && r.placedUnits[hexes[i]] == units[i])
            && (forall h :: h in s.placedUnits ==> h in r.placedUnits && r.placedUnits[h] == s.placedUnits[h])
            && r.availableUnits == s.availableUnits - IdsOf(units[..n])
  {
    var s := v.state.value;
    var units := AvailableUnits(v.roster, s.availableUnits);
    var hexes := FreeHexes(v.startHexes, s.placedUnits);
    var n := Min(|units|, |hexes|);
    assert DistinctHexes(hexes[..n]);
    PlaceAllAvailable(v, units[..n], hexes[..n]);
    PlaceAllPlaced(v, units[..n], hexes[..n]);
    PlaceAllPuts(v, units[..n], hexes[..n]);
    forall i | 0 <= i < n ensures hexes[..n][i] == hexes[i] && units[..n][i] == units[i] {
    }
    assert forall h :: h in s.placedUnits ==> h !in hexes[..n];
  }

  lemma AddThenRemoveKey(m: map<HexId, Unit>, h: HexId, u: Unit)
    requires h !in m
    ensures m[h := u] - {h} == m
  {
  }

  lemma RemoveThenAddKey(m: map<HexId, Unit>, h: HexId)
    requires h in m
    ensures (m - {h})[h := m[h]] == m
  {
  }

  lemma RemoveThenAddId(a: set<string>, id: string)
    requires id in a
    ensures a - {id} + {id} == a
  {
  }

  lemma AddThenRemoveId(a: set<string>, id: string)
    requires id !in a
    ensures a + {id} - {id} == a
  {
  }

  /** Picking up a unit just placed restores the placements, the available ids, the panel and the button. */
  lemma PlaceThenPickup(v: Setup, unit: Unit, hexId: HexId)
    requires Inv(v) && CanPlace(v, unit, hexId)
    ensures var w := Pickup(Place(v, unit, hexId), hexId);
            && w.state.Some?
            && w.state.value.placedUnits == v.state.value.placedUnits
            && w.state.value.availableUnits == v.state.value.availableUnits
            && w.panel == v.panel
            && w.finishButtonShown == v.finishButtonShown
  {
    var s := v.state.value;
    PickupEffect(Place(v, unit, hexId), hexId);
    AddThenRemoveKey(s.placedUnits, hexId, unit);
    RemoveThenAddId(s.availableUnits, unit.id);
    RemoveThenInsert(RosterRank(v.roster), v.panel, unit.id);
  }

  /** Placing a unit back where it was just picked up restores the placements, the available ids and the panel. */
  lemma PickupThenPlace(v: Setup, hexId: HexId)
    requires Inv(v) && v.state.Some? && hexId in v.state.value.placedUnits
    ensures var unit := v.state.value.placedUnits[hexId];
            var w := Place(Pickup(v, hexId), unit, hexId);
            && w.state.value.placedUnits == v.state.value.placedUnits
            && w.state.value.availableUnits == v.state.value.availableUnits
            && w.panel == v.panel
  {
    var s := v.state.value;
    var unit := s.placedUnits[hexId];
    PickupEffect(v, hexId);
    RemoveThenAddKey(s.placedUnits, hexId);
    AddThenRemoveId(s.availableUnits, unit.id);
    InsertThenRemove(RosterRank(v.roster), v.panel, unit.id);
  }

  // ---------------------------------------------------------------------
  // Selecting in the panel and finishing setup

  /** `onSetupUnitClick`: the clicked panel unit becomes the selection. */
  function SelectInPanel(v: Setup, unit: Unit): (r: Setup)
    requires v.state.Some?
    ensures r.state.Some? && r.state.value.selectedUnit == Some(unit)
    ensures r.state.value.placedUnits == v.state.value.placedUnits
    ensures r.state.value.availableUnits == v.state.value.availableUnits
    ensures r.roster == v.roster && r.startHexes == v.startHexes
    ensures r.panel == v.panel && r.finishButtonShown == v.finishButtonShown
  {
    v.(state := Some(v.state.value.(selectedUnit := Some(unit))))
  }

  /** Clicking a unit listed in the panel keeps the invariant. */
  lemma InvSelectInPanel(v: Setup, unit: Unit)
    requires Inv(v) && v.state.Some? && unit in v.roster && unit.id in v.panel
    ensures Inv(SelectInPanel(v, unit))
  {
  }

  /** `finishGermanSetup`'s effect on the setup: the state is cleared and the panel with its button removed. */
  function Finish(v: Setup): (r: Setup)
    ensures r.state.None? && r.panel == [] && !r.finishButtonShown
    ensures r.roster == v.roster && r.startHexes == v.startHexes
  {
    v.(state := None, panel := [], finishButtonShown := false)
  }

  lemma InvFinish(v: Setup)
    requires Inv(v)
    ensures Inv(Finish(v))
  {
  }

  /** The ids of the placed units. */
  function PlacedIds(placed: map<HexId, Unit>): set<string> {
    set h | h in placed :: placed[h].id
  }

  /** Placed units with pairwise different ids have as many ids as placements. */
  lemma {:induction false} PlacedIdsCount(placed: map<HexId, Unit>)
    requires forall h1, h2 :: h1 in placed && h2 in placed && h1 != h2 ==> placed[h1].id != placed[h2].id
    ensures |PlacedIds(placed)| == |placed|
    decreases |placed|
  {
    if placed != map[] {
      var h :| h in placed;
      var rest := placed - {h};
      assert |rest| == |placed| - 1 by {
        assert placed.Keys == rest.Keys + {h};
      }
      PlacedIdsCount(rest);
      var id := placed[h].id;
      assert PlacedIds(placed) == PlacedIds(rest) + {id} by {
        forall x | x in PlacedIds(placed) ensures x in PlacedIds(rest) + {id} {
          var k :| k in placed && placed[k].id == x;
          if k != h {
            assert rest[k].id == x;
          }
        }
      }
      assert id !in PlacedIds(rest);
    }
  }

  /** A subset as large as its superset is the whole of it. */
  lemma {:induction false} SubsetSameSize(a: set<string>, b: set<string>)
    requires a <= b && |a| == |b|
    ensures a == b
    decreases |a|
  {
    if a != {} {
      var y :| y in a;
      SubsetSameSize(a - {y}, b - {y});
      assert a == (a - {y}) + {y} && b == (b - {y}) + {y};
    }
  }

  /** A complete setup has every roster unit standing on some hex. */
  lemma CompleteSetupPlacesRoster(v: Setup)
    requires Inv(v) && v.state.Some? && IsSetupComplete(v.state.value)
    ensures forall u :: u in v.roster ==> exists h :: h in v.state.value.placedUnits && v.state.value.placedUnits[h] == u
  {
    var placed := v.state.value.placedUnits;
    PlacedIdsCount(placed);
    IdsOfCount(v.roster);
    assert PlacedIds(placed) <= IdsOf(v.roster) by {
      forall x | x in PlacedIds(placed) ensures x in IdsOf(v.roster) {
        var h :| h in placed && placed[h].id == x;
        var i :| 0 <= i < |v.roster| && v.roster[i] == placed[h];
      }
    }
    SubsetSameSize(PlacedIds(placed), IdsOf(v.roster));
    forall u | u in v.roster ensures exists h :: h in placed && placed[h] == u {
      var i :| 0 <= i < |v.roster| && v.roster[i] == u;
      assert u.id in PlacedIds(placed);
      var h :| h in placed && placed[h].id == u.id;
      var j :| 0 <= j < |v.roster| && v.roster[j] == placed[h];
      assert placed[h] == u;
    }
  }

  /** One more placement copied into the registry. */
  lemma CopyOneMore(registry: map<HexId, Unit>, placed: map<HexId, Unit>, todo: set<HexId>, h: HexId)
    requires h in todo && h in placed
    ensures (registry + (placed - todo))[h := placed[h]] == registry + (placed - (todo - {h}))
  {
  }

  /** Once a complete setup is copied into a registry, every roster unit stands in the registry. */
  lemma FinishedRegistryHoldsRoster(v: Setup, registry: map<HexId, Unit>)
    requires Inv(v) && v.state.Some? && IsSetupComplete(v.state.value)
    ensures var r := registry + v.state.value.placedUnits;
            forall u :: u in v.roster ==> exists h :: h in r && r[h] == u
  {
    var placed := v.state.value.placedUnits;
    var r := registry + placed;
    CompleteSetupPlacesRoster(v);
    forall u | u in v.roster ensures exists h :: h in r && r[h] == u {
      var h :| h in placed && placed[h] == u;
      assert r[h] == u;
    }
  }

  // ---------------------------------------------------------------------
  // The setup manager object

  /**
   * The setup phase as the game runs it: the tables it reads, the setup
   * state, the ids listed in the panel and whether the finish button shows.
   * Each method does to `View()` what its specification function above
   * (named in its postcondition) does to a `Setup` value.
   */
  class SetupManager {
    /** The full-side German units, in roster order. */
    const roster: seq<Unit>
    /** The German starting hexes. */
    const startHexes: seq<HexId>
    var germanSetupState: Option<SetupState>
    /** The ids listed in the setup panel, top to bottom. */
    var panel: seq<string>
    var finishButtonShown: bool

    function View(): Setup
      reads this
    {
      Setup(roster, startHexes, germanSetupState, panel, finishButtonShown)
    }

    constructor ()
      ensures View() == InitialSetup() && Inv(View())
    {
      roster := FULL_GERMAN_UNITS;
      startHexes := START_HEXES_GERMAN;
      germanSetupState := None;
      panel := [];
      finishButtonShown := false;
      new;
      InvInitial();
    }

    /** `onSetupUnitClick`. */
    method OnSetupUnitClick(unit: Unit)
      requires germanSetupState.Some?
      modifies this
      ensures View() == SelectInPanel(old(View()), unit)
      ensures Inv(old(View())) && unit in roster && unit.id in old(panel) ==> Inv(View())
    {
      ghost var v0 := View();
      germanSetupState := Some(germanSetupState.value.(selectedUnit := Some(unit)));
      if Inv(v0) && unit in roster && unit.id in v0.panel {
        InvSelectInPanel(v0, unit);
      }
    }

    /** `populateGermanUnitPanel`: list every roster unit and select the first. */
    method PopulateGermanUnitPanel()
      modifies this
      ensures View() == Populate(old(View()))
      ensures Inv(old(View())) && old(germanSetupState).None? ==> Inv(View())
    {
      ghost var v0 := View();
      germanSetupState := Some(SetupState(None, map[], IdsOf(roster)));
      var i := 0;
      while i < |roster|
        invariant 0 <= i <= |roster|
        invariant panel == v0.panel + IdSeq(roster[..i])
        invariant germanSetupState == Some(SetupState(None, map[], IdsOf(roster)))
        invariant finishButtonShown == v0.finishButtonShown
      {
        assert roster[..i + 1][..i] == roster[..i];
        panel := panel + [roster[i].id];
        i := i + 1;
      }
      assert roster[..i] == roster;
      if |roster| > 0 {
        OnSetupUnitClick(roster[0]);
      }
      if Inv(v0) && v0.state.None? {
        InvPopulate(v0);
      }
    }

    /** `checkGermanSetupComplete`: show the finish button once every unit is placed. */
    method CheckGermanSetupComplete()
      requires germanSetupState.Some?
      modifies this
      ensures germanSetupState == old(germanSetupState) && panel == old(panel)
      ensures finishButtonShown == (old(finishButtonShown) || IsSetupComplete(germanSetupState.value))
      ensures Inv(old(View())) ==> Inv(View())
    {
      if |germanSetupState.value.placedUnits| == SETUP_UNIT_COUNT {
        finishButtonShown := true;
      }
    }

    /**
     * The two search loops of `placeGermanUnit`: the roster position of the
     * first available unit after `currentIndex`, else of the first one
     * before it, else -1.
     */
    method FindNextUnit(available: set<string>, currentIndex: int) returns (next: int)
      requires -1 <= currentIndex < |roster|
      ensures next == NextIndex(roster, available, currentIndex)
    {
      var i := currentIndex + 1;
      while i < |roster|
        invariant currentIndex + 1 <= i <= |roster|
        invariant forall j :: currentIndex + 1 <= j < i ==> roster[j].id !in available
      {
        if roster[i].id in available {
          assert FirstAvailable(roster, available, currentIndex + 1, |roster|) == i;
          return i;
        }
        i := i + 1;
      }
      assert FirstAvailable(roster, available, currentIndex + 1, |roster|) == -1;
      i := 0;
      while i < currentIndex
        invariant 0 <= i && (i <= currentIndex || i == 0)
        invariant forall j :: 0 <= j < i ==> roster[j].id !in available
      {
        if roster[i].id in available {
          assert FirstAvailable(roster, available, 0, currentIndex) == i;
          return i;
        }
        i := i + 1;
      }
      return -1;
    }

    /** `placeGermanUnit`: place, unlist, select the next available unit (wrapping around), check completion. */
    method PlaceGermanUnit(unit: Unit, hexId: HexId)
      requires germanSetupState.Some?
      modifies this
      ensures View() == Place(old(View()), unit, hexId)
      ensures Inv(old(View())) && CanPlace(old(View()), unit, hexId) ==> Inv(View())
    {
      ghost var v0 := View();
      var s := germanSetupState.value;
      var placed := s.placedUnits[hexId := unit];
      var available := s.availableUnits - {unit.id};
      germanSetupState := Some(SetupState(None, placed, available));
      panel := RemoveFirst(panel, unit.id);
      var currentIndex := IndexOfId(roster, unit.id);
      var next := FindNextUnit(available, currentIndex);
      if next >= 0 {
        OnSetupUnitClick(roster[next]);
      }
      CheckGermanSetupComplete();
      assert View() == Place(v0, unit, hexId);
      if Inv(v0) && CanPlace(v0, unit, hexId) {
        InvPlace(v0, unit, hexId);
      }
    }

    /** `addUnitToPanel`: insert before the first entry further down the roster, select the last unit left. */
    method AddUnitToPanel(unit: Unit)
      requires germanSetupState.Some?
      modifies this
      ensures View() == AddToPanel(old(View()), unit)
    {
      var unitIndex := IndexOfId(roster, unit.id);
      var existing := panel;
      var inserted := false;
      var i := 0;
      while i < |existing|
        invariant 0 <= i <= |existing|
        invariant panel == existing && germanSetupState == old(germanSetupState)
        invariant finishButtonShown == old(finishButtonShown)
        invariant forall j :: 0 <= j < i ==> RosterRank(roster)(existing[j]) <= unitIndex
      {
        var existingIndex := IndexOfId(roster, existing[i]);
        if unitIndex < existingIndex {
          assert InsertPos(RosterRank(roster), existing, unitIndex) == i;
          panel := existing[..i] + [unit.id] + existing[i..];
          inserted := true;
          break;
        }
        i := i + 1;
      }
      if !inserted {
        assert InsertPos(RosterRank(roster), existing, unitIndex) == |existing|;
        assert existing[..|existing|] == existing && existing[|existing|..] == [];
        panel := existing + [unit.id];
      }
      var remainingUnits := AvailableUnits(roster, germanSetupState.value.availableUnits);
      if |remainingUnits| == 1 {
        OnSetupUnitClick(unit);
      }
    }

    /** `pickupGermanUnit`: take the unit in `hexId` back into the panel and hide the finish button. */
    method PickupGermanUnit(hexId: HexId)
      modifies this
      ensures View() == Pickup(old(View()), hexId)
      ensures Inv(old(View())) ==> Inv(View())
    {
      ghost var v0 := View();
      if germanSetupState.None? {
        return;
      }
      var s := germanSetupState.value;
      if hexId !in s.placedUnits {
        return;
      }
      var unit := s.placedUnits[hexId];
      germanSetupState := Some(s.(placedUnits := s.placedUnits - {hexId}, availableUnits := s.availableUnits + {unit.id}));
      AddUnitToPanel(unit);
      finishButtonShown := false;
      if Inv(v0) {
        InvPickup(v0, hexId);
      }
    }

    /** `onMapClick` at map pixel (x, y): place the selected unit on a free German starting hex. */
    method OnMapClick(x: int, y: int)
      modifies this
      ensures View() == MapClick(old(View()), x, y)
      ensures Inv(old(View())) ==> Inv(View())
    {
      ghost var v0 := View();
      if germanSetupState.None? {
        return;
      }
      if germanSetupState.value.selectedUnit.None? {
        return;
      }
      var hex := PixelToHexId(x, y);
      if hex.None? {
        return;
      }
      var hexId := hex.value;
      if hexId !in startHexes {
        return;
      }
      if hexId in germanSetupState.value.placedUnits {
        return;
      }
      PlaceGermanUnit(germanSetupState.value.selectedUnit.value, hexId);
      if Inv(v0) {
        InvMapClick(v0, x, y);
      }
    }

    /** `autoPlaceGermanUnits`: the i-th available unit on the i-th free starting hex. */
    method AutoPlaceGermanUnits()
      requires germanSetupState.Some?
      modifies this
      ensures View() == AutoPlace(old(View()))
      ensures Inv(old(View())) ==> Inv(View())
    {
      ghost var v0 := View();
      var s := germanSetupState.value;
      var units := AvailableUnits(roster, s.availableUnits);
      var hexes := FreeHexes(startHexes, s.placedUnits);
      var i := 0;
      while i < |units|
        invariant 0 <= i <= |units|
        invariant germanSetupState.Some?
        invariant View() == PlaceAll(v0, units[..Min(i, |hexes|)], hexes[..Min(i, |hexes|)])
      {
        if i < |hexes| {
          PlaceAllSnoc(v0, units, hexes, i);
          PlaceGermanUnit(units[i], hexes[i]);
        }
        i := i + 1;
      }
      if Inv(v0) {
        InvAutoPlace(v0);
      }
    }

    /** `finishGermanSetup`: hand every placement to the unit registry and end setup. */
    method FinishGermanSetup(um: UM.UnitManager)
      requires germanSetupState.Some?
      modifies this, um
      ensures um.unitRegistry == old(um.unitRegistry) + old(germanSetupState.value.placedUnits)
      ensures um.selectedUnit == old(um.selectedUnit) && um.unitsMovedThisPhase == old(um.unitsMovedThisPhase)
      ensures View() == Finish(old(View()))
      ensures Inv(old(View())) ==> Inv(View())
    {
      var placed := germanSetupState.value.placedUnits;
      var todo := placed.Keys;
      while todo != {}
        invariant todo <= placed.Keys
        invariant um.unitRegistry == old(um.unitRegistry) + (placed - todo)
        invariant um.selectedUnit == old(um.selectedUnit) && um.unitsMovedThisPhase == old(um.unitsMovedThisPhase)
        invariant germanSetupState == old(germanSetupState) && panel == old(panel)
        invariant finishButtonShown == old(finishButtonShown)
        decreases todo
      {
        var h :| h in todo;
        CopyOneMore(old(um.unitRegistry), placed, todo, h);
        um.unitRegistry := um.unitRegistry[h := placed[h]];
        todo := todo - {h};
      }
      assert placed - {} == placed;
      germanSetupState := None;
      panel := [];
      finishButtonShown := false;
    }
  }
}
