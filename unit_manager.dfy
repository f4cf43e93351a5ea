/**
 * Selecting a unit to move: which clicked units may be picked up in the
 * current phase, and the `selectedUnit` field a successful click sets.
 */
module UnitManager {
  import opened Wrappers
  import opened HexUtils
  import opened UnitData

  /** The phase in which only armored units move. */
  const PANZER_MOVEMENT_PHASE := 2
  /** The phase in which a unit that already moved may move again. */
  const SECOND_MOVEMENT_PHASE := 4

  /** The selected unit and the hex it stands in. */
  datatype Selection = Selection(hexId: HexId, unit: Unit)

  /** Whether the unit standing in `hexId` may be selected to move in `phase`. */
  predicate MayMove(unit: Unit, hexId: HexId, moved: set<HexId>, phase: int) {
    && !(phase == PANZER_MOVEMENT_PHASE && unit.unitType != Armor)
    && !(hexId in moved && phase != SECOND_MOVEMENT_PHASE)
  }

  /** The selection after a click on `hexId`, starting from `selected`. */
  function AfterClick(selected: Option<Selection>, registry: map<HexId, Unit>, moved: set<HexId>,
                      phase: int, hexId: HexId): (r: Option<Selection>)
    ensures hexId !in registry ==> r == selected
    ensures hexId in registry && phase == PANZER_MOVEMENT_PHASE && registry[hexId].unitType != Armor ==> r == selected
    ensures hexId in moved && phase != SECOND_MOVEMENT_PHASE ==> r == selected
    ensures hexId in registry && MayMove(registry[hexId], hexId, moved, phase) ==>
              r == Some(Selection(hexId, registry[hexId]))
  {
    if hexId !in registry then selected
    else if !MayMove(registry[hexId], hexId, moved, phase) then selected
    else Some(Selection(hexId, registry[hexId]))
  }

  /** A selection names a unit of the registry, standing where the registry puts it. */
  predicate SelectionInRegistry(selected: Option<Selection>, registry: map<HexId, Unit>) {
    selected.Some? ==> selected.value.hexId in registry && registry[selected.value.hexId] == selected.value.unit
  }

  /** A click never leaves a selection that disagrees with the registry. */
  lemma AfterClickKeepsRegistryAgreement(selected: Option<Selection>, registry: map<HexId, Unit>,
                                         moved: set<HexId>, phase: int, hexId: HexId)
    requires SelectionInRegistry(selected, registry)
    ensures SelectionInRegistry(AfterClick(selected, registry, moved, phase, hexId), registry)
  {
  }

  /** A click changes the selection only to the clicked unit, and only when it may move. */
  lemma AfterClickOnlySelectsMovable(selected: Option<Selection>, registry: map<HexId, Unit>,
                                     moved: set<HexId>, phase: int, hexId: HexId)
    ensures var r := AfterClick(selected, registry, moved, phase, hexId);
            r != selected ==>
              && hexId in registry
              && r == Some(Selection(hexId, registry[hexId]))
              && (phase == PANZER_MOVEMENT_PHASE ==> registry[hexId].unitType == Armor)
              && (hexId in moved ==> phase == SECOND_MOVEMENT_PHASE)
  {
  }

  /** Clicking the same hex twice selects what one click selects. */
  lemma AfterClickIdempotent(selected: Option<Selection>, registry: map<HexId, Unit>,
                             moved: set<HexId>, phase: int, hexId: HexId)
    ensures var once := AfterClick(selected, registry, moved, phase, hexId);
            AfterClick(once, registry, moved, phase, hexId) == once
  {
  }

  class UnitManager {
    var selectedUnit: Option<Selection>
    /** The unit standing in each occupied hex. */
    var unitRegistry: map<HexId, Unit>
    var unitsMovedThisPhase: set<HexId>

    constructor ()
      ensures selectedUnit == None && unitRegistry == map[] && unitsMovedThisPhase == {}
    {
      selectedUnit := None;
      unitRegistry := map[];
      unitsMovedThisPhase := {};
    }

    /** `selectUnit`: replaces any previous selection. */
    method SelectUnit(hexId: HexId, unit: Unit)
      modifies this
      ensures selectedUnit == Some(Selection(hexId, unit))
      ensures unitRegistry == old(unitRegistry) && unitsMovedThisPhase == old(unitsMovedThisPhase)
    {
      selectedUnit := Some(Selection(hexId, unit));
    }

    /** `onUnitClick` in game phase `phase`. */
    method OnUnitClick(phase: int, hexId: HexId)
      modifies this
      ensures selectedUnit == AfterClick(old(selectedUnit), unitRegistry, unitsMovedThisPhase, phase, hexId)
      ensures unitRegistry == old(unitRegistry) && unitsMovedThisPhase == old(unitsMovedThisPhase)
    {
      if hexId !in unitRegistry {
        return;
      }
      var unit := unitRegistry[hexId];
      if phase == PANZER_MOVEMENT_PHASE {
        if unit.unitType != Armor {
          return;
        }
      }
      if hexId in unitsMovedThisPhase && phase != SECOND_MOVEMENT_PHASE {
        return;
      }
      SelectUnit(hexId, unit);
    }
  }
}
