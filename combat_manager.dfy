/**
 * Combat: the odds pipeline, the Combat Results Table, the river test
 * between attacker and defender, and the declared-battle state of a combat
 * phase (who attacks whom, which units are committed, the pending attacker).
 *
 * The unit registry (hex -> unit) and the current phase (1..8) belong to
 * other objects in the program; here they are parameters.
 */
module CombatManager {
  import opened Wrappers
  import opened HexUtils
  import opened UnitData
  import opened MapData

  // ---------------------------------------------------------------------
  // Combat Results Table

  datatype CombatResult = NE | DR | DRL | AL | DE | EX

  /** Rows are die rolls 1..6, columns the odds levels 1:1 .. 6:1. */
  const CRT: seq<seq<CombatResult>> := [
    [DR, DR, DR, DR, DR, DRL],
    [EX, DR, DR, DR, DRL, DRL],
    [EX, EX, DR, EX, DRL, DE],
    [CombatResult.NE, EX, EX, DRL, DRL, DE],
    [CombatResult.NE, CombatResult.NE, EX, DRL, DE, DE],
    [AL, CombatResult.NE, DRL, DE, DE, DE]
  ]

  const ODDS_LEVELS: seq<string> := ["1:1", "2:1", "3:1", "4:1", "5:1", "6:1"]

  /** `Array.prototype.indexOf`: the first position of `x` in `s`, or -1. */
  function IndexOf<T(==)>(s: seq<T>, x: T): (r: int)
    ensures r == -1 <==> x !in s
    ensures r != -1 ==> 0 <= r < |s| && s[r] == x && x !in s[..r]
  {
    if s == [] then -1
    else if s[0] == x then 0
    else
      var k := IndexOf(s[1..], x);
      if k == -1 then -1
      else
        assert s[1..][..k] == s[1..k + 1];
        k + 1
  }

  /** The number a string of decimal digits denotes. */
  function DigitsValue(s: string): nat
    requires forall i :: 0 <= i < |s| ==> IsDigit(s[i])
  {
    if s == [] then 0 else 10 * DigitsValue(s[..|s| - 1]) + DigitValue(s[|s| - 1])
  }

  /** The decimal text of a natural number, as JavaScript's template strings print it. */
  function NatToString(n: nat): (s: string)
    ensures |s| > 0 && forall i :: 0 <= i < |s| ==> IsDigit(s[i])
    ensures DigitsValue(s) == n
    ensures s[0] == '0' <==> n == 0
    ensures |s| > 1 ==> s[0] != '0'
  {
    if n < 10 then
      var s := [DigitChar(n)];
      assert s[..0] == [];
      s
    else
      var t := NatToString(n / 10);
      var s := t + [DigitChar(n % 10)];
      assert s[..|s| - 1] == t;
      s
  }

  /** `${k}:1`. */
  function OddsText(k: nat): string {
    NatToString(k) + ":1"
  }

  /** The odds levels are the texts of 1:1 up to 6:1. */
  lemma OddsLevelsAreTexts(k: int)
    requires 1 <= k <= 6
    ensures ODDS_LEVELS[k - 1] == OddsText(k)
    ensures IndexOf(ODDS_LEVELS, OddsText(k)) == k - 1
  {
    assert NatToString(k) == [DigitChar(k)];
    assert OddsText(k) == [DigitChar(k), ':', '1'];
  }

  /** `resolveCombat`: an invalid die roll or an unknown odds level gives no effect. */
  function ResolveCombat(dieRoll: int, oddsLevel: string): (r: CombatResult)
    ensures dieRoll < 1 || dieRoll > 6 || oddsLevel !in ODDS_LEVELS ==> r == CombatResult.NE
  {
    if dieRoll < 1 || dieRoll > 6 then CombatResult.NE
    else
      var oddsIndex := IndexOf(ODDS_LEVELS, oddsLevel);
      if oddsIndex == -1 then CombatResult.NE else CRT[dieRoll - 1][oddsIndex]
  }

  /** A valid roll at the odds level k:1 reads row `dieRoll`, column k of the table. */
  lemma ResolveAtOdds(dieRoll: int, k: int)
    requires 1 <= dieRoll <= 6 && 1 <= k <= 6
    ensures ResolveCombat(dieRoll, OddsText(k)) == CRT[dieRoll - 1][k - 1]
  {
    OddsLevelsAreTexts(k);
  }

  /** The attacker can only lose at 1:1, on a roll of 6. */
  lemma AttackerLossOnlyAtOneToOne(dieRoll: int, oddsLevel: string)
    ensures ResolveCombat(dieRoll, oddsLevel) == AL <==> dieRoll == 6 && oddsLevel == "1:1"
  {
    OddsLevelsAreTexts(1);
    assert OddsText(1) == "1:1";
    if 1 <= dieRoll <= 6 {
      var i := IndexOf(ODDS_LEVELS, oddsLevel);
      if i != -1 {
        assert ODDS_LEVELS[i] == oddsLevel;
        assert oddsLevel == "1:1" <==> i == 0;
        AttackerLossCell(dieRoll - 1, i);
      }
    }
  }

  /** The only attacker-loss cell of the table is row 6, column 1:1. */
  lemma AttackerLossCell(row: int, col: int)
    requires 0 <= row < 6 && 0 <= col < 6
    ensures CRT[row][col] == AL <==> row == 5 && col == 0
  {
    assert forall r, c :: 0 <= r < 6 && 0 <= c < 6 ==> (CRT[r][c] == AL <==> r == 5 && c == 0);
  }

  /** At 6:1 every roll makes the defender retreat with a loss or be eliminated. */
  lemma SixToOneHurtsDefender(dieRoll: int)
    requires 1 <= dieRoll <= 6
    ensures ResolveCombat(dieRoll, "6:1") in {DRL, DE}
  {
    OddsLevelsAreTexts(6);
    assert OddsText(6) == "6:1";
  }

  /** Sample rows of the table. */
  lemma ResolveCombatExamples()
    ensures ResolveCombat(3, "3:1") == DR
    ensures ResolveCombat(6, "6:1") == DE
    ensures ResolveCombat(1, "1:1") == DR
    ensures ResolveCombat(0, "1:1") == CombatResult.NE && ResolveCombat(4, "7:1") == CombatResult.NE
  {
    OddsLevelsAreTexts(1);
    OddsLevelsAreTexts(3);
    OddsLevelsAreTexts(6);
    assert "7:1" !in ODDS_LEVELS;
  }

  // ---------------------------------------------------------------------
  // Sides and directions

  /** The side attacking in the current combat phase: Germans in phase 3, Soviets otherwise. */
  function GetCurrentCombatFaction(phase: int): (f: Faction)
    ensures f == German <==> phase == 3
  {
    if phase == 3 then German else Soviet
  }

  /** The side defending in the current combat phase. */
  function GetEnemyFaction(phase: int): (f: Faction)
    ensures f != GetCurrentCombatFaction(phase)
  {
    if phase == 3 then Soviet else German
  }

  /** `getDirection`: the side of `from` that `to` lies across, or null when they are not neighbours. */
  function GetDirection(from: HexId, to: HexId): (r: Option<Dir>)
  {
    var delta := (to.col - from.col, to.row - from.row);
    var even := IsEvenCol(from.col);
    if delta == Offset(even, N) then Some(N)
    else if delta == Offset(even, Dir.NE) then Some(Dir.NE)
    else if delta == Offset(even, SE) then Some(SE)
    else if delta == Offset(even, S) then Some(S)
    else if delta == Offset(even, SW) then Some(SW)
    else if delta == Offset(even, NW) then Some(NW)
    else None
  }

  /** The direction found is exactly the side whose step leads from `from` to `to`. */
  lemma GetDirectionIff(from: HexId, to: HexId, d: Dir)
    ensures GetDirection(from, to) == Some(d) <==> Step(from, d) == to
  {
  }

  /** A direction is found exactly for the neighbours the grid lists (for an on-map target). */
  lemma GetDirectionNeighbours(from: HexId, to: HexId)
    requires OnMap(to)
    ensures GetDirection(from, to).Some? <==> to in AdjacentHexes(from)
  {
    if GetDirection(from, to).Some? {
      GetDirectionIff(from, to, GetDirection(from, to).value);
    }
    if to in AdjacentHexes(from) {
      var d :| Step(from, d) == to;
      GetDirectionIff(from, to, d);
    }
  }

  /** `isAcrossRiver`: `hex1` lists a river on the side facing `hex2`. */
  predicate IsAcrossRiver(t: map<HexId, HexData>, hex1: HexId, hex2: HexId) {
    match GetDirection(hex1, hex2)
    case None => false
    case Some(d) => hex1 in t && d in t[hex1].river
  }

  /** On a table whose rivers are symmetric, a river between two hexes is seen from both. */
  lemma IsAcrossRiverSymmetric(t: map<HexId, HexData>, hex1: HexId, hex2: HexId)
    requires RiversSymmetric(t) && OnMap(hex1) && OnMap(hex2)
    requires IsAcrossRiver(t, hex1, hex2)
    ensures IsAcrossRiver(t, hex2, hex1)
  {
    var d := GetDirection(hex1, hex2).value;
    GetDirectionIff(hex1, hex2, d);
    assert RiverMatched(t, hex1, d);
    StepBack(hex1, d);
    GetDirectionIff(hex2, hex1, Opposite(d));
  }

  /** Every attacker lies across a river from the defender; false for no attackers. */
  predicate AllAcrossRiver(t: map<HexId, HexData>, defender: HexId, attackers: seq<HexId>) {
    |attackers| > 0 && forall i :: 0 <= i < |attackers| ==> IsAcrossRiver(t, attackers[i], defender)
  }

  /** Attackers all across a river are all neighbours of the defender. */
  lemma AllAcrossRiverAdjacent(t: map<HexId, HexData>, defender: HexId, attackers: seq<HexId>)
    requires OnMap(defender) && AllAcrossRiver(t, defender, attackers)
    ensures forall i :: 0 <= i < |attackers| ==> defender in AdjacentHexes(attackers[i])
  {
    forall i | 0 <= i < |attackers| ensures defender in AdjacentHexes(attackers[i]) {
      assert IsAcrossRiver(t, attackers[i], defender);
      GetDirectionNeighbours(attackers[i], defender);
    }
  }

  /** `areAllAttackersAcrossRiver`. */
  method AreAllAttackersAcrossRiver(t: map<HexId, HexData>, defender: HexId, attackers: seq<HexId>)
    returns (b: bool)
    ensures b <==> AllAcrossRiver(t, defender, attackers)
  {
    if |attackers| == 0 {
      return false;
    }
    var i := 0;
    while i < |attackers|
      invariant 0 <= i <= |attackers|
      invariant forall j :: 0 <= j < i ==> IsAcrossRiver(t, attackers[j], defender)
    {
      if !IsAcrossRiver(t, attackers[i], defender) {
        return false;
      }
      i := i + 1;
    }
    return true;
  }

  // ---------------------------------------------------------------------
  // Odds

  /** The odds modifiers, in the order they are applied; each shifts the odds down one level. */
  datatype Modifier = ForestModifier | MoscowModifier | FortificationModifier | RiverModifier

  function Rank(m: Modifier): nat {
    match m
    case ForestModifier => 0
    case MoscowModifier => 1
    case FortificationModifier => 2
    case RiverModifier => 3
  }

  /** The label shown for a modifier. */
  function ModifierLabel(m: Modifier): string {
    match m
    case ForestModifier => "Forest (-1)"
    case MoscowModifier => "Moscow (-1)"
    case FortificationModifier => "Fortification (-1)"
    case RiverModifier => "River (-1)"
  }

  /**
   * The modifiers that apply to a defender in `hex` of side `defenderFaction`,
   * `acrossRiver` telling whether every attacker is across a river.
   */
  function Modifiers(hex: HexData, defenderFaction: Faction, acrossRiver: bool): (r: seq<Modifier>)
    ensures ForestModifier in r <==> hex.terrain == Forest
    ensures MoscowModifier in r <==> hex.city == Some(Moscow)
    ensures FortificationModifier in r <==> hex.terrain == Fort && defenderFaction == Soviet
    ensures RiverModifier in r <==> acrossRiver
    ensures forall i, j :: 0 <= i < j < |r| ==> Rank(r[i]) < Rank(r[j])
  {
    (if hex.terrain == Forest then [ForestModifier] else []) +
    (if hex.city == Some(Moscow) then [MoscowModifier] else []) +
    (if hex.terrain == Fort && defenderFaction == Soviet then [FortificationModifier] else []) +
    (if acrossRiver then [RiverModifier] else [])
  }

  /** The result object of `calculateOdds`. */
  datatype OddsResult = OddsResult(
    attackStrength: nat,
    defenseStrength: nat,
    baseOdds: string,
    modifiedOdds: string,
    oddsLevel: Option<string>,
    oddsShift: int,
    modifiers: seq<Modifier>)

  /** The ratio after the shift, capped at 6 and not bounded below. */
  function ModifiedRatio(baseRatio: int, shift: int): (k: int)
    ensures k <= 6 && k <= baseRatio + shift
    ensures k == baseRatio + shift || k == 6
  {
    if baseRatio + shift > 6 then 6 else baseRatio + shift
  }

  /** The odds level of a capped ratio `k`: "k:1" from 1:1 to 6:1, none below. */
  function OddsLevel(k: int): (r: Option<string>)
    requires k <= 6
    ensures r.Some? <==> 1 <= k
    ensures r.Some? ==> r.value == ODDS_LEVELS[k - 1]
  {
    if 1 <= k then Some(ODDS_LEVELS[k - 1]) else None
  }

  /** The odds of `attack` against `defense` under the modifiers `mods`. */
  function OddsFor(attack: nat, defense: nat, mods: seq<Modifier>): (r: OddsResult)
    requires defense > 0
    ensures r.attackStrength == attack && r.defenseStrength == defense && r.modifiers == mods
    ensures r.oddsShift == -|mods|
    ensures r.oddsLevel == OddsLevel(ModifiedRatio(attack / defense, -|mods|))
  {
    var baseOddsRatio: nat := attack / defense;
    var oddsShift := -|mods|;
    var k := ModifiedRatio(baseOddsRatio, oddsShift);
    var modifiedOdds := if k >= 1 then OddsText(k) else "Below 1:1";
    OddsResult(attack, defense, OddsText(baseOddsRatio), modifiedOdds, OddsLevel(k), oddsShift, mods)
  }

  /**
   * The texts of the odds: the base odds read "a:1" for the floored ratio a,
   * the modified odds read "Below 1:1" exactly when the capped ratio is below
   * one, and otherwise the odds level.
   */
  lemma OddsForTexts(attack: nat, defense: nat, mods: seq<Modifier>)
    requires defense > 0
    ensures var r := OddsFor(attack, defense, mods);
            var k := ModifiedRatio(attack / defense, -|mods|);
            r.baseOdds == OddsText(attack / defense) &&
            (r.modifiedOdds == "Below 1:1" <==> k < 1) &&
            (r.oddsLevel.Some? ==> r.modifiedOdds == r.oddsLevel.value)
  {
    var k := ModifiedRatio(attack / defense, -|mods|);
    if 1 <= k {
      OddsLevelsAreTexts(k);
      assert OddsText(k)[0] != "Below 1:1"[0];
    }
  }

  /** Modifiers never improve the odds: the capped ratio is at most the floored ratio of the strengths. */
  lemma ModifiersOnlyLower(attack: nat, defense: nat, mods: seq<Modifier>)
    requires defense > 0
    ensures ModifiedRatio(attack / defense, -|mods|) <= attack / defense
    ensures attack < defense ==> OddsFor(attack, defense, mods).oddsLevel == None
  {
    var r := OddsFor(attack, defense, mods);
    if attack < defense {
      assert attack / defense == 0;
      assert r.oddsLevel == OddsLevel(ModifiedRatio(0, -|mods|));
    }
  }

  /**
   * Sample odds: 12 against 6 is 2:1, in a forest 1:1, and below 1:1 with
   * forest, Moscow and river together; 5 against 6 is below 1:1; 40 against
   * 4 is capped at 6:1.
   */
  lemma OddsExamples()
    ensures OddsFor(12, 6, []).oddsLevel == Some("2:1")
    ensures OddsFor(12, 6, [ForestModifier]).oddsLevel == Some("1:1")
    ensures OddsFor(5, 6, []).oddsLevel == None && OddsFor(5, 6, []).modifiedOdds == "Below 1:1"
    ensures OddsFor(40, 4, []).oddsLevel == Some("6:1") && OddsFor(40, 4, []).baseOdds == "10:1"
    ensures var r := OddsFor(12, 6, [ForestModifier, MoscowModifier, RiverModifier]);
            r.oddsShift == -3 && r.oddsLevel == None && r.modifiedOdds == "Below 1:1"
  {
    assert NatToString(10) == ['1', '0'];
  }

  /** The summed strength of the attackers present in the registry; missing hexes add nothing. */
  function AttackStrength(registry: map<HexId, Unit>, attackers: seq<HexId>): nat {
    if attackers == [] then 0
    else
      var last := attackers[|attackers| - 1];
      AttackStrength(registry, attackers[..|attackers| - 1]) + (if last in registry then registry[last].strength else 0)
  }

  /** The strength of two groups of attackers together is the sum of their strengths. */
  lemma {:induction false} AttackStrengthAppend(registry: map<HexId, Unit>, xs: seq<HexId>, ys: seq<HexId>)
    ensures AttackStrength(registry, xs + ys) == AttackStrength(registry, xs) + AttackStrength(registry, ys)
  {
    if ys == [] {
      assert xs + ys == xs;
    } else {
      var init := ys[..|ys| - 1];
      AttackStrengthAppend(registry, xs, init);
      assert (xs + ys)[..|xs + ys| - 1] == xs + init;
    }
  }

  /** `calculateOdds`: null when the defender hex holds no unit. */
  method CalculateOdds(registry: map<HexId, Unit>, t: map<HexId, HexData>, defenderHex: HexId, attackers: seq<HexId>)
    returns (r: Option<OddsResult>)
    requires defenderHex in registry ==> registry[defenderHex].strength > 0 && defenderHex in t
    ensures r.None? <==> defenderHex !in registry
    ensures r.Some? ==>
              r.value == OddsFor(AttackStrength(registry, attackers), registry[defenderHex].strength,
                                 Modifiers(t[defenderHex], registry[defenderHex].faction,
                                           AllAcrossRiver(t, defenderHex, attackers)))
  {
    if defenderHex !in registry {
      return None;
    }
    var defender := registry[defenderHex];
    var attackStrength := 0;
    var i := 0;
    while i < |attackers|
      invariant 0 <= i <= |attackers|
      invariant attackStrength == AttackStrength(registry, attackers[..i])
    {
      var attackerHex := attackers[i];
      if attackerHex in registry {
        attackStrength := attackStrength + registry[attackerHex].strength;
      }
      assert attackers[..i + 1][..i] == attackers[..i];
      i := i + 1;
    }
    assert attackers[..i] == attackers;
    var acrossRiver := AreAllAttackersAcrossRiver(t, defenderHex, attackers);
    var mods := Modifiers(t[defenderHex], defender.faction, acrossRiver);
    r := Some(OddsFor(attackStrength, defender.strength, mods));
  }

  // ---------------------------------------------------------------------
  // Declared battles

  /** A declared battle: one defender hex and the hexes attacking it. */
  datatype Battle = Battle(defender: HexId, attackers: seq<HexId>)

  /** The combat fields of the manager, as one value. */
  datatype CombatState = CombatState(
    declaredBattles: seq<Battle>,
    temporaryAttacker: Option<HexId>,
    unitsAttackedThisPhase: set<HexId>,
    unitsAttackingThisPhase: set<HexId>)

  /** The state at the start of a combat phase and after `clearBattles`. */
  const NO_BATTLES := CombatState([], None, {}, {})

  /** `s` without its k-th element (`splice(k, 1)`). */
  function RemoveAt<T>(s: seq<T>, k: nat): (r: seq<T>)
    requires k < |s|
    ensures |r| == |s| - 1
    ensures forall j :: 0 <= j < |r| ==> r[j] == if j < k then s[j] else s[j + 1]
  {
    s[..k] + s[k + 1..]
  }

  /** `declaredBattles.find(b => b.defender === d)`, as an index: the first battle against `d`, or -1. */
  function FindBattle(bs: seq<Battle>, d: HexId): (r: int)
    ensures r == -1 <==> forall i :: 0 <= i < |bs| ==> bs[i].defender != d
    ensures r != -1 ==> 0 <= r < |bs| && bs[r].defender == d && forall i :: 0 <= i < r ==> bs[i].defender != d
  {
    if bs == [] then -1
    else if bs[0].defender == d then 0
    else
      var k := FindBattle(bs[1..], d);
      if k == -1 then -1
      else
        assert forall i :: 1 <= i < k + 1 ==> bs[i] == bs[1..][i - 1];
        k + 1
  }

  /** The first battle whose attackers include `h`, or -1. */
  function BattleWith(bs: seq<Battle>, h: HexId): (r: int)
    ensures r == -1 <==> forall i :: 0 <= i < |bs| ==> h !in bs[i].attackers
    ensures r != -1 ==> 0 <= r < |bs| && h in bs[r].attackers && forall i :: 0 <= i < r ==> h !in bs[i].attackers
  {
    if bs == [] then -1
    else if h in bs[0].attackers then 0
    else
      var k := BattleWith(bs[1..], h);
      if k == -1 then -1
      else
        assert forall i :: 1 <= i < k + 1 ==> bs[i] == bs[1..][i - 1];
        k + 1
  }

  /** `onDefenderClick`: the pending attacker joins the battle against `defender`, opening it if needed. */
  function Declare(s: CombatState, defender: HexId): CombatState {
    match s.temporaryAttacker
    case None => s
    case Some(attacker) =>
      if defender !in AdjacentHexes(attacker) then s
      else
        var bs := s.declaredBattles;
        var k := FindBattle(bs, defender);
        var s1 :=
          if k != -1 then s.(declaredBattles := bs[k := bs[k].(attackers := bs[k].attackers + [attacker])])
          else s.(declaredBattles := bs + [Battle(defender, [attacker])],
                  unitsAttackedThisPhase := s.unitsAttackedThisPhase + {defender});
        s1.(unitsAttackingThisPhase := s1.unitsAttackingThisPhase + {attacker}, temporaryAttacker := None)
  }

  /** `cancelBattle`: the battle is dropped and its defender and attackers are released. */
  function Cancel(s: CombatState, battleIndex: int): CombatState {
    var bs := s.declaredBattles;
    if battleIndex < 0 || battleIndex >= |bs| then s
    else
      var battle := bs[battleIndex];
      s.(unitsAttackedThisPhase := s.unitsAttackedThisPhase - {battle.defender},
         unitsAttackingThisPhase := s.unitsAttackingThisPhase - (set x | x in battle.attackers),
         declaredBattles := RemoveAt(bs, battleIndex))
  }

  /** `removeAttackerFromBattle`: the attacker leaves the battle, which is cancelled once empty. */
  function Withdraw(s: CombatState, battleIndex: int, attacker: HexId): CombatState {
    var bs := s.declaredBattles;
    if battleIndex < 0 || battleIndex >= |bs| then s
    else
      var battle := bs[battleIndex];
      var k := IndexOf(battle.attackers, attacker);
      if k == -1 then s
      else
        var rest := RemoveAt(battle.attackers, k);
        var s1 := s.(declaredBattles := bs[battleIndex := battle.(attackers := rest)],
                     unitsAttackingThisPhase := s.unitsAttackingThisPhase - {attacker});
        if |rest| == 0 then Cancel(s1, battleIndex) else s1
  }

  /** Some neighbour of `h` holds a unit of the side defending in `phase`. */
  predicate HasAdjacentEnemy(registry: map<HexId, Unit>, phase: int, h: HexId) {
    exists n :: n in AdjacentHexes(h) && n in registry && registry[n].faction == GetEnemyFaction(phase)
  }

  /**
   * `onUnitClick` in a combat phase: clicking the pending attacker deselects
   * it, clicking a committed attacker withdraws it, and a unit with an
   * adjacent enemy becomes the pending attacker.
   */
  function UnitClick(s: CombatState, registry: map<HexId, Unit>, phase: int, h: HexId): CombatState {
    if h !in registry then s
    else if s.temporaryAttacker == Some(h) then s.(temporaryAttacker := None)
    else if h in s.unitsAttackingThisPhase then
      var i := BattleWith(s.declaredBattles, h);
      if i == -1 then s else Withdraw(s, i, h)
    else if !HasAdjacentEnemy(registry, phase, h) then s
    else s.(temporaryAttacker := Some(h))
  }

  // The invariant of the combat state.

  predicate NoDuplicates(xs: seq<HexId>) {
    forall p, q :: 0 <= p < q < |xs| ==> xs[p] != xs[q]
  }

  /** Some battle is against `x`. */
  predicate IsDefender(bs: seq<Battle>, x: HexId) {
    exists i :: 0 <= i < |bs| && bs[i].defender == x
  }

  /** `x` attacks in some battle. */
  predicate IsAttacker(bs: seq<Battle>, x: HexId) {
    exists i :: 0 <= i < |bs| && x in bs[i].attackers
  }

  /**
   * Battles have distinct defenders, no hex attacks twice, and every
   * attacker is a neighbour of its defender.
   */
  predicate BattlesDistinct(bs: seq<Battle>) {
    AttackersDisjoint(bs) &&
    (forall i, j :: 0 <= i < j < |bs| ==> bs[i].defender != bs[j].defender) &&
    (forall i, x :: 0 <= i < |bs| && x in bs[i].attackers ==> bs[i].defender in AdjacentHexes(x))
  }

  /** No hex attacks twice, within one battle or in two. */
  predicate AttackersDisjoint(bs: seq<Battle>) {
    (forall i :: 0 <= i < |bs| ==> NoDuplicates(bs[i].attackers)) &&
    (forall i, j, x :: 0 <= i < j < |bs| && x in bs[i].attackers ==> x !in bs[j].attackers)
  }

  /** The two sets list exactly the defenders and the attackers of the battles; the pending attacker is uncommitted. */
  ghost predicate SetsMatch(s: CombatState) {
    (forall x :: x in s.unitsAttackedThisPhase <==> IsDefender(s.declaredBattles, x)) &&
    (forall x :: x in s.unitsAttackingThisPhase <==> IsAttacker(s.declaredBattles, x)) &&
    (s.temporaryAttacker.Some? ==> s.temporaryAttacker.value !in s.unitsAttackingThisPhase)
  }

  predicate NoEmptyBattle(bs: seq<Battle>) {
    forall i :: 0 <= i < |bs| ==> |bs[i].attackers| > 0
  }

  /** The invariant every combat operation keeps. */
  ghost predicate Inv(s: CombatState) {
    BattlesDistinct(s.declaredBattles) && SetsMatch(s) && NoEmptyBattle(s.declaredBattles)
  }

  lemma EmptyStateInv()
    ensures Inv(NO_BATTLES)
  {
  }

  // Each edit of the battle list, and what it does to the defenders and attackers.

  /** Adding `a` to battle `k`. */
  lemma AddAttackerFacts(bs: seq<Battle>, k: nat, a: HexId)
    requires BattlesDistinct(bs) && k < |bs| && !IsAttacker(bs, a) && bs[k].defender in AdjacentHexes(a)
    ensures var bs' := bs[k := bs[k].(attackers := bs[k].attackers + [a])];
            BattlesDistinct(bs') &&
            (forall x :: IsAttacker(bs', x) <==> IsAttacker(bs, x) || x == a) &&
            (forall x :: IsDefender(bs', x) <==> IsDefender(bs, x))
  {
    AddAttackerDistinct(bs, k, a);
    AddAttackerSets(bs, k, a);
  }

  lemma AddAttackerDistinct(bs: seq<Battle>, k: nat, a: HexId)
    requires BattlesDistinct(bs) && k < |bs| && !IsAttacker(bs, a) && bs[k].defender in AdjacentHexes(a)
    ensures BattlesDistinct(bs[k := bs[k].(attackers := bs[k].attackers + [a])])
  {
    var bs' := bs[k := bs[k].(attackers := bs[k].attackers + [a])];
    AddAttackerDisjoint(bs, k, a);
    forall i, x | 0 <= i < |bs'| && x in bs'[i].attackers ensures bs'[i].defender in AdjacentHexes(x) {
      if i != k {
        assert bs'[i] == bs[i];
      } else if x != a {
        assert x in bs[k].attackers;
      }
    }
  }

  lemma AddAttackerDisjoint(bs: seq<Battle>, k: nat, a: HexId)
    requires AttackersDisjoint(bs) && k < |bs| && !IsAttacker(bs, a)
    ensures AttackersDisjoint(bs[k := bs[k].(attackers := bs[k].attackers + [a])])
  {
    var xs := bs[k].attackers;
    var ys := xs + [a];
    var bs' := bs[k := bs[k].(attackers := ys)];
    assert forall i :: 0 <= i < |bs| ==> a !in bs[i].attackers;
    assert forall x :: x in ys <==> x in xs || x == a;
    assert NoDuplicates(ys) by {
      forall p, q | 0 <= p < q < |ys| ensures ys[p] != ys[q] {
        assert ys[p] == xs[p];
      }
    }
    forall i, j, x | 0 <= i < j < |bs'| && x in bs'[i].attackers ensures x !in bs'[j].attackers {
      if i != k && j != k {
        assert x in bs[i].attackers && bs'[j] == bs[j];
      } else if i == k {
        assert bs'[j] == bs[j];
      } else {
        assert x in bs[i].attackers && x != a;
      }
    }
  }

  lemma AddAttackerSets(bs: seq<Battle>, k: nat, a: HexId)
    requires k < |bs|
    ensures var bs' := bs[k := bs[k].(attackers := bs[k].attackers + [a])];
            (forall x :: IsAttacker(bs', x) <==> IsAttacker(bs, x) || x == a) &&
            (forall x :: IsDefender(bs', x) <==> IsDefender(bs, x))
  {
    var bs' := bs[k := bs[k].(attackers := bs[k].attackers + [a])];
    forall x ensures IsAttacker(bs', x) <==> IsAttacker(bs, x) || x == a {
      if IsAttacker(bs', x) {
        var i :| 0 <= i < |bs'| && x in bs'[i].attackers;
        if x != a {
          assert x in bs[i].attackers;
        }
      }
      if IsAttacker(bs, x) {
        var i :| 0 <= i < |bs| && x in bs[i].attackers;
        assert x in bs'[i].attackers;
      }
      if x == a {
        assert x in bs'[k].attackers;
      }
    }
    forall x ensures IsDefender(bs', x) <==> IsDefender(bs, x) {
      if IsDefender(bs', x) {
        var i :| 0 <= i < |bs'| && bs'[i].defender == x;
        assert bs[i].defender == x;
      }
      if IsDefender(bs, x) {
        var i :| 0 <= i < |bs| && bs[i].defender == x;
        assert bs'[i].defender == x;
      }
    }
  }

  /** Opening a battle of `a` against `d`. */
  lemma NewBattleFacts(bs: seq<Battle>, d: HexId, a: HexId)
    requires BattlesDistinct(bs) && !IsDefender(bs, d) && !IsAttacker(bs, a) && d in AdjacentHexes(a)
    ensures var bs' := bs + [Battle(d, [a])];
            BattlesDistinct(bs') &&
            (forall x :: IsAttacker(bs', x) <==> IsAttacker(bs, x) || x == a) &&
            (forall x :: IsDefender(bs', x) <==> IsDefender(bs, x) || x == d)
  {
    NewBattleDistinct(bs, d, a);
    NewBattleSets(bs, d, a);
  }

  lemma NewBattleDistinct(bs: seq<Battle>, d: HexId, a: HexId)
    requires BattlesDistinct(bs) && !IsDefender(bs, d) && !IsAttacker(bs, a) && d in AdjacentHexes(a)
    ensures BattlesDistinct(bs + [Battle(d, [a])])
  {
    assert forall i :: 0 <= i < |bs| ==> a !in bs[i].attackers && bs[i].defender != d;
  }

  lemma NewBattleSets(bs: seq<Battle>, d: HexId, a: HexId)
    ensures var bs' := bs + [Battle(d, [a])];
            (forall x :: IsAttacker(bs', x) <==> IsAttacker(bs, x) || x == a) &&
            (forall x :: IsDefender(bs', x) <==> IsDefender(bs, x) || x == d)
  {
    var bs' := bs + [Battle(d, [a])];
    forall x ensures IsAttacker(bs', x) <==> IsAttacker(bs, x) || x == a {
      if IsAttacker(bs', x) {
        var i :| 0 <= i < |bs'| && x in bs'[i].attackers;
        if i < |bs| {
          assert x in bs[i].attackers;
        }
      }
      if IsAttacker(bs, x) {
        var i :| 0 <= i < |bs| && x in bs[i].attackers;
        assert x in bs'[i].attackers;
      }
      if x == a {
        assert x in bs'[|bs|].attackers;
      }
    }
    forall x ensures IsDefender(bs', x) <==> IsDefender(bs, x) || x == d {
      if IsDefender(bs', x) {
        var i :| 0 <= i < |bs'| && bs'[i].defender == x;
        if i < |bs| {
          assert bs[i].defender == x;
        }
      }
      if IsDefender(bs, x) {
        var i :| 0 <= i < |bs| && bs[i].defender == x;
        assert bs'[i].defender == x;
      }
      if x == d {
        assert bs'[|bs|].defender == x;
      }
    }
  }

  /** Dropping battle `i` keeps the others distinct. */
  lemma RemoveBattleDistinct(bs: seq<Battle>, i: nat)
    requires BattlesDistinct(bs) && i < |bs|
    ensures BattlesDistinct(RemoveAt(bs, i))
  {
    var bs' := RemoveAt(bs, i);
    forall p, q | 0 <= p < q < |bs'|
      ensures bs'[p].defender != bs'[q].defender
      ensures forall x :: x in bs'[p].attackers ==> x !in bs'[q].attackers
    {
      var p0 := if p < i then p else p + 1;
      var q0 := if q < i then q else q + 1;
      assert p0 < q0 && bs'[p] == bs[p0] && bs'[q] == bs[q0];
    }
    forall p | 0 <= p < |bs'|
      ensures NoDuplicates(bs'[p].attackers)
      ensures forall x :: x in bs'[p].attackers ==> bs'[p].defender in AdjacentHexes(x)
    {
      assert bs'[p] == bs[if p < i then p else p + 1];
    }
  }

  /** Dropping battle `i` releases exactly its attackers and its defender. */
  lemma RemoveBattleFacts(bs: seq<Battle>, i: nat)
    requires BattlesDistinct(bs) && i < |bs|
    ensures var bs' := RemoveAt(bs, i);
            BattlesDistinct(bs') &&
            (forall x :: IsAttacker(bs', x) <==> IsAttacker(bs, x) && x !in bs[i].attackers) &&
            (forall x :: IsDefender(bs', x) <==> IsDefender(bs, x) && x != bs[i].defender)
  {
    RemoveBattleDistinct(bs, i);
    RemoveBattleAttackers(bs, i);
    RemoveBattleDefenders(bs, i);
  }

  lemma RemoveBattleAttackers(bs: seq<Battle>, i: nat)
    requires AttackersDisjoint(bs) && i < |bs|
    ensures forall x :: IsAttacker(RemoveAt(bs, i), x) <==> IsAttacker(bs, x) && x !in bs[i].attackers
  {
    var bs' := RemoveAt(bs, i);
    forall x ensures IsAttacker(bs', x) <==> IsAttacker(bs, x) && x !in bs[i].attackers {
      if IsAttacker(bs', x) {
        var j :| 0 <= j < |bs'| && x in bs'[j].attackers;
        var j0 := if j < i then j else j + 1;
        assert x in bs[j0].attackers;
      }
      if IsAttacker(bs, x) && x !in bs[i].attackers {
        var j0 :| 0 <= j0 < |bs| && x in bs[j0].attackers;
        var j := if j0 < i then j0 else j0 - 1;
        assert x in bs'[j].attackers;
      }
    }
  }

  lemma RemoveBattleDefenders(bs: seq<Battle>, i: nat)
    requires i < |bs| && forall a, b :: 0 <= a < b < |bs| ==> bs[a].defender != bs[b].defender
    ensures forall x :: IsDefender(RemoveAt(bs, i), x) <==> IsDefender(bs, x) && x != bs[i].defender
  {
    var bs' := RemoveAt(bs, i);
    forall j | 0 <= j < |bs'| ensures bs'[j].defender == bs[if j < i then j else j + 1].defender {
    }
    forall x | IsDefender(bs', x) ensures IsDefender(bs, x) && x != bs[i].defender {
      var j :| 0 <= j < |bs'| && bs'[j].defender == x;
      var j0 := if j < i then j else j + 1;
      assert bs[j0].defender == x && j0 != i;
    }
    forall x | IsDefender(bs, x) && x != bs[i].defender ensures IsDefender(bs', x) {
      var j0 :| 0 <= j0 < |bs| && bs[j0].defender == x;
      var j := if j0 < i then j0 else j0 - 1;
      assert bs'[j].defender == x;
    }
  }

  /** Taking the k-th attacker out of battle `i`. */
  lemma RemoveAttackerFacts(bs: seq<Battle>, i: nat, k: nat)
    requires BattlesDistinct(bs) && i < |bs| && k < |bs[i].attackers|
    ensures var bs' := bs[i := bs[i].(attackers := RemoveAt(bs[i].attackers, k))];
            BattlesDistinct(bs') &&
            (forall x :: IsAttacker(bs', x) <==> IsAttacker(bs, x) && x != bs[i].attackers[k]) &&
            (forall x :: IsDefender(bs', x) <==> IsDefender(bs, x))
  {
    RemoveAttackerDistinct(bs, i, k);
    RemoveAttackerAttackers(bs, i, k);
    RemoveAttackerDefenders(bs, i, k);
  }

  lemma RemoveAttackerDistinct(bs: seq<Battle>, i: nat, k: nat)
    requires BattlesDistinct(bs) && i < |bs| && k < |bs[i].attackers|
    ensures BattlesDistinct(bs[i := bs[i].(attackers := RemoveAt(bs[i].attackers, k))])
  {
    var xs := bs[i].attackers;
    var rest := RemoveAt(xs, k);
    assert forall x :: x in rest ==> x in xs && x != xs[k];
    assert NoDuplicates(rest);
  }

  lemma RemoveAttackerAttackers(bs: seq<Battle>, i: nat, k: nat)
    requires AttackersDisjoint(bs) && i < |bs| && k < |bs[i].attackers|
    ensures forall x :: IsAttacker(bs[i := bs[i].(attackers := RemoveAt(bs[i].attackers, k))], x) <==>
                          IsAttacker(bs, x) && x != bs[i].attackers[k]
  {
    var bs' := bs[i := bs[i].(attackers := RemoveAt(bs[i].attackers, k))];
    forall x | IsAttacker(bs', x) ensures IsAttacker(bs, x) && x != bs[i].attackers[k] {
      RemainingAttackerWasThere(bs, i, k, x);
    }
    forall x | IsAttacker(bs, x) && x != bs[i].attackers[k] ensures IsAttacker(bs', x) {
      OtherAttackerStays(bs, i, k, x);
    }
  }

  /** An attacker left after the removal was an attacker before, and is not the one removed. */
  lemma RemainingAttackerWasThere(bs: seq<Battle>, i: nat, k: nat, x: HexId)
    requires AttackersDisjoint(bs) && i < |bs| && k < |bs[i].attackers|
    requires IsAttacker(bs[i := bs[i].(attackers := RemoveAt(bs[i].attackers, k))], x)
    ensures IsAttacker(bs, x) && x != bs[i].attackers[k]
  {
    var xs := bs[i].attackers;
    var bs' := bs[i := bs[i].(attackers := RemoveAt(xs, k))];
    var j :| 0 <= j < |bs'| && x in bs'[j].attackers;
    if j == i {
      var p :| 0 <= p < |xs| - 1 && RemoveAt(xs, k)[p] == x;
      assert xs[if p < k then p else p + 1] == x;
    } else {
      assert x in bs[j].attackers;
      assert xs[k] in bs[i].attackers;
    }
  }

  /** An attacker other than the one removed is still an attacker after the removal. */
  lemma OtherAttackerStays(bs: seq<Battle>, i: nat, k: nat, x: HexId)
    requires i < |bs| && k < |bs[i].attackers|
    requires IsAttacker(bs, x) && x != bs[i].attackers[k]
    ensures IsAttacker(bs[i := bs[i].(attackers := RemoveAt(bs[i].attackers, k))], x)
  {
    var xs := bs[i].attackers;
    var rest := RemoveAt(xs, k);
    var bs' := bs[i := bs[i].(attackers := rest)];
    var j :| 0 <= j < |bs| && x in bs[j].attackers;
    if j == i {
      var p :| 0 <= p < |xs| && xs[p] == x;
      assert rest[if p < k then p else p - 1] == x;
    }
    assert x in bs'[j].attackers;
  }

  lemma RemoveAttackerDefenders(bs: seq<Battle>, i: nat, k: nat)
    requires i < |bs| && k < |bs[i].attackers|
    ensures forall x :: IsDefender(bs[i := bs[i].(attackers := RemoveAt(bs[i].attackers, k))], x) <==> IsDefender(bs, x)
  {
    var bs' := bs[i := bs[i].(attackers := RemoveAt(bs[i].attackers, k))];
    forall x ensures IsDefender(bs', x) <==> IsDefender(bs, x) {
      if IsDefender(bs', x) {
        var j :| 0 <= j < |bs'| && bs'[j].defender == x;
        assert bs[j].defender == x;
      }
      if IsDefender(bs, x) {
        var j :| 0 <= j < |bs| && bs[j].defender == x;
        assert bs'[j].defender == x;
      }
    }
  }

  /** Declaring an attack keeps the invariant. */
  lemma InvDeclare(s: CombatState, defender: HexId)
    requires Inv(s)
    ensures Inv(Declare(s, defender))
  {
    if s.temporaryAttacker.Some? && defender in AdjacentHexes(s.temporaryAttacker.value) {
      if FindBattle(s.declaredBattles, defender) != -1 {
        InvDeclareJoin(s, defender);
      } else {
        InvDeclareOpen(s, defender);
      }
    }
  }

  /** Joining an existing battle keeps the invariant. */
  lemma InvDeclareJoin(s: CombatState, defender: HexId)
    requires Inv(s) && s.temporaryAttacker.Some? && defender in AdjacentHexes(s.temporaryAttacker.value)
    requires FindBattle(s.declaredBattles, defender) != -1
    ensures Inv(Declare(s, defender))
  {
    AddAttackerFacts(s.declaredBattles, FindBattle(s.declaredBattles, defender), s.temporaryAttacker.value);
  }

  /** Opening a new battle keeps the invariant. */
  lemma InvDeclareOpen(s: CombatState, defender: HexId)
    requires Inv(s) && s.temporaryAttacker.Some? && defender in AdjacentHexes(s.temporaryAttacker.value)
    requires FindBattle(s.declaredBattles, defender) == -1
    ensures Inv(Declare(s, defender))
  {
    NewBattleFacts(s.declaredBattles, defender, s.temporaryAttacker.value);
  }

  /**
   * Cancelling keeps the battles distinct and the sets matching; the
   * remaining battles are non-empty when all but the cancelled one were.
   */
  lemma CancelKeeps(s: CombatState, battleIndex: int)
    requires BattlesDistinct(s.declaredBattles) && SetsMatch(s)
    ensures var r := Cancel(s, battleIndex);
            BattlesDistinct(r.declaredBattles) && SetsMatch(r) &&
            ((forall j :: 0 <= j < |s.declaredBattles| && j != battleIndex ==> |s.declaredBattles[j].attackers| > 0) ==>
               NoEmptyBattle(r.declaredBattles))
  {
    if 0 <= battleIndex < |s.declaredBattles| {
      RemoveBattleFacts(s.declaredBattles, battleIndex);
    }
  }

  /** Cancelling keeps the invariant. */
  lemma InvCancel(s: CombatState, battleIndex: int)
    requires Inv(s)
    ensures Inv(Cancel(s, battleIndex))
  {
    CancelKeeps(s, battleIndex);
  }

  /** Withdrawing an attacker keeps the invariant. */
  lemma InvWithdraw(s: CombatState, battleIndex: int, attacker: HexId)
    requires Inv(s)
    ensures Inv(Withdraw(s, battleIndex, attacker))
  {
    var bs := s.declaredBattles;
    if 0 <= battleIndex < |bs| && attacker in bs[battleIndex].attackers {
      var i := battleIndex;
      var k := IndexOf(bs[i].attackers, attacker);
      RemoveAttackerFacts(bs, i, k);
      var rest := RemoveAt(bs[i].attackers, k);
      var s1 := s.(declaredBattles := bs[i := bs[i].(attackers := rest)],
                   unitsAttackingThisPhase := s.unitsAttackingThisPhase - {attacker});
      assert SetsMatch(s1);
      if |rest| == 0 {
        CancelKeeps(s1, i);
      }
    }
  }

  /** A click on a unit in a combat phase keeps the invariant. */
  lemma InvUnitClick(s: CombatState, registry: map<HexId, Unit>, phase: int, h: HexId)
    requires Inv(s)
    ensures Inv(UnitClick(s, registry, phase, h))
  {
    if h in registry && s.temporaryAttacker != Some(h) && h in s.unitsAttackingThisPhase {
      var i := BattleWith(s.declaredBattles, h);
      if i != -1 {
        InvWithdraw(s, i, h);
      }
    }
  }

  /**
   * A declared attack commits the pending attacker against `defender`: both
   * join their sets, the pending attacker is cleared, and a battle is opened
   * only when `defender` was not already attacked.
   */
  lemma DeclareEffect(s: CombatState, defender: HexId)
    requires Inv(s) && s.temporaryAttacker.Some? && defender in AdjacentHexes(s.temporaryAttacker.value)
    ensures var a := s.temporaryAttacker.value;
            var r := Declare(s, defender);
            r.temporaryAttacker == None &&
            r.unitsAttackingThisPhase == s.unitsAttackingThisPhase + {a} &&
            r.unitsAttackedThisPhase == s.unitsAttackedThisPhase + {defender} &&
            |r.declaredBattles| == |s.declaredBattles| + (if defender in s.unitsAttackedThisPhase then 0 else 1) &&
            exists i :: 0 <= i < |r.declaredBattles| && r.declaredBattles[i].defender == defender &&
                        a in r.declaredBattles[i].attackers
  {
    var a := s.temporaryAttacker.value;
    var r := Declare(s, defender);
    var k := FindBattle(s.declaredBattles, defender);
    if k != -1 {
      assert IsDefender(s.declaredBattles, defender);
      assert a in r.declaredBattles[k].attackers;
    } else {
      assert !IsDefender(s.declaredBattles, defender);
      assert a in r.declaredBattles[|s.declaredBattles|].attackers;
    }
  }

  /** Withdrawing the only attacker of a freshly declared battle restores the state before the declaration. */
  lemma DeclareThenWithdraw(s: CombatState, defender: HexId)
    requires Inv(s) && s.temporaryAttacker.Some? && defender in AdjacentHexes(s.temporaryAttacker.value)
    requires defender !in s.unitsAttackedThisPhase
    ensures Withdraw(Declare(s, defender), |s.declaredBattles|, s.temporaryAttacker.value) ==
              s.(temporaryAttacker := None)
  {
    var a := s.temporaryAttacker.value;
    var bs := s.declaredBattles;
    assert !IsDefender(bs, defender);
    assert FindBattle(bs, defender) == -1;
    var r := Declare(s, defender);
    assert r.declaredBattles == bs + [Battle(defender, [a])];
    assert IndexOf([a], a) == 0;
    var s1 := r.(declaredBattles := r.declaredBattles[|bs| := Battle(defender, [])],
                 unitsAttackingThisPhase := r.unitsAttackingThisPhase - {a});
    assert Withdraw(r, |bs|, a) == Cancel(s1, |bs|);
    assert RemoveAt(s1.declaredBattles, |bs|) == bs;
    assert (set x | x in Battle(defender, []).attackers) == {};
    assert s1.unitsAttackingThisPhase == s.unitsAttackingThisPhase;
    assert s1.unitsAttackedThisPhase - {defender} == s.unitsAttackedThisPhase;
  }

  /**
   * Withdrawing a committed attacker releases it and nothing else, except
   * that a battle left without attackers is dropped and its defender released.
   */
  lemma WithdrawEffect(s: CombatState, battleIndex: int, attacker: HexId)
    requires Inv(s) && 0 <= battleIndex < |s.declaredBattles|
    requires attacker in s.declaredBattles[battleIndex].attackers
    ensures var r := Withdraw(s, battleIndex, attacker);
            var battle := s.declaredBattles[battleIndex];
            r.temporaryAttacker == s.temporaryAttacker &&
            r.unitsAttackingThisPhase == s.unitsAttackingThisPhase - {attacker} &&
            (|battle.attackers| == 1 ==>
               r.declaredBattles == RemoveAt(s.declaredBattles, battleIndex) &&
               r.unitsAttackedThisPhase == s.unitsAttackedThisPhase - {battle.defender}) &&
            (|battle.attackers| > 1 ==>
               |r.declaredBattles| == |s.declaredBattles| &&
               (forall j :: 0 <= j < |s.declaredBattles| && j != battleIndex ==>
                  r.declaredBattles[j] == s.declaredBattles[j]) &&
               r.declaredBattles[battleIndex].defender == battle.defender &&
               multiset(r.declaredBattles[battleIndex].attackers) == multiset(battle.attackers) - multiset{attacker} &&
               r.unitsAttackedThisPhase == s.unitsAttackedThisPhase)
  {
    var bs := s.declaredBattles;
    var battle := bs[battleIndex];
    var a := battle.attackers;
    var k := IndexOf(a, attacker);
    var rest := RemoveAt(a, k);
    var s1 := s.(declaredBattles := bs[battleIndex := battle.(attackers := rest)],
                 unitsAttackingThisPhase := s.unitsAttackingThisPhase - {attacker});
    if |a| == 1 {
      assert rest == [];
      assert (set x | x in rest) == {};
      assert Withdraw(s, battleIndex, attacker) == Cancel(s1, battleIndex);
    } else {
      RemoveAtMultiset(a, k);
      assert Withdraw(s, battleIndex, attacker) == s1;
    }
  }

  lemma RemoveAtMultiset<T>(s: seq<T>, k: nat)
    requires k < |s|
    ensures multiset(RemoveAt(s, k)) == multiset(s) - multiset{s[k]}
  {
    assert s == s[..k] + [s[k]] + s[k + 1..];
  }

  /** The loop of `onUnitClick` that looks for an enemy unit next to `hexId`. */
  method HasAdjacentEnemies(registry: map<HexId, Unit>, phase: int, hexId: HexId) returns (found: bool)
    ensures found <==> HasAdjacentEnemy(registry, phase, hexId)
  {
    var adjacentHexes := AdjacentHexes(hexId);
    var enemyFaction := GetEnemyFaction(phase);
    found := false;
    var i := 0;
    while i < |adjacentHexes|
      invariant 0 <= i <= |adjacentHexes|
      invariant forall j :: 0 <= j < i ==> !(adjacentHexes[j] in registry && registry[adjacentHexes[j]].faction == enemyFaction)
    {
      var adjHexId := adjacentHexes[i];
      if adjHexId in registry && registry[adjHexId].faction == enemyFaction {
        found := true;
        break;
      }
      i := i + 1;
    }
  }

  /** The combat manager of the game: the battles declared in the current combat phase. */
  class CombatManager {
    var declaredBattles: seq<Battle>
    /** The friendly unit picked as attacker and waiting for a defender click. */
    var temporaryAttacker: Option<HexId>
    var unitsAttackedThisPhase: set<HexId>
    var unitsAttackingThisPhase: set<HexId>

    function State(): CombatState
      reads this
    {
      CombatState(declaredBattles, temporaryAttacker, unitsAttackedThisPhase, unitsAttackingThisPhase)
    }

    constructor ()
      ensures State() == NO_BATTLES && Inv(State())
    {
      declaredBattles := [];
      temporaryAttacker := None;
      unitsAttackedThisPhase := {};
      unitsAttackingThisPhase := {};
      new;
      EmptyStateInv();
    }

    /** `cancelBattle`. */
    method CancelBattle(battleIndex: int)
      modifies this
      ensures State() == Cancel(old(State()), battleIndex)
      ensures Inv(old(State())) ==> Inv(State())
    {
      if battleIndex < 0 || battleIndex >= |declaredBattles| {
        return;
      }
      var battle := declaredBattles[battleIndex];
      unitsAttackedThisPhase := unitsAttackedThisPhase - {battle.defender};
      var i := 0;
      while i < |battle.attackers|
        invariant 0 <= i <= |battle.attackers|
        invariant unitsAttackingThisPhase == old(unitsAttackingThisPhase) - (set x | x in battle.attackers[..i])
        invariant declaredBattles == old(declaredBattles) && temporaryAttacker == old(temporaryAttacker)
        invariant unitsAttackedThisPhase == old(unitsAttackedThisPhase) - {battle.defender}
      {
        assert battle.attackers[..i + 1] == battle.attackers[..i] + [battle.attackers[i]];
        unitsAttackingThisPhase := unitsAttackingThisPhase - {battle.attackers[i]};
        i := i + 1;
      }
      assert battle.attackers[..i] == battle.attackers;
      declaredBattles := RemoveAt(declaredBattles, battleIndex);
      if Inv(old(State())) {
        InvCancel(old(State()), battleIndex);
      }
    }

    /** `clearBattles`. */
    method ClearBattles()
      modifies this
      ensures State() == NO_BATTLES && Inv(State())
    {
      declaredBattles := [];
      temporaryAttacker := None;
      unitsAttackedThisPhase := {};
      unitsAttackingThisPhase := {};
      EmptyStateInv();
    }

    /** `removeAttackerFromBattle`. */
    method RemoveAttackerFromBattle(battleIndex: int, attackerHexId: HexId)
      modifies this
      ensures State() == Withdraw(old(State()), battleIndex, attackerHexId)
      ensures Inv(old(State())) ==> Inv(State())
    {
      if battleIndex < 0 || battleIndex >= |declaredBattles| {
        return;
      }
      var battle := declaredBattles[battleIndex];
      var attackerIndex := IndexOf(battle.attackers, attackerHexId);
      if attackerIndex == -1 {
        return;
      }
      var rest := RemoveAt(battle.attackers, attackerIndex);
      declaredBattles := declaredBattles[battleIndex := battle.(attackers := rest)];
      unitsAttackingThisPhase := unitsAttackingThisPhase - {attackerHexId};
      if |rest| == 0 {
        CancelBattle(battleIndex);
      }
      if Inv(old(State())) {
        InvWithdraw(old(State()), battleIndex, attackerHexId);
      }
    }

    /** `onDefenderClick`. */
    method OnDefenderClick(defenderHexId: HexId)
      modifies this
      ensures State() == Declare(old(State()), defenderHexId)
      ensures Inv(old(State())) ==> Inv(State())
    {
      if temporaryAttacker.None? {
        return;
      }
      var attackerHexId := temporaryAttacker.value;
      var adjacentHexes := AdjacentHexes(attackerHexId);
      if defenderHexId !in adjacentHexes {
        return;
      }
      var existingBattle := FindBattle(declaredBattles, defenderHexId);
      if existingBattle != -1 {
        var battle := declaredBattles[existingBattle];
        declaredBattles := declaredBattles[existingBattle := battle.(attackers := battle.attackers + [attackerHexId])];
      } else {
        declaredBattles := declaredBattles + [Battle(defenderHexId, [attackerHexId])];
        unitsAttackedThisPhase := unitsAttackedThisPhase + {defenderHexId};
      }
      unitsAttackingThisPhase := unitsAttackingThisPhase + {attackerHexId};
      temporaryAttacker := None;
      if Inv(old(State())) {
        InvDeclare(old(State()), defenderHexId);
      }
    }

    /** `onUnitClick` on a friendly unit during a combat phase. */
    method OnUnitClick(registry: map<HexId, Unit>, phase: int, hexId: HexId)
      modifies this
      ensures State() == UnitClick(old(State()), registry, phase, hexId)
      ensures Inv(old(State())) ==> Inv(State())
    {
      if Inv(State()) {
        InvUnitClick(State(), registry, phase, hexId);
      }
      if hexId !in registry {
        return;
      }
      if temporaryAttacker == Some(hexId) {
        temporaryAttacker := None;
        return;
      }
      if hexId in unitsAttackingThisPhase {
        var i := 0;
        while i < |declaredBattles|
          invariant 0 <= i <= |declaredBattles|
          invariant forall j :: 0 <= j < i ==> hexId !in declaredBattles[j].attackers
          invariant State() == old(State())
        {
          var attackerIndex := IndexOf(declaredBattles[i].attackers, hexId);
          if attackerIndex != -1 {
            RemoveAttackerFromBattle(i, hexId);
            return;
          }
          i := i + 1;
        }
        return;
      }
      var hasAdjacentEnemies := HasAdjacentEnemies(registry, phase, hexId);
      if !hasAdjacentEnemies {
        return;
      }
      temporaryAttacker := Some(hexId);
    }

    /**
     * The defender filter of `updateOddsBadges`: the neighbours of the pending
     * attacker holding an enemy unit that is not yet under attack.
     */
    method PotentialDefenders(registry: map<HexId, Unit>, phase: int) returns (defenders: set<HexId>)
      ensures temporaryAttacker.None? ==> defenders == {}
      ensures temporaryAttacker.Some? ==>
                forall n :: n in defenders <==>
                  n in AdjacentHexes(temporaryAttacker.value) && n in registry &&
                  registry[n].faction == GetEnemyFaction(phase) && n !in unitsAttackedThisPhase
    {
      defenders := {};
      if temporaryAttacker.None? {
        return;
      }
      var enemyFaction := GetEnemyFaction(phase);
      var adjacentHexes := AdjacentHexes(temporaryAttacker.value);
      var i := 0;
      while i < |adjacentHexes|
        invariant 0 <= i <= |adjacentHexes|
        invariant forall n :: n in defenders <==>
                    n in adjacentHexes[..i] && n in registry &&
                    registry[n].faction == enemyFaction && n !in unitsAttackedThisPhase
      {
        var adjHexId := adjacentHexes[i];
        if adjHexId in registry && registry[adjHexId].faction == enemyFaction && adjHexId !in unitsAttackedThisPhase {
          defenders := defenders + {adjHexId};
        }
        assert adjacentHexes[..i + 1] == adjacentHexes[..i] + [adjHexId];
        i := i + 1;
      }
      assert adjacentHexes[..i] == adjacentHexes;
    }
  }
}
