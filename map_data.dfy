/**
 * The static terrain map: per-hex terrain, city, rail, road and river
 * hexsides, the starting hexes of both sides, and the load-time check that
 * every river hexside is recorded on both of its hexes.
 */
module MapData {
  import opened Wrappers
  import opened HexUtils
  import opened UnitData

  datatype Terrain = Clear | Forest | Fort
  datatype City = Small | Moscow

  /** The attributes the terrain table lists for one hex; `city` is null when absent. */
  datatype HexRow = HexRow(terrain: Terrain, city: Option<City>, rail: seq<Dir>, road: seq<Dir>, river: seq<Dir>)

  /** One entry of the hex data; `city` and `setupSide` are null when absent. */
  datatype HexData = HexData(
    terrain: Terrain,
    city: Option<City>,
    setupSide: Option<Faction>,
    rail: seq<Dir>,
    road: seq<Dir>,
    river: seq<Dir>)

  const START_HEXES_SOVIET: seq<HexId> := [HexId(3, 1), HexId(3, 2), HexId(3, 3), HexId(3, 4), HexId(4, 5), HexId(5, 4), HexId(5, 5), HexId(5, 6), HexId(5, 7), HexId(5, 8), HexId(5, 9), HexId(5, 10), HexId(8, 3)]
  const START_HEXES_GERMAN: seq<HexId> := [HexId(1, 3), HexId(1, 4), HexId(1, 6), HexId(1, 7), HexId(2, 1), HexId(2, 2), HexId(2, 3), HexId(2, 4), HexId(2, 5), HexId(2, 6), HexId(2, 9), HexId(2, 10), HexId(3, 5), HexId(3, 6), HexId(3, 7), HexId(3, 9), HexId(3, 10), HexId(4, 6), HexId(4, 7), HexId(4, 8), HexId(4, 9), HexId(4, 10)]

  /** The terrain table, one entry per hex, column by column. */
  function HexRows(): (r: seq<HexRow>)
    ensures |r| == 140
  {
    Column(1) + Column(2) + Column(3) + Column(4) + Column(5) + Column(6) + Column(7) +
    Column(8) + Column(9) + Column(10) + Column(11) + Column(12) + Column(13) + Column(14)
  }

  /** The entries of column `col` of the terrain table, rows 1 to 10. */
  function Column(col: int): (r: seq<HexRow>)
    ensures |r| == 10
  {
    if col == 1 then [
      /* 0101 */ HexRow(Clear, None, [], [], []),
      /* 0102 */ HexRow(Clear, None, [NE, NW], [], []),
      /* 0103 */ HexRow(Clear, None, [], [], []),
      /* 0104 */ HexRow(Clear, None, [], [], []),
      /* 0105 */ HexRow(Clear, None, [NE, NW], [], [SE, S]),
      /* 0106 */ HexRow(Clear, None, [], [], [N]),
      /* 0107 */ HexRow(Clear, None, [], [], []),
      /* 0108 */ HexRow(Clear, None, [], [], []),
      /* 0109 */ HexRow(Clear, None, [], [], []),
      /* 0110 */ HexRow(Clear, None, [NE, NW], [], [])
    ]
    else if col == 2 then [
      /* 0201 */ HexRow(Forest, None, [SE, SW], [], []),
      /* 0202 */ HexRow(Forest, None, [], [], []),
      /* 0203 */ HexRow(Clear, None, [], [], []),
      /* 0204 */ HexRow(Clear, Some(Small), [SE, SW], [], [S]),
      /* 0205 */ HexRow(Clear, None, [N, SE], [], [N, NE, NW]),
      /* 0206 */ HexRow(Clear, None, [], [], []),
      /* 0207 */ HexRow(Forest, None, [], [], []),
      /* 0208 */ HexRow(Forest, None, [], [], []),
      /* 0209 */ HexRow(Clear, None, [SE, SW], [], []),
      /* 0210 */ HexRow(Clear, None, [], [], [])
    ]
    else if col == 3 then [
      /* 0301 */ HexRow(Forest, None, [], [], []),
      /* 0302 */ HexRow(Clear, None, [SE, SW], [], []),
      /* 0303 */ HexRow(Clear, None, [], [], []),
      /* 0304 */ HexRow(Clear, None, [], [], []),
      /* 0305 */ HexRow(Clear, None, [NE, NW], [], [SE, S, SW]),
      /* 0306 */ HexRow(Clear, None, [S, NW], [], [N]),
      /* 0307 */ HexRow(Clear, Some(Small), [N, SE], [], []),
      /* 0308 */ HexRow(Forest, None, [], [], []),
      /* 0309 */ HexRow(Clear, None, [], [], []),
      /* 0310 */ HexRow(Clear, None, [NE, NW], [], [])
    ]
    else if col == 4 then [
      /* 0401 */ HexRow(Forest, None, [SE, SW], [], []),
      /* 0402 */ HexRow(Clear, None, [], [], []),
      /* 0403 */ HexRow(Clear, None, [], [], [SE]),
      /* 0404 */ HexRow(Clear, None, [NE, SW], [], [NE, SE, S]),
      /* 0405 */ HexRow(Forest, None, [], [], [N, NW]),
      /* 0406 */ HexRow(Clear, None, [], [], []),
      /* 0407 */ HexRow(Clear, None, [SE, NW], [], []),
      /* 0408 */ HexRow(Forest, None, [], [], []),
      /* 0409 */ HexRow(Forest, None, [NE, SW], [], []),
      /* 0410 */ HexRow(Clear, None, [], [], [])
    ]
    else if col == 5 then [
      /* 0501 */ HexRow(Fort, None, [], [], []),
      /* 0502 */ HexRow(Fort, None, [NE, NW], [], []),
      /* 0503 */ HexRow(Fort, None, [], [], [SE, S]),
      /* 0504 */ HexRow(Fort, None, [NE, SW], [], [N, SE, SW, NW]),
      /* 0505 */ HexRow(Fort, None, [], [], [NE, SE, S, NW]),
      /* 0506 */ HexRow(Fort, None, [], [], [N]),
      /* 0507 */ HexRow(Fort, None, [], [], []),
      /* 0508 */ HexRow(Clear, None, [S, NW], [], []),
      /* 0509 */ HexRow(Clear, Some(Small), [NE, SE, S, SW], [], []),
      /* 0510 */ HexRow(Forest, None, [N, S], [], [])
    ]
    else if col == 6 then [
      /* 0601 */ HexRow(Clear, Some(Small), [SE, S, SW], [], []),
      /* 0602 */ HexRow(Clear, None, [N, S], [], []),
      /* 0603 */ HexRow(Clear, Some(Small), [N, SE, SW], [], [S, NW]),
      /* 0604 */ HexRow(Forest, None, [], [], [N, NE, SE, SW, NW]),
      /* 0605 */ HexRow(Clear, None, [], [], [NE, NW]),
      /* 0606 */ HexRow(Clear, None, [], [], []),
      /* 0607 */ HexRow(Clear, None, [], [], []),
      /* 0608 */ HexRow(Clear, None, [NE, SW], [], []),
      /* 0609 */ HexRow(Clear, None, [SE, NW], [], []),
      /* 0610 */ HexRow(Clear, None, [], [], [])
    ]
    else if col == 7 then [
      /* 0701 */ HexRow(Forest, None, [], [], []),
      /* 0702 */ HexRow(Forest, None, [SE, NW], [], []),
      /* 0703 */ HexRow(Forest, None, [], [], []),
      /* 0704 */ HexRow(Forest, None, [NE, NW], [], [SW]),
      /* 0705 */ HexRow(Clear, None, [], [], [S, SW, NW]),
      /* 0706 */ HexRow(Clear, None, [], [], [N, NE]),
      /* 0707 */ HexRow(Clear, None, [NE, S], [], []),
      /* 0708 */ HexRow(Forest, None, [N, SW], [], []),
      /* 0709 */ HexRow(Clear, None, [], [], []),
      /* 0710 */ HexRow(Clear, None, [NE, NW], [], [])
    ]
    else if col == 8 then [
      /* 0801 */ HexRow(Fort, None, [], [], []),
      /* 0802 */ HexRow(Fort, None, [SE, NW], [], []),
      /* 0803 */ HexRow(Fort, Some(Small), [NE, SW], [], []),
      /* 0804 */ HexRow(Fort, None, [], [], []),
      /* 0805 */ HexRow(Fort, Some(Small), [NE, S], [], [S, SW]),
      /* 0806 */ HexRow(Forest, None, [N, SW], [], [N, NE, SE]),
      /* 0807 */ HexRow(Clear, None, [], [], [NE, SE]),
      /* 0808 */ HexRow(Clear, None, [], [], [NE]),
      /* 0809 */ HexRow(Clear, Some(Small), [NE, S, SW], [], []),
      /* 0810 */ HexRow(Clear, None, [N, S], [], [])
    ]
    else if col == 9 then [
      /* 0901 */ HexRow(Forest, None, [], [], []),
      /* 0902 */ HexRow(Forest, None, [], [], []),
      /* 0903 */ HexRow(Clear, None, [], [], []),
      /* 0904 */ HexRow(Clear, None, [], [], [S]),
      /* 0905 */ HexRow(Forest, None, [], [], [N, NE]),
      /* 0906 */ HexRow(Forest, None, [], [], [SE, S, SW]),
      /* 0907 */ HexRow(Clear, None, [], [], [N, SW, NW]),
      /* 0908 */ HexRow(Clear, None, [], [], [S, SW, NW]),
      /* 0909 */ HexRow(Clear, None, [], [], [N, NE, SE]),
      /* 0910 */ HexRow(Clear, None, [], [], [NE, SE])
    ]
    else if col == 10 then [
      /* 1001 */ HexRow(Fort, None, [], [], [NE, SE]),
      /* 1002 */ HexRow(Fort, None, [], [], [NE, SE]),
      /* 1003 */ HexRow(Fort, None, [], [], [NE]),
      /* 1004 */ HexRow(Fort, None, [], [], [S, SW]),
      /* 1005 */ HexRow(Clear, None, [], [], [N, NE, SE, S]),
      /* 1006 */ HexRow(Clear, None, [], [], [N, NW]),
      /* 1007 */ HexRow(Clear, None, [], [], []),
      /* 1008 */ HexRow(Clear, None, [], [], [SW]),
      /* 1009 */ HexRow(Clear, None, [], [], [SW, NW]),
      /* 1010 */ HexRow(Clear, None, [], [], [NW])
    ]
    else if col == 11 then [
      /* 1101 */ HexRow(Clear, None, [], [], [SW]),
      /* 1102 */ HexRow(Fort, None, [], [], [SW, NW]),
      /* 1103 */ HexRow(Clear, Some(Moscow), [], [], [S, SW, NW]),
      /* 1104 */ HexRow(Fort, None, [], [], [N, NE]),
      /* 1105 */ HexRow(Fort, None, [], [], [SE, S, SW]),
      /* 1106 */ HexRow(Fort, None, [], [], [N, NW]),
      /* 1107 */ HexRow(Fort, Some(Small), [], [], []),
      /* 1108 */ HexRow(Clear, None, [], [], []),
      /* 1109 */ HexRow(Clear, None, [], [], []),
      /* 1110 */ HexRow(Clear, None, [], [], [])
    ]
    else if col == 12 then [
      /* 1201 */ HexRow(Forest, None, [], [], []),
      /* 1202 */ HexRow(Clear, None, [], [], []),
      /* 1203 */ HexRow(Fort, None, [], [], [S, SW]),
      /* 1204 */ HexRow(Clear, None, [], [], [N, NE, SE, S]),
      /* 1205 */ HexRow(Clear, None, [], [], [N, NW]),
      /* 1206 */ HexRow(Clear, None, [], [], []),
      /* 1207 */ HexRow(Clear, None, [], [], []),
      /* 1208 */ HexRow(Clear, None, [], [], []),
      /* 1209 */ HexRow(Clear, None, [], [], []),
      /* 1210 */ HexRow(Clear, None, [], [], [])
    ]
    else if col == 13 then [
      /* 1301 */ HexRow(Clear, None, [], [], []),
      /* 1302 */ HexRow(Clear, None, [], [], []),
      /* 1303 */ HexRow(Forest, None, [], [], []),
      /* 1304 */ HexRow(Clear, None, [], [], [S, SW]),
      /* 1305 */ HexRow(Clear, None, [], [], [N, NE, NW]),
      /* 1306 */ HexRow(Clear, None, [], [], []),
      /* 1307 */ HexRow(Clear, None, [], [], []),
      /* 1308 */ HexRow(Clear, None, [], [], []),
      /* 1309 */ HexRow(Clear, None, [], [], []),
      /* 1310 */ HexRow(Clear, None, [], [], [])
    ]
    else [
      /* 1401 */ HexRow(Clear, None, [], [], []),
      /* 1402 */ HexRow(Clear, None, [], [], []),
      /* 1403 */ HexRow(Clear, None, [], [], []),
      /* 1404 */ HexRow(Forest, None, [], [], [S, SW]),
      /* 1405 */ HexRow(Clear, Some(Small), [], [], [N, NE]),
      /* 1406 */ HexRow(Clear, None, [], [], []),
      /* 1407 */ HexRow(Clear, None, [], [], []),
      /* 1408 */ HexRow(Clear, None, [], [], []),
      /* 1409 */ HexRow(Clear, None, [], [], []),
      /* 1410 */ HexRow(Clear, None, [], [], [])
    ]
  }

  /** The ids of the table entries, in the order the table lists them: column by column, rows 1 to 10. */
  const HEX_ORDER: seq<HexId> := seq(140, i requires 0 <= i < 140 => HexId(i / 10 + 1, i % 10 + 1))

  /** The table's hexes are exactly those listed in `HEX_ORDER`. */
  lemma HexOrderCoversMap()
    ensures forall h :: h in HEX_ORDER <==> OnMap(h)
  {
    forall h | OnMap(h) ensures h in HEX_ORDER {
      assert HEX_ORDER[(h.col - 1) * 10 + (h.row - 1)] == h;
    }
  }

  /**
   * The order in which `Object.entries` visits the table's keys. Keys that
   * are canonical integers ("1001" to "1410", columns 10 to 14) come first in
   * ascending order; keys with a leading zero (columns 1 to 9) follow in the
   * order the table lists them.
   */
  const ENTRY_ORDER: seq<HexId> := HEX_ORDER[90..] + HEX_ORDER[..90]

  /** The entry order visits every on-map hex, and only those. */
  lemma EntryOrderCoversMap()
    ensures forall h :: h in ENTRY_ORDER <==> OnMap(h)
    ensures ENTRY_ORDER[0] == HexId(10, 1) && ENTRY_ORDER[50] == HexId(1, 1)
  {
    HexOrderCoversMap();
    assert forall h :: h in ENTRY_ORDER <==> h in HEX_ORDER[90..] || h in HEX_ORDER[..90];
    assert forall h :: h in HEX_ORDER <==> h in HEX_ORDER[90..] || h in HEX_ORDER[..90] by {
      assert HEX_ORDER == HEX_ORDER[..90] + HEX_ORDER[90..];
    }
  }

  /** The hex data built from a table of 140 rows listed column by column; no hex has a starting side yet. */
  function Keyed(rows: seq<HexRow>): map<HexId, HexData>
    requires |rows| == 140
  {
    map i | 0 <= i < 140 :: HexId(i / 10 + 1, i % 10 + 1) :=
      var row := rows[i];
      HexData(row.terrain, row.city, None, row.rail, row.road, row.river)
  }

  /** Every on-map hex has an entry, the entry of the i-th id of `HEX_ORDER` is the i-th row, and no entry has a side. */
  lemma KeyedSpec(rows: seq<HexRow>)
    requires |rows| == 140
    ensures forall h :: h in Keyed(rows) <==> OnMap(h)
    ensures forall i :: 0 <= i < 140 ==>
              var e := Keyed(rows)[HEX_ORDER[i]];
              e.terrain == rows[i].terrain && e.city == rows[i].city && e.rail == rows[i].rail &&
              e.road == rows[i].road && e.river == rows[i].river
    ensures forall h :: h in Keyed(rows) ==> Keyed(rows)[h].setupSide == None
  {
    HexOrderCoversMap();
  }

  /** Hexes in the Soviet setup area: column 3 rows 1-4, hex 0405, columns 5 and beyond. */
  predicate SovietArea(h: HexId) {
    (h.col == 3 && h.row <= 4) || (h.col == 4 && h.row == 5) || h.col >= 5
  }

  /** The two sides' starting hexes are on the map and do not overlap. */
  lemma StartHexesDisjoint()
    ensures forall h :: h in START_HEXES_GERMAN ==> OnMap(h) && h !in START_HEXES_SOVIET
    ensures forall h :: h in START_HEXES_SOVIET ==> OnMap(h)
  {
    assert forall i :: 0 <= i < |START_HEXES_SOVIET| ==> SovietArea(START_HEXES_SOVIET[i]) && OnMap(START_HEXES_SOVIET[i]);
    assert forall i :: 0 <= i < |START_HEXES_GERMAN| ==> !SovietArea(START_HEXES_GERMAN[i]) && OnMap(START_HEXES_GERMAN[i]);
  }

  /** `t` with every hex of `hexes` that `t` has an entry for marked as a starting hex of `side`. */
  function WithSide(t: map<HexId, HexData>, hexes: seq<HexId>, side: Faction): (r: map<HexId, HexData>)
  {
    if hexes == [] then t
    else
      var r := WithSide(t, hexes[..|hexes| - 1], side);
      var h := hexes[|hexes| - 1];
      if h in r then r[h := r[h].(setupSide := Some(side))] else r
  }

  /** Marking keeps the table's hexes and changes only the starting side of the listed ones. */
  lemma {:induction false} WithSideSpec(t: map<HexId, HexData>, hexes: seq<HexId>, side: Faction)
    ensures WithSide(t, hexes, side).Keys == t.Keys
    ensures forall h :: h in t ==>
              WithSide(t, hexes, side)[h] ==
                if h in hexes then t[h].(setupSide := Some(side)) else t[h]
  {
    if hexes != [] {
      WithSideSpec(t, hexes[..|hexes| - 1], side);
      assert hexes == hexes[..|hexes| - 1] + [hexes[|hexes| - 1]];
    }
  }

  /**
   * After construction every Soviet starting hex is marked Soviet, every
   * German starting hex German, and every other hex keeps a null side; the
   * other attributes are those of the table.
   */
  lemma StartingSides(rows: seq<HexRow>, h: HexId)
    requires |rows| == 140
    ensures var t := WithSide(WithSide(Keyed(rows), START_HEXES_GERMAN, German), START_HEXES_SOVIET, Soviet);
            (!OnMap(h) ==> h !in t) &&
            (OnMap(h) ==>
               h in Keyed(rows) && h in t &&
               t[h] == Keyed(rows)[h].(setupSide :=
                 if h in START_HEXES_SOVIET then Some(Soviet)
                 else if h in START_HEXES_GERMAN then Some(German)
                 else None))
  {
    KeyedSpec(rows);
    WithSideSpec(Keyed(rows), START_HEXES_GERMAN, German);
    WithSideSpec(WithSide(Keyed(rows), START_HEXES_GERMAN, German), START_HEXES_SOVIET, Soviet);
  }

  // ---------------------------------------------------------------------
  // River symmetry

  /** `getAdjacentHexInDirection`: the hex across side `d`, or null at the map edge. */
  function AdjacentHexInDirection(h: HexId, d: Dir): (r: Option<HexId>)
    ensures r.None? <==> !OnMap(Step(h, d))
    ensures r.Some? ==> r.value == Step(h, d) && r.value in AdjacentHexes(h)
  {
    var n := Step(h, d);
    if n.col < 1 || n.col > 14 || n.row < 1 || n.row > 10 then None else Some(n)
  }

  /** The neighbours found side by side are exactly the neighbours the grid lists. */
  lemma AdjacentHexInDirectionAgrees(h: HexId, n: HexId)
    ensures n in AdjacentHexes(h) <==> exists d :: AdjacentHexInDirection(h, d) == Some(n)
  {
    if n in AdjacentHexes(h) {
      var d :| Step(h, d) == n;
      assert AdjacentHexInDirection(h, d) == Some(n);
    }
  }

  /** A reported asymmetry; each names both hexes and both hexsides involved. */
  datatype RiverError =
    | MissingNeighbour(hex: HexId, dir: Dir, neighbour: HexId)
    | MissingReciprocal(hex: HexId, dir: Dir, neighbour: HexId, expected: Dir)

  /** The error, if any, for the river that `h` lists on side `d`. */
  function EdgeError(t: map<HexId, HexData>, h: HexId, d: Dir): Option<RiverError> {
    match AdjacentHexInDirection(h, d)
    case None => None
    case Some(n) =>
      if n !in t then Some(MissingNeighbour(h, d, n))
      else if Opposite(d) !in t[n].river then Some(MissingReciprocal(h, d, n, Opposite(d)))
      else None
  }

  function ErrorList(e: Option<RiverError>): seq<RiverError> {
    if e.Some? then [e.value] else []
  }

  /** The errors for the rivers `dirs` of hex `h`, in order. */
  function HexErrors(t: map<HexId, HexData>, h: HexId, dirs: seq<Dir>): seq<RiverError> {
    if dirs == [] then []
    else HexErrors(t, h, dirs[..|dirs| - 1]) + ErrorList(EdgeError(t, h, dirs[|dirs| - 1]))
  }

  /** The rivers listed for `h`; none when the table has no entry for it. */
  function RiversOf(t: map<HexId, HexData>, h: HexId): seq<Dir> {
    if h in t then t[h].river else []
  }

  /** The errors for every river of the hexes `order`, in order. */
  function RiverErrors(t: map<HexId, HexData>, order: seq<HexId>): seq<RiverError> {
    if order == [] then []
    else
      var h := order[|order| - 1];
      RiverErrors(t, order[..|order| - 1]) + HexErrors(t, h, RiversOf(t, h))
  }

  /** The number of river entries of the hexes `order`. */
  function RiverCount(t: map<HexId, HexData>, order: seq<HexId>): nat {
    if order == [] then 0
    else RiverCount(t, order[..|order| - 1]) + |RiversOf(t, order[|order| - 1])|
  }

  lemma RiverErrorsStep(t: map<HexId, HexData>, order: seq<HexId>, i: nat)
    requires i < |order|
    ensures RiverErrors(t, order[..i + 1]) == RiverErrors(t, order[..i]) + HexErrors(t, order[i], RiversOf(t, order[i]))
    ensures RiverCount(t, order[..i + 1]) == RiverCount(t, order[..i]) + |RiversOf(t, order[i])|
  {
    assert order[..i + 1][..i] == order[..i];
  }

  lemma HexErrorsStep(t: map<HexId, HexData>, h: HexId, dirs: seq<Dir>, j: nat)
    requires j < |dirs|
    ensures HexErrors(t, h, dirs[..j + 1]) == HexErrors(t, h, dirs[..j]) + ErrorList(EdgeError(t, h, dirs[j]))
  {
    assert dirs[..j + 1][..j] == dirs[..j];
  }

  /** The river on side `d` of `h` faces the map edge, or is recorded on the neighbour's opposite side. */
  predicate RiverMatched(t: map<HexId, HexData>, h: HexId, d: Dir) {
    OnMap(Step(h, d)) ==> Step(h, d) in t && Opposite(d) in t[Step(h, d)].river
  }

  /** Every river hexside of the table is recorded on both of its hexes. */
  predicate RiversSymmetric(t: map<HexId, HexData>) {
    forall h, d :: h in t && d in t[h].river ==> RiverMatched(t, h, d)
  }

  /** An error is raised for a river exactly when it is not matched. */
  lemma EdgeErrorIffUnmatched(t: map<HexId, HexData>, h: HexId, d: Dir)
    ensures EdgeError(t, h, d).None? <==> RiverMatched(t, h, d)
    ensures EdgeError(t, h, d).Some? ==>
              EdgeError(t, h, d).value.hex == h && EdgeError(t, h, d).value.dir == d &&
              EdgeError(t, h, d).value.neighbour == Step(h, d)
  {
  }

  lemma {:induction false} HexErrorsMembers(t: map<HexId, HexData>, h: HexId, dirs: seq<Dir>, e: RiverError)
    ensures e in HexErrors(t, h, dirs) <==> exists d :: d in dirs && EdgeError(t, h, d) == Some(e)
  {
    if dirs != [] {
      var init := dirs[..|dirs| - 1];
      HexErrorsMembers(t, h, init, e);
      assert dirs == init + [dirs[|dirs| - 1]];
    }
  }

  /** The reported errors are exactly the errors of the individual rivers. */
  lemma {:induction false} RiverErrorsMembers(t: map<HexId, HexData>, order: seq<HexId>, e: RiverError)
    ensures e in RiverErrors(t, order) <==>
              exists h, d :: h in order && d in RiversOf(t, h) && EdgeError(t, h, d) == Some(e)
  {
    if order != [] {
      var init := order[..|order| - 1];
      var last := order[|order| - 1];
      assert order == init + [last];
      RiverErrorsMembers(t, init, e);
      HexErrorsMembers(t, last, RiversOf(t, last), e);
      if e in RiverErrors(t, order) {
        if e in RiverErrors(t, init) {
          var h, d :| h in init && d in RiversOf(t, h) && EdgeError(t, h, d) == Some(e);
          assert h in order;
        } else {
          var d :| d in RiversOf(t, last) && EdgeError(t, last, d) == Some(e);
          assert last in order;
        }
      }
      if exists h, d :: h in order && d in RiversOf(t, h) && EdgeError(t, h, d) == Some(e) {
        var h, d :| h in order && d in RiversOf(t, h) && EdgeError(t, h, d) == Some(e);
        if h in init {
          assert e in RiverErrors(t, init);
        } else {
          assert h == last;
        }
      }
    }
  }

  /** No error is reported for a table whose hexes are all listed in `order` iff its rivers are symmetric. */
  lemma RiverErrorsEmptyIffSymmetric(t: map<HexId, HexData>, order: seq<HexId>)
    requires forall h :: h in t <==> h in order
    ensures RiverErrors(t, order) == [] <==> RiversSymmetric(t)
  {
    if RiverErrors(t, order) != [] {
      var e := RiverErrors(t, order)[0];
      RiverErrorsMembers(t, order, e);
      var h, d :| h in order && d in RiversOf(t, h) && EdgeError(t, h, d) == Some(e);
      EdgeErrorIffUnmatched(t, h, d);
    } else {
      forall h, d | h in t && d in t[h].river ensures RiverMatched(t, h, d) {
        EdgeErrorIffUnmatched(t, h, d);
        if EdgeError(t, h, d).Some? {
          RiverErrorsMembers(t, order, EdgeError(t, h, d).value);
        }
      }
    }
  }

  // ---------------------------------------------------------------------
  // The map object

  class MapData {
    const startHexesSoviet: seq<HexId>
    const startHexesGerman: seq<HexId>
    /** The order in which the validation visits the table's entries. */
    const hexOrder: seq<HexId>
    var hexData: map<HexId, HexData>

    /** Every entry of the table is listed in `hexOrder`, and only those. */
    ghost predicate Valid()
      reads this
    {
      forall h :: h in hexData <==> h in hexOrder
    }

    /** Loads the table and marks the German, then the Soviet, starting hexes with their side. */
    constructor ()
      ensures startHexesSoviet == START_HEXES_SOVIET && startHexesGerman == START_HEXES_GERMAN
      ensures hexOrder == ENTRY_ORDER
      ensures Valid()
      ensures hexData == WithSide(WithSide(Keyed(HexRows()), START_HEXES_GERMAN, German), START_HEXES_SOVIET, Soviet)
    {
      startHexesSoviet := START_HEXES_SOVIET;
      startHexesGerman := START_HEXES_GERMAN;
      hexOrder := ENTRY_ORDER;
      var rows := HexRows();
      hexData := Keyed(rows);
      new;
      ghost var table := hexData;
      MarkStartingHexes(startHexesGerman, German);
      ghost var germanMarked := hexData;
      MarkStartingHexes(startHexesSoviet, Soviet);
      WithSideSpec(table, startHexesGerman, German);
      WithSideSpec(germanMarked, startHexesSoviet, Soviet);
      KeyedSpec(rows);
      EntryOrderCoversMap();
    }

    /** One `forEach` pass of the constructor: marks each listed hex that has an entry as a starting hex of `side`. */
    method MarkStartingHexes(hexes: seq<HexId>, side: Faction)
      modifies this
      ensures hexData == WithSide(old(hexData), hexes, side)
    {
      var i := 0;
      while i < |hexes|
        invariant 0 <= i <= |hexes|
        invariant hexData == WithSide(old(hexData), hexes[..i], side)
      {
        var hexId := hexes[i];
        if hexId in hexData {
          hexData := hexData[hexId := hexData[hexId].(setupSide := Some(side))];
        }
        assert hexes[..i + 1][..i] == hexes[..i];
        i := i + 1;
      }
      assert hexes[..i] == hexes;
    }

    /**
     * The inner loop of `validateRiverData` for hex `hexId`: checks each of
     * its river entries `rivers` in turn, counting them and collecting an
     * error for each that its neighbour does not match.
     */
    method CheckHexRivers(hexId: HexId, rivers: seq<Dir>) returns (found: seq<RiverError>, count: nat)
      ensures found == HexErrors(hexData, hexId, rivers)
      ensures count == |rivers|
    {
      found := [];
      count := 0;
      var j := 0;
      while j < |rivers|
        invariant 0 <= j <= |rivers|
        invariant found == HexErrors(hexData, hexId, rivers[..j])
        invariant count == j
      {
        var direction := rivers[j];
        count := count + 1;
        var neighbour := AdjacentHexInDirection(hexId, direction);
        if neighbour.Some? {
          var neighbourId := neighbour.value;
          if neighbourId !in hexData {
            found := found + [MissingNeighbour(hexId, direction, neighbourId)];
          } else {
            var expected := Opposite(direction);
            if expected !in hexData[neighbourId].river {
              found := found + [MissingReciprocal(hexId, direction, neighbourId, expected)];
            }
          }
        }
        HexErrorsStep(hexData, hexId, rivers, j);
        j := j + 1;
      }
      assert rivers[..j] == rivers;
    }

    /**
     * Checks every river entry of every hex, in entry order. `checked` counts
     * the entries looked at; an error is recorded for each entry whose
     * neighbour is missing from the table or lacks the opposite river.
     */
    method ValidateRiverData() returns (valid: bool, errors: seq<RiverError>, checked: nat)
      requires Valid()
      ensures checked == RiverCount(hexData, hexOrder)
      ensures errors == RiverErrors(hexData, hexOrder)
      ensures valid <==> errors == []
      ensures valid <==> RiversSymmetric(hexData)
    {
      errors := [];
      checked := 0;
      var i := 0;
      while i < |hexOrder|
        invariant 0 <= i <= |hexOrder|
        invariant errors == RiverErrors(hexData, hexOrder[..i])
        invariant checked == RiverCount(hexData, hexOrder[..i])
      {
        var hexId := hexOrder[i];
        var found, count := CheckHexRivers(hexId, RiversOf(hexData, hexId));
        errors := errors + found;
        checked := checked + count;
        RiverErrorsStep(hexData, hexOrder, i);
        i := i + 1;
      }
      assert hexOrder[..i] == hexOrder;
      valid := |errors| == 0;
      RiverErrorsEmptyIffSymmetric(hexData, hexOrder);
    }
  }
}
