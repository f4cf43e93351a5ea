/**
 * Geometry of the offset-column hex grid: neighbour enumeration, the
 * textual hex id, and the conversion between hexes and map pixels.
 */
module HexUtils {
  import opened Wrappers

  // Grid parameters
  const HEX_WIDTH := 57        // horizontal spacing between columns
  const HEX_HEIGHT := 65       // vertical spacing between rows
  const HEX_VERT_OFFSET := 33  // vertical offset of even columns
  const HEX_ORIGIN_X := 38     // pixel x of the origin hex centre
  const HEX_ORIGIN_Y := 230    // pixel y of the origin hex centre
  const HEX_ORIGIN_COL := 1
  const HEX_ORIGIN_ROW := 4

  // Grid boundaries
  const MIN_ROW := 1
  const MAX_ROW := 10
  const MIN_COL := 1
  const MAX_COL := 14

  // Size of a unit counter, used to put a counter's top-left corner on a hex
  const UNIT_WIDTH := 44
  const UNIT_HEIGHT := 44

  /** The six hexsides, in the order the neighbour tables list them. */
  datatype Dir = N | NE | SE | S | SW | NW

  /** A hex, as the column and row parsed out of its `CCRR` id. */
  datatype HexId = HexId(col: int, row: int)

  predicate OnMap(h: HexId) {
    MIN_COL <= h.col <= MAX_COL && MIN_ROW <= h.row <= MAX_ROW
  }

  predicate IsEvenCol(col: int) {
    col % 2 == 0
  }

  /** The (column, row) offset of direction `d`, by column parity. */
  function Offset(evenCol: bool, d: Dir): (int, int) {
    if evenCol then
      match d
      case N => (0, -1)
      case NE => (1, 0)
      case SE => (1, 1)
      case S => (0, 1)
      case SW => (-1, 1)
      case NW => (-1, 0)
    else
      match d
      case N => (0, -1)
      case NE => (1, -1)
      case SE => (1, 0)
      case S => (0, 1)
      case SW => (-1, 0)
      case NW => (-1, -1)
  }

  /** The hex across side `d` of `h`, whether or not it lies on the map. */
  function Step(h: HexId, d: Dir): HexId {
    var off := Offset(IsEvenCol(h.col), d);
    HexId(h.col + off.0, h.row + off.1)
  }

  /** The hexside facing `d`: N-S, NE-SW, SE-NW. */
  function Opposite(d: Dir): (r: Dir)
    ensures r != d
  {
    match d
    case N => S
    case NE => SW
    case SE => NW
    case S => N
    case SW => NE
    case NW => SE
  }

  lemma OppositeInvolution(d: Dir)
    ensures Opposite(Opposite(d)) == d
  {
  }

  /** Stepping across a side and back across the opposite side returns home. */
  lemma StepBack(h: HexId, d: Dir)
    ensures Step(Step(h, d), Opposite(d)) == h
  {
    assert IsEvenCol(h.col + 1) != IsEvenCol(h.col);
    assert IsEvenCol(h.col - 1) != IsEvenCol(h.col);
  }

  /** `r` lists some of the hexes of `c`, in the order `c` lists them. */
  predicate IsSubsequence(r: seq<HexId>, c: seq<HexId>)
    decreases |c|
  {
    if r == [] then true
    else if c == [] then false
    else if r[0] == c[0] then IsSubsequence(r[1..], c[1..])
    else IsSubsequence(r, c[1..])
  }

  /** Keeps the on-map hexes of `cands`, in their order. */
  function OnMapOnly(cands: seq<HexId>): (r: seq<HexId>)
    ensures |r| <= |cands|
    ensures forall n :: n in r <==> n in cands && OnMap(n)
    ensures (forall i, j :: 0 <= i < j < |cands| ==> cands[i] != cands[j]) ==>
              forall i, j :: 0 <= i < j < |r| ==> r[i] != r[j]
    ensures IsSubsequence(r, cands)
  {
    if cands == [] then []
    else if OnMap(cands[0]) then
      var rest := OnMapOnly(cands[1..]);
      assert ([cands[0]] + rest)[1..] == rest;
      [cands[0]] + rest
    else OnMapOnly(cands[1..])
  }

  /** `c` lists `a` at some position and `b` at a later one. */
  predicate Precedes(c: seq<HexId>, a: HexId, b: HexId)
  {
    exists p, q :: 0 <= p < q < |c| && c[p] == a && c[q] == b
  }

  lemma PrecedesFromHead(c: seq<HexId>, b: HexId)
    requires c != [] && b in c[1..]
    ensures Precedes(c, c[0], b)
  {
    var q' :| 0 <= q' < |c[1..]| && c[1..][q'] == b;
    assert c[q' + 1] == b;
  }

  lemma PrecedesInTail(c: seq<HexId>, a: HexId, b: HexId)
    requires c != [] && Precedes(c[1..], a, b)
    ensures Precedes(c, a, b)
  {
    var p', q' :| 0 <= p' < q' < |c[1..]| && c[1..][p'] == a && c[1..][q'] == b;
    assert c[p' + 1] == a && c[q' + 1] == b;
  }

  lemma {:induction false} SubsequenceMembers(r: seq<HexId>, c: seq<HexId>)
    requires IsSubsequence(r, c)
    ensures forall x :: x in r ==> x in c
    decreases |c|
  {
    if r != [] {
      if r[0] == c[0] {
        SubsequenceMembers(r[1..], c[1..]);
        assert r == [r[0]] + r[1..] && c == [c[0]] + c[1..];
      } else {
        SubsequenceMembers(r, c[1..]);
        assert c == [c[0]] + c[1..];
      }
    }
  }

  /** Whatever a subsequence lists in some order, the sequence lists in that order. */
  lemma {:induction false} SubsequenceOrder(r: seq<HexId>, c: seq<HexId>)
    requires IsSubsequence(r, c)
    ensures forall i, j :: 0 <= i < j < |r| ==> Precedes(c, r[i], r[j])
    decreases |c|
  {
    if r != [] {
      if r[0] == c[0] {
        SubsequenceOrder(r[1..], c[1..]);
        SubsequenceMembers(r[1..], c[1..]);
        forall i, j | 0 <= i < j < |r| ensures Precedes(c, r[i], r[j]) {
          assert r[j] == r[1..][j - 1];
          if i == 0 {
            PrecedesFromHead(c, r[j]);
          } else {
            assert r[i] == r[1..][i - 1];
            PrecedesInTail(c, r[i], r[j]);
          }
        }
      } else {
        SubsequenceOrder(r, c[1..]);
        forall i, j | 0 <= i < j < |r| ensures Precedes(c, r[i], r[j]) {
          PrecedesInTail(c, r[i], r[j]);
        }
      }
    }
  }

  /** The directions in the order the neighbour tables list them. */
  const DIRECTIONS: seq<Dir> := [N, NE, SE, S, SW, NW]

  /** The six candidate neighbours of `h`, in the order N, NE, SE, S, SW, NW. */
  function Candidates(h: HexId): seq<HexId> {
    [Step(h, N), Step(h, NE), Step(h, SE), Step(h, S), Step(h, SW), Step(h, NW)]
  }

  lemma CandidatesComplete(h: HexId)
    ensures forall d :: Step(h, d) in Candidates(h)
  {
    var c := Candidates(h);
    forall d ensures Step(h, d) in c {
      match d
      case N => assert c[0] == Step(h, d);
      case NE => assert c[1] == Step(h, d);
      case SE => assert c[2] == Step(h, d);
      case S => assert c[3] == Step(h, d);
      case SW => assert c[4] == Step(h, d);
      case NW => assert c[5] == Step(h, d);
    }
  }

  /** Every candidate is the step across one of the six sides. */
  lemma CandidatesSteps(h: HexId)
    ensures forall n :: n in Candidates(h) ==> exists d :: Step(h, d) == n
  {
    var c := Candidates(h);
    assert c[0] == Step(h, N) && c[1] == Step(h, NE) && c[2] == Step(h, SE);
    assert c[3] == Step(h, S) && c[4] == Step(h, SW) && c[5] == Step(h, NW);
  }

  /** The six sides lead to six different hexes. */
  lemma CandidatesDistinct(h: HexId)
    ensures forall i, j :: 0 <= i < j < |Candidates(h)| ==> Candidates(h)[i] != Candidates(h)[j]
  {
    var c := Candidates(h);
    assert c[0] == HexId(h.col, h.row - 1) && c[3] == HexId(h.col, h.row + 1);
    assert c[1].col == h.col + 1 && c[2].col == h.col + 1 && c[1].row + 1 == c[2].row;
    assert c[4].col == h.col - 1 && c[5].col == h.col - 1 && c[5].row + 1 == c[4].row;
  }

  /** The on-map neighbours of `h`, in the order N, NE, SE, S, SW, NW. */
  function AdjacentHexes(h: HexId): (r: seq<HexId>)
    ensures |r| <= 6
    ensures forall n :: n in r ==> OnMap(n)
    ensures forall n :: n in r <==> OnMap(n) && exists d :: Step(h, d) == n
    ensures forall i, j :: 0 <= i < j < |r| ==> r[i] != r[j]
    ensures IsSubsequence(r, Candidates(h))
  {
    var c := Candidates(h);
    CandidatesComplete(h);
    CandidatesSteps(h);
    CandidatesDistinct(h);
    OnMapOnly(c)
  }

  lemma CandidatesInDirectionOrder(h: HexId)
    ensures |Candidates(h)| == 6
    ensures forall p :: 0 <= p < 6 ==> Candidates(h)[p] == Step(h, DIRECTIONS[p])
  {
  }

  lemma PrecedesInDirections(h: HexId, c: seq<HexId>, a: HexId, b: HexId)
    requires |c| == 6 && forall p :: 0 <= p < 6 ==> c[p] == Step(h, DIRECTIONS[p])
    requires Precedes(c, a, b)
    ensures exists p, q :: 0 <= p < q < 6 && a == Step(h, DIRECTIONS[p]) && b == Step(h, DIRECTIONS[q])
  {
    var p, q :| 0 <= p < q < |c| && c[p] == a && c[q] == b;
    assert a == Step(h, DIRECTIONS[p]) && b == Step(h, DIRECTIONS[q]);
  }

  /** Every hex, at the edge or not, lists its neighbours in the direction order N, NE, SE, S, SW, NW. */
  lemma AdjacentHexesInDirectionOrder(h: HexId)
    ensures var r := AdjacentHexes(h);
            forall i, j :: 0 <= i < j < |r| ==>
              exists p, q :: 0 <= p < q < 6 && r[i] == Step(h, DIRECTIONS[p]) && r[j] == Step(h, DIRECTIONS[q])
  {
    var r := AdjacentHexes(h);
    var c := Candidates(h);
    SubsequenceOrder(r, c);
    CandidatesInDirectionOrder(h);
    forall i, j | 0 <= i < j < |r|
      ensures exists p, q :: 0 <= p < q < 6 && r[i] == Step(h, DIRECTIONS[p]) && r[j] == Step(h, DIRECTIONS[q])
    {
      PrecedesInDirections(h, c, r[i], r[j]);
    }
  }

  /** Filtering a list of on-map hexes keeps all of it. */
  lemma {:induction false} OnMapOnlyKeepsAll(cands: seq<HexId>)
    requires forall n :: n in cands ==> OnMap(n)
    ensures OnMapOnly(cands) == cands
  {
    if cands != [] {
      OnMapOnlyKeepsAll(cands[1..]);
    }
  }

  /** Away from the map edge all six neighbours are listed, in direction order. */
  lemma InteriorHexHasSixNeighbours(h: HexId)
    requires MIN_COL < h.col < MAX_COL && MIN_ROW < h.row < MAX_ROW
    ensures AdjacentHexes(h) == [Step(h, N), Step(h, NE), Step(h, SE), Step(h, S), Step(h, SW), Step(h, NW)]
  {
    OnMapOnlyKeepsAll(Candidates(h));
  }

  /** Adjacency is symmetric between on-map hexes. */
  lemma AdjacencySymmetric(h: HexId, n: HexId)
    requires OnMap(h)
    ensures n in AdjacentHexes(h) <==> OnMap(n) && h in AdjacentHexes(n)
  {
    if n in AdjacentHexes(h) {
      var d :| Step(h, d) == n;
      StepBack(h, d);
    }
    if OnMap(n) && h in AdjacentHexes(n) {
      var d :| Step(n, d) == h;
      StepBack(n, d);
    }
  }

  // ---------------------------------------------------------------------
  // Textual ids: the column and the row, each zero-padded to two digits

  predicate IsDigit(c: char) {
    '0' <= c <= '9'
  }

  function DigitChar(v: int): (c: char)
    requires 0 <= v <= 9
    ensures IsDigit(c)
  {
    ('0' as int + v) as char
  }

  function DigitValue(c: char): (v: int)
    requires IsDigit(c)
    ensures 0 <= v <= 9
  {
    c as int - '0' as int
  }

  function TwoDigits(v: int): (s: string)
    requires 0 <= v <= 99
    ensures |s| == 2 && IsDigit(s[0]) && IsDigit(s[1])
  {
    [DigitChar(v / 10), DigitChar(v % 10)]
  }

  /** `String(col).padStart(2, '0') + String(row).padStart(2, '0')`. */
  function FormatId(h: HexId): (s: string)
    requires 0 <= h.col <= 99 && 0 <= h.row <= 99
    ensures |s| == 4
  {
    TwoDigits(h.col) + TwoDigits(h.row)
  }

  /** The column is the first two characters, the row the last two. */
  function ParseId(s: string): (r: Option<HexId>)
    ensures r.Some? <==> |s| == 4 && forall i :: 0 <= i < 4 ==> IsDigit(s[i])
    ensures r.Some? ==> 0 <= r.value.col <= 99 && 0 <= r.value.row <= 99
  {
    if |s| == 4 && IsDigit(s[0]) && IsDigit(s[1]) && IsDigit(s[2]) && IsDigit(s[3]) then
      Some(HexId(10 * DigitValue(s[0]) + DigitValue(s[1]), 10 * DigitValue(s[2]) + DigitValue(s[3])))
    else
      None
  }

  lemma ParseFormat(h: HexId)
    requires 0 <= h.col <= 99 && 0 <= h.row <= 99
    ensures ParseId(FormatId(h)) == Some(h)
  {
  }

  lemma FormatParse(s: string)
    requires ParseId(s).Some?
    ensures FormatId(ParseId(s).value) == s
  {
  }

  // ---------------------------------------------------------------------
  // Pixels

  datatype Pixel = Pixel(x: int, y: int)

  /** `Math.round(n / d)`: the nearest integer, halves rounded up. */
  function RoundDiv(n: int, d: int): (r: int)
    requires d > 0
    ensures 2 * r * d - d <= 2 * n < 2 * r * d + d
  {
    (2 * n + d) / (2 * d)
  }

  /** The top-left corner of a unit counter centred on `h`. */
  function HexToUnitPixelCoords(h: HexId): Pixel {
    var x := HEX_ORIGIN_X + (h.col - HEX_ORIGIN_COL) * HEX_WIDTH;
    var y := HEX_ORIGIN_Y + (h.row - HEX_ORIGIN_ROW) * HEX_HEIGHT;
    var y' := if IsEvenCol(h.col) then y + HEX_VERT_OFFSET else y;
    Pixel(x - (UNIT_WIDTH / 2 + 1), y' - UNIT_HEIGHT / 2)
  }

  /** The counter's corner lies 23 pixels left of and 22 pixels above the hex centre. */
  lemma UnitPixelOffsets(h: HexId)
    ensures HexToUnitPixelCoords(h).x == 38 + (h.col - 1) * 57 - 23
    ensures HexToUnitPixelCoords(h).y == 230 + (h.row - 4) * 65 + (if h.col % 2 == 0 then 33 else 0) - 22
  {
  }

  /** The hex whose centre is nearest to a pixel, on the map or not. */
  function NearestHex(x: int, y: int): HexId {
    var relX := x - HEX_ORIGIN_X;
    var relY := y - HEX_ORIGIN_Y;
    var col := RoundDiv(relX, HEX_WIDTH) + HEX_ORIGIN_COL;
    var adjustedY := if IsEvenCol(col) then relY - HEX_VERT_OFFSET else relY;
    HexId(col, RoundDiv(adjustedY, HEX_HEIGHT) + HEX_ORIGIN_ROW)
  }

  function PixelToHexId(x: int, y: int): (r: Option<HexId>)
    ensures r.Some? ==> OnMap(r.value)
    ensures r.None? <==> !OnMap(NearestHex(x, y))
  {
    var h := NearestHex(x, y);
    if h.col < MIN_COL || h.col > MAX_COL || h.row < MIN_ROW || h.row > MAX_ROW then None
    else Some(h)
  }

  lemma MulAtLeast(a: int, d: int)
    requires a >= 1 && d > 0
    ensures a * d >= d
  {
  }

  lemma RoundDivUnique(n: int, d: int, k: int)
    requires d > 0
    requires 2 * k * d - d <= 2 * n < 2 * k * d + d
    ensures RoundDiv(n, d) == k
  {
    var r := RoundDiv(n, d);
    if r < k {
      MulAtLeast(k - r, d);
    } else if r > k {
      MulAtLeast(r - k, d);
    }
  }

  /** Converting a hex to its counter position and back yields the hex again. */
  lemma PixelRoundTrip(h: HexId)
    requires OnMap(h)
    ensures PixelToHexId(HexToUnitPixelCoords(h).x, HexToUnitPixelCoords(h).y) == Some(h)
  {
    var p := HexToUnitPixelCoords(h);
    RoundDivUnique(p.x - HEX_ORIGIN_X, HEX_WIDTH, h.col - HEX_ORIGIN_COL);
    var adjustedY := p.y - HEX_ORIGIN_Y - (if IsEvenCol(h.col) then HEX_VERT_OFFSET else 0);
    RoundDivUnique(adjustedY, HEX_HEIGHT, h.row - HEX_ORIGIN_ROW);
  }
}
