/** The terrain of the grid maze: the 20 x 20 table of cell codes and the lookup the
    search uses to read it. Cell (x, y) lives at index y * MapWidth + x (row-major). */
module Terrain {
  import opened Wrappers

  const MapWidth: int := 20
  const MapHeight: int := 20

  /** The code of a cell that cannot be entered; the lookup also returns it off the map. */
  const Impassable: int := 9

  /** The contents of the world table at some moment. The table is a mutable global of
      exactly MapWidth * MapHeight entries (the game writes the character's code into it),
      so every lookup takes the current contents as a parameter. */
  type World = w: seq<int> | |w| == MapWidth * MapHeight witness seq(400, _ => 0)

  /** One row of the table. */
  type Row = r: seq<int> | |r| == MapWidth witness seq(20, _ => 0)

  /** The rows of the table as the program initialises it, row 0 first. */
  const Row00: Row := [1,1,1,1,1,1,1,1,1,1,1,1,1,1,1,1,1,1,1,1]
  const Row01: Row := [1,9,9,9,9,9,9,9,9,9,9,9,9,9,9,9,9,9,9,1]
  const Row02: Row := [1,9,9,1,1,9,9,9,1,9,1,9,1,9,1,9,9,9,1,1]
  const Row03: Row := [1,9,9,1,1,9,9,9,1,9,1,9,1,9,1,9,9,9,1,1]
  const Row04: Row := [1,9,1,1,1,1,9,9,1,9,1,9,1,1,1,1,9,9,1,1]
  const Row05: Row := [1,9,1,1,9,1,1,1,1,9,1,1,1,1,9,1,1,1,1,1]
  const Row06: Row := [1,9,9,9,9,1,1,1,1,1,1,9,9,9,9,1,1,1,1,1]
  const Row07: Row := [1,9,9,9,9,9,9,9,9,1,1,1,9,9,9,9,9,9,9,1]
  const Row08: Row := [1,9,1,1,1,1,1,1,1,1,1,9,1,1,1,1,1,1,1,1]
  const Row09: Row := [1,9,1,9,9,9,9,9,9,9,1,1,9,9,9,9,9,9,9,1]
  const Row10: Row := [1,9,1,1,1,1,9,1,1,9,1,1,1,1,1,1,1,1,1,1]
  const Row11: Row := [1,9,9,9,9,9,1,9,1,9,1,9,9,9,9,9,1,1,1,1]
  const Row12: Row := [1,9,1,9,1,9,9,9,1,9,1,9,1,9,1,9,9,9,1,1]
  const Row13: Row := [1,9,1,9,1,9,9,9,1,9,1,9,1,9,1,9,9,9,1,1]
  const Row14: Row := [1,9,1,1,1,1,9,9,1,9,1,9,1,1,1,1,9,9,1,1]
  const Row15: Row := [1,9,1,1,9,1,1,1,1,9,1,1,1,1,9,1,1,1,1,1]
  const Row16: Row := [1,9,9,9,9,1,1,1,1,1,1,9,9,9,9,1,1,1,1,1]
  const Row17: Row := [1,1,9,9,9,9,9,9,9,1,1,1,9,9,9,1,9,9,9,9]
  const Row18: Row := [1,9,1,1,1,1,1,1,1,1,1,9,1,1,1,1,1,1,1,1]
  const Row19: Row := [1,1,1,1,1,1,1,1,1,1,1,1,1,1,1,1,1,1,1,1]

  /** The table as the program initialises it. */
  const InitialWorld: World := Row00 + Row01 + Row02 + Row03 + Row04 + Row05 + Row06 + Row07 + Row08 + Row09 + Row10 + Row11 + Row12 + Row13 + Row14 + Row15 + Row16 + Row17 + Row18 + Row19

  predicate OnMap(x: int, y: int) {
    0 <= x < MapWidth && 0 <= y < MapHeight
  }

  /** The terrain code of cell (x, y), with the boundary check the program evidently
      intends: every coordinate outside 0..19 reads as impassable. */
  function GetMap(world: World, x: int, y: int): (r: int)
    ensures OnMap(x, y) ==> r == world[y * MapWidth + x]
    ensures !OnMap(x, y) ==> r == Impassable
  {
    if x < 0 || x >= MapWidth || y < 0 || y >= MapHeight then Impassable
    else world[y * MapWidth + x]
  }

  /** True for the coordinates that pass the program's inclusive boundary check but
      whose index lies past the last entry of the table. */
  predicate OverrunsTable(x: int, y: int) {
    (y == MapHeight && 0 <= x <= MapWidth) || (x == MapWidth && y == MapHeight - 1)
  }

  /** The lookup as the program writes it: the check rejects x > MapWidth and
      y > MapHeight only, so x == MapWidth and y == MapHeight get through to the table
      read. None stands for a read past the end of the table (undefined behaviour). */
  function GetMapAsWritten(world: World, x: int, y: int): (r: Option<int>)
    ensures r.None? <==> OverrunsTable(x, y)
    ensures r.Some? && !OnMap(x, y) && (x != MapWidth || y < 0 || y > MapHeight) ==> r.value == Impassable
  {
    if x < 0 || x > MapWidth || y < 0 || y > MapHeight then Some(Impassable)
    else if y * MapWidth + x < |world| then Some(world[y * MapWidth + x])
    else None
  }

  /** Away from column MapWidth and row MapHeight the two lookups agree. */
  lemma AsWrittenAgreesElsewhere(world: World, x: int, y: int)
    requires x != MapWidth && y != MapHeight
    ensures GetMapAsWritten(world, x, y) == Some(GetMap(world, x, y))
  {
  }

  /** Column MapWidth is not rejected: for every row but the last it reads the first
      cell of the next row, where the intended lookup says impassable. */
  lemma AsWrittenWrapsToNextRow(world: World, y: int)
    requires 0 <= y < MapHeight - 1
    ensures GetMapAsWritten(world, MapWidth, y) == Some(world[(y + 1) * MapWidth])
    ensures GetMapAsWritten(world, MapWidth, y) == Some(GetMap(world, 0, y + 1))
    ensures GetMap(world, MapWidth, y) == Impassable
  {
  }

  /** On the initial table the wrap-around turns an off-map cell into a passable one:
      (20, 0) reads cell (0, 1), whose code is 1. */
  lemma InitialWorldWrapExample()
    ensures GetMapAsWritten(InitialWorld, 20, 0) == Some(1)
    ensures GetMap(InitialWorld, 20, 0) == Impassable
  {
  }

  /** Row MapHeight, and (MapWidth, MapHeight - 1), read past the 400-entry table. */
  lemma InitialWorldOverrunExample()
    ensures GetMapAsWritten(InitialWorld, 0, 20).None?
    ensures GetMapAsWritten(InitialWorld, 20, 19).None?
    ensures GetMapAsWritten(InitialWorld, 20, 20).None?
  {
  }

  /** Every entry of s is 1 (open ground) or 9 (wall). */
  ghost predicate TerrainCodesOnly(s: seq<int>) {
    forall v :: v in s ==> v == 1 || v == Impassable
  }

  lemma InitialRowsCodes()
    ensures TerrainCodesOnly(Row00) && TerrainCodesOnly(Row01) && TerrainCodesOnly(Row02) && TerrainCodesOnly(Row03) && TerrainCodesOnly(Row04) && TerrainCodesOnly(Row05) && TerrainCodesOnly(Row06) && TerrainCodesOnly(Row07) && TerrainCodesOnly(Row08) && TerrainCodesOnly(Row09) && TerrainCodesOnly(Row10) && TerrainCodesOnly(Row11) && TerrainCodesOnly(Row12) && TerrainCodesOnly(Row13) && TerrainCodesOnly(Row14) && TerrainCodesOnly(Row15) && TerrainCodesOnly(Row16) && TerrainCodesOnly(Row17) && TerrainCodesOnly(Row18) && TerrainCodesOnly(Row19)
  {
  }

  lemma CodesConcat(a: seq<int>, b: seq<int>)
    requires TerrainCodesOnly(a) && TerrainCodesOnly(b)
    ensures TerrainCodesOnly(a + b)
  {
  }

  lemma InitialWorldCodes()
    ensures TerrainCodesOnly(InitialWorld)
  {
    InitialRowsCodes();
    CodesConcat(Row00, Row01);
    CodesConcat(Row00 + Row01, Row02);
    CodesConcat(Row00 + Row01 + Row02, Row03);
    CodesConcat(Row00 + Row01 + Row02 + Row03, Row04);
    CodesConcat(Row00 + Row01 + Row02 + Row03 + Row04, Row05);
    CodesConcat(Row00 + Row01 + Row02 + Row03 + Row04 + Row05, Row06);
    CodesConcat(Row00 + Row01 + Row02 + Row03 + Row04 + Row05 + Row06, Row07);
    CodesConcat(Row00 + Row01 + Row02 + Row03 + Row04 + Row05 + Row06 + Row07, Row08);
    CodesConcat(Row00 + Row01 + Row02 + Row03 + Row04 + Row05 + Row06 + Row07 + Row08, Row09);
    CodesConcat(Row00 + Row01 + Row02 + Row03 + Row04 + Row05 + Row06 + Row07 + Row08 + Row09, Row10);
    CodesConcat(Row00 + Row01 + Row02 + Row03 + Row04 + Row05 + Row06 + Row07 + Row08 + Row09 + Row10, Row11);
    CodesConcat(Row00 + Row01 + Row02 + Row03 + Row04 + Row05 + Row06 + Row07 + Row08 + Row09 + Row10 + Row11, Row12);
    CodesConcat(Row00 + Row01 + Row02 + Row03 + Row04 + Row05 + Row06 + Row07 + Row08 + Row09 + Row10 + Row11 + Row12, Row13);
    CodesConcat(Row00 + Row01 + Row02 + Row03 + Row04 + Row05 + Row06 + Row07 + Row08 + Row09 + Row10 + Row11 + Row12 + Row13, Row14);
    CodesConcat(Row00 + Row01 + Row02 + Row03 + Row04 + Row05 + Row06 + Row07 + Row08 + Row09 + Row10 + Row11 + Row12 + Row13 + Row14, Row15);
    CodesConcat(Row00 + Row01 + Row02 + Row03 + Row04 + Row05 + Row06 + Row07 + Row08 + Row09 + Row10 + Row11 + Row12 + Row13 + Row14 + Row15, Row16);
    CodesConcat(Row00 + Row01 + Row02 + Row03 + Row04 + Row05 + Row06 + Row07 + Row08 + Row09 + Row10 + Row11 + Row12 + Row13 + Row14 + Row15 + Row16, Row17);
    CodesConcat(Row00 + Row01 + Row02 + Row03 + Row04 + Row05 + Row06 + Row07 + Row08 + Row09 + Row10 + Row11 + Row12 + Row13 + Row14 + Row15 + Row16 + Row17, Row18);
    CodesConcat(Row00 + Row01 + Row02 + Row03 + Row04 + Row05 + Row06 + Row07 + Row08 + Row09 + Row10 + Row11 + Row12 + Row13 + Row14 + Row15 + Row16 + Row17 + Row18, Row19);
  }

  /** Every entry of the initial table is 1 (open ground) or 9 (wall). */
  lemma InitialTerrainCodes(x: int, y: int)
    ensures GetMap(InitialWorld, x, y) == 1 || GetMap(InitialWorld, x, y) == Impassable
  {
    InitialWorldCodes();
    if OnMap(x, y) {
      var i := y * MapWidth + x;
      assert InitialWorld[i] in InitialWorld;
    }
  }
}
