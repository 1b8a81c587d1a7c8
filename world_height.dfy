/**
 * The per-dimension build-height table of the server utilities. The
 * overworld bounds start at the sentinels -999 and 999 and are probed
 * once each with the host's "can a block be placed here" test; the
 * nether and the end are fixed at 0 and 128.
 */
module WorldHeight {
  import opened Wrappers
  import opened Vectors
  import PlayerUtil

  type Bounds = (int, int)

  const MinSentinel := -999
  const MaxSentinel := 999

  function InitialTable(): map<string, Bounds>
  {
    map["overworld" := (MinSentinel, MaxSentinel), "nether" := (0, 128), "the_end" := (0, 128)]
  }

  /** What `worldY[dimName]` yields; None where the source dereferences `undefined` and throws. */
  function Lookup(table: map<string, Bounds>, dimName: string): Option<Bounds>
  {
    if dimName in table then Some(table[dimName]) else None
  }

  class WorldY {
    var table: map<string, Bounds>

    ghost predicate Valid()
      reads this
    {
      && table.Keys == {"overworld", "nether", "the_end"}
      && table["nether"] == (0, 128) && table["the_end"] == (0, 128)
      && table["overworld"].0 in {MinSentinel, -64, 0}
      && table["overworld"].1 in {MaxSentinel, 319, 255}
    }

    constructor()
      ensures Valid() && table == InitialTable()
    {
      table := InitialTable();
    }

    /**
     * getWorldMinY: probes one block below y = 0 at the player's column while
     * the overworld minimum is still the sentinel, then answers from the table.
     */
    method GetWorldMinY(dimName: string, playerPos: Vec, canPlaceBlock: (Vec, string) -> bool) returns (r: Option<int>)
      requires Valid()
      modifies this
      ensures Valid()
      ensures var probe := dimName == "overworld" && old(table)["overworld"].0 == MinSentinel;
        table == if probe
                 then old(table)["overworld" := (if canPlaceBlock(playerPos.(y := -1), "overworld") then -64 else 0, old(table)["overworld"].1)]
                 else old(table)
      ensures r == if dimName in table then Some(table[dimName].0) else None
    {
      if dimName == "overworld" && table["overworld"].0 == MinSentinel {
        var test := playerPos.(y := -1);
        var lo := if canPlaceBlock(test, dimName) then -64 else 0;
        table := table["overworld" := (lo, table["overworld"].1)];
      }
      var entry := Lookup(table, dimName);
      r := if entry.Some? then Some(entry.value.0) else None;
    }

    /** getWorldMaxY: the same for the top, probing at y = 256. */
    method GetWorldMaxY(dimName: string, playerPos: Vec, canPlaceBlock: (Vec, string) -> bool) returns (r: Option<int>)
      requires Valid()
      modifies this
      ensures Valid()
      ensures var probe := dimName == "overworld" && old(table)["overworld"].1 == MaxSentinel;
        table == if probe
                 then old(table)["overworld" := (old(table)["overworld"].0, if canPlaceBlock(playerPos.(y := 256), "overworld") then 319 else 255)]
                 else old(table)
      ensures r == if dimName in table then Some(table[dimName].1) else None
    {
      if dimName == "overworld" && table["overworld"].1 == MaxSentinel {
        var test := playerPos.(y := 256);
        var hi := if canPlaceBlock(test, dimName) then 319 else 255;
        table := table["overworld" := (table["overworld"].0, hi)];
      }
      var entry := Lookup(table, dimName);
      r := if entry.Some? then Some(entry.value.1) else None;
    }
  }

  /**
   * After both probes the overworld bounds are final: a further pair of
   * calls finds no sentinel, so it gives the same answers and leaves the
   * table as the first pair left it.
   */
  method ProbesHappenOnce(w: WorldY, pos: Vec, pos2: Vec, canPlace: (Vec, string) -> bool, canPlace2: (Vec, string) -> bool)
    returns (lo: Option<int>, hi: Option<int>, lo2: Option<int>, hi2: Option<int>)
    requires w.Valid()
    modifies w
    ensures w.Valid()
    ensures lo.Some? && hi.Some? && lo.value in {-64, 0} && hi.value in {319, 255}
    ensures lo2 == lo && hi2 == hi
    ensures w.table == old(w.table)["overworld" := (lo.value, hi.value)]
  {
    lo := w.GetWorldMinY("overworld", pos, canPlace);
    hi := w.GetWorldMaxY("overworld", pos, canPlace);
    ghost var settled := w.table;
    lo2 := w.GetWorldMinY("overworld", pos2, canPlace2);
    hi2 := w.GetWorldMaxY("overworld", pos2, canPlace2);
    assert w.table == settled;
  }

  // ---------------------------------------------------------------------
  // The player-dimension lookup names the third dimension "the end", but
  // the table's key is "the_end".

  /** As written: the lookup for the end finds no row (the source throws). */
  lemma EndHasNoRow()
    ensures Lookup(InitialTable(), PlayerUtil.Dimensions[2]) == None
  {
    assert PlayerUtil.Dimensions[2] !in InitialTable();
  }

  /** The table key a scanned dimension name evidently stands for. */
  function TableKey(dimName: string): string
  {
    if dimName == "the end" then "the_end" else dimName
  }

  /** Corrected lookup: every name the scan can answer has a row. */
  function FixedLookup(table: map<string, Bounds>, dimName: string): (r: Option<Bounds>)
    ensures table.Keys == InitialTable().Keys && dimName in PlayerUtil.Dimensions ==> r.Some?
    ensures dimName == "the end" && table.Keys == InitialTable().Keys ==> r == Some(table["the_end"])
  {
    Lookup(table, TableKey(dimName))
  }
}
