/**
 * What the region store's calls do to the host's structures, how a load
 * lines up with the save that produced its entry, and the three places
 * where the store does not do what it evidently means to: the clean-up
 * after a refused piece, the chunked delete flag, and the per-player
 * sweep. Each of the three is shown on the definitions the store uses,
 * next to a corrected definition and the property it then has.
 */
module RegionFacts {
  import opened Wrappers
  import opened Vectors
  import opened Chunks
  import opened Structures
  import opened Regions

  // ---------------------------------------------------------------------
  // Ids.

  /** A player's id is drawn at most once: every later genName keeps it. */
  lemma IdStable(ids: map<string, string>, player: string, rolls: seq<seq<int>>, later: seq<seq<int>>)
    requires CanDraw(ids, player, rolls) && ValidRolls(later)
    ensures CanDraw(IdsAfter(ids, player, rolls), player, later)
    ensures IdsAfter(IdsAfter(ids, player, rolls), player, later) == IdsAfter(ids, player, rolls)
    ensures player in ids ==> IdsAfter(ids, player, rolls) == ids
  {
  }

  /** A new id is well formed, differs from every id already handed out, and no other player's id changes. */
  lemma NewIdFresh(ids: map<string, string>, player: string, rolls: seq<seq<int>>)
    requires CanDraw(ids, player, rolls) && player !in ids
    ensures var ids' := IdsAfter(ids, player, rolls);
      && ValidId(ids'[player])
      && (forall p :: p in ids ==> ids'[player] != ids[p])
      && ids'.Keys == ids.Keys + {player}
      && (forall p :: p in ids ==> ids'[p] == ids[p])
  {
    var id := FirstFreshId(ids.Values, rolls);
    forall p | p in ids ensures id != ids[p] {
      assert ids[p] in ids.Values;
    }
  }

  // ---------------------------------------------------------------------
  // Save.

  /** The saves a region is split into, in the order they are issued. */
  function PlannedSaves(q: string, start: Vec, end: Vec, includeEntities: bool): seq<Call>
  {
    var min, size := RegionMin(start, end), RegionSize(start, end);
    if !NeedsChunks(size) then [SaveCall(q, min, RegionMax(start, end), includeEntities)]
    else Each(ChunkSaver(q, min, size, includeEntities), ChunkOffsets(size))
  }

  /** The names an entry's data is stored under. */
  function StoredNames(q: string, start: Vec, end: Vec): set<string>
  {
    var size := RegionSize(start, end);
    if !NeedsChunks(size) then {q} else set off | off in ChunkOffsets(size) :: ChunkName(q, off)
  }

  /** A save that reports success issued exactly the planned saves, in order. */
  lemma SaveAcceptedTrace(fails: Call -> bool, q: string, start: Vec, end: Vec, includeEntities: bool)
    requires !SaveFails(fails, q, start, end, includeEntities)
    ensures SaveTrace(fails, q, start, end, includeEntities) == PlannedSaves(q, start, end, includeEntities)
  {
    var min, size := RegionMin(start, end), RegionSize(start, end);
    if NeedsChunks(size) {
      PieceTraceAccepted(fails, ChunkSaver(q, min, size, includeEntities), ChunkOffsets(size), 0);
    }
  }

  /** The names of one call per offset. */
  lemma NamesOfEach(mk: Vec -> Call, offs: seq<Vec>)
    ensures Names(Each(mk, offs)) == set off | off in offs :: mk(off).name
  {
    var calls := Each(mk, offs);
    forall n | n in (set off | off in offs :: mk(off).name) ensures n in Names(calls) {
      var off :| off in offs && n == mk(off).name;
      var i :| 0 <= i < |offs| && offs[i] == off;
      assert calls[i].name == n;
    }
  }

  lemma PieceNames(q: string, min: Vec, size: Vec, includeEntities: bool, offs: seq<Vec>)
    ensures (set off | off in offs :: ChunkSaver(q, min, size, includeEntities)(off).name) == set off | off in offs :: ChunkName(q, off)
  {
  }

  /** A save that reports success leaves the host holding every piece of the region. */
  lemma SaveStoresEveryPiece(fails: Call -> bool, stored: set<string>, q: string, start: Vec, end: Vec, includeEntities: bool)
    requires !SaveFails(fails, q, start, end, includeEntities)
    ensures Effect(fails, stored, SaveTrace(fails, q, start, end, includeEntities)) == stored + StoredNames(q, start, end)
  {
    SaveAcceptedTrace(fails, q, start, end, includeEntities);
    var trace := PlannedSaves(q, start, end, includeEntities);
    var min, size := RegionMin(start, end), RegionSize(start, end);
    if NeedsChunks(size) {
      var offs := ChunkOffsets(size);
      var save := ChunkSaver(q, min, size, includeEntities);
      assert trace == Each(save, offs);
      PiecesAccepted(fails, save, offs);
      EffectSaves(fails, stored, trace);
      NamesOfEach(save, offs);
      PieceNames(q, min, size, includeEntities, offs);
    } else {
      EffectSaves(fails, stored, trace);
    }
  }

  lemma PiecesAccepted(fails: Call -> bool, save: Vec -> Call, offs: seq<Vec>)
    requires !PieceFails(fails, save, offs)
    requires forall o :: save(o).SaveCall?
    ensures var calls := Each(save, offs); forall i :: 0 <= i < |calls| ==> calls[i].SaveCall? && !fails(calls[i])
  {
    forall i | 0 <= i < |offs| ensures !fails(save(offs[i])) {
      PieceFailsAt(fails, save, offs, i);
    }
  }

  /** When no piece save is refused, none of them is. */
  lemma {:induction false} PieceFailsAt(fails: Call -> bool, save: Vec -> Call, offs: seq<Vec>, i: int)
    requires !PieceFails(fails, save, offs) && 0 <= i < |offs|
    ensures !fails(save(offs[i]))
    decreases i
  {
    if i > 0 {
      PieceFailsAt(fails, save, offs[1..], i - 1);
    }
  }

  /**
   * Each planned save covers a box inside the region, from its lower to its
   * upper corner, no larger than the size limit on any axis.
   */
  lemma PlannedSavesInside(q: string, start: Vec, end: Vec, includeEntities: bool, i: int)
    requires 0 <= i < |PlannedSaves(q, start, end, includeEntities)|
    ensures var c := PlannedSaves(q, start, end, includeEntities)[i];
      && c.SaveCall?
      && Le(RegionMin(start, end), c.from) && Le(c.from, c.to) && Le(c.to, RegionMax(start, end))
      && c.to.x - c.from.x < MaxSize.x && c.to.y - c.from.y < MaxSize.y && c.to.z - c.from.z < MaxSize.z
  {
    var min, size := RegionMin(start, end), RegionSize(start, end);
    if NeedsChunks(size) {
      var off := ChunkOffsets(size)[i];
      var e := ChunkEnd(size, off);
      var p := SubtractLocations(e, Vec(1, 1, 1));
      ChunkInside(size, off, off);
      ChunkInside(size, off, p);
      assert InChunk(size, off, p);
      assert InRegion(size, off) && InRegion(size, p);
      var c := PlannedSaves(q, start, end, includeEntities)[i];
      assert c == ChunkSaveCall(q, min, size, off, includeEntities);
      assert c.from == AddLocations(min, off) && c.to == AddLocations(min, p);
    }
  }

  // ---------------------------------------------------------------------
  // Load.

  /** A relative load at the spot the entry was captured from lands on the region's lower corner. */
  lemma RelativePlacementRestores(start: Vec, end: Vec, playerPos: Vec)
    ensures Placement(SavedMeta(start, end, playerPos), playerPos, Relative) == RegionMin(start, end)
  {
  }

  /**
   * Loading a saved entry at its own position replays the planned saves:
   * one load per piece, under the same name, at the lower corner it was
   * saved from.
   */
  lemma LoadMatchesSave(q: string, start: Vec, end: Vec, playerPos: Vec, includeEntities: bool)
    ensures var m := SavedMeta(start, end, playerPos);
      var loads, saves := LoadTrace(q, m, m.position), PlannedSaves(q, start, end, includeEntities);
      && |loads| == |saves|
      && forall i :: 0 <= i < |loads| ==> loads[i].LoadCall? && loads[i].name == saves[i].name && loads[i].at == saves[i].from
  {
  }

  /** A load never changes what the host holds. */
  lemma LoadKeepsStored(fails: Call -> bool, stored: set<string>, q: string, m: StructureMeta, place: Vec)
    ensures Effect(fails, stored, LoadTrace(q, m, place)) == stored
  {
    EffectLoads(fails, stored, LoadTrace(q, m, place));
  }

  /** A load reports failure exactly when the host refused every load it issued. */
  lemma LoadFailsIff(fails: Call -> bool, q: string, m: StructureMeta, place: Vec)
    ensures var trace := LoadTrace(q, m, place);
      LoadFails(fails, q, m, place) <==> forall i :: 0 <= i < |trace| ==> fails(trace[i])
  {
    var trace := LoadTrace(q, m, place);
    if m.subRegions.Some? {
      var subs := m.subRegions.value;
      assert forall i :: 0 <= i < |trace| ==> trace[i] == ChunkLoader(q, place)(subs[i]);
      if !LoadFails(fails, q, m, place) {
        var i :| 0 <= i < |subs| && !fails(ChunkLoader(q, place)(subs[i]));
        assert !fails(trace[i]);
      }
    } else {
      assert |trace| == 1 && trace[0] == LoadCall(q, place);
    }
  }

  // ---------------------------------------------------------------------
  // Finding: the clean-up after a refused piece.
  //
  // When a piece save is refused, the store issues one delete per piece
  // already saved, but every one of them names the refused piece, so the
  // pieces saved before it stay on the host with no entry to reach them.

  /** A region two pieces wide along x, and a host that refuses only the second piece. */
  const WideStart := Vec(0, 0, 0)
  const WideEnd := Vec(64, 0, 0)


  function RefuseSecond(c: Call): bool
  {
    c.SaveCall? && c.from == Vec(64, 0, 0)
  }

  lemma WideOffsets()
    ensures ChunkOffsets(Vec(65, 1, 1)) == [Vec(0, 0, 0), Vec(64, 0, 0)]
  {
    var size := Vec(65, 1, 1);
    var xs, ys, zs := XSteps(size), YSteps(size), ZSteps(size);
    assert xs == [0, 64] by {
      assert AxisFrom(128, 65, 64) == [];
      assert AxisFrom(64, 65, 64) == [64];
    }
    assert ys == [0] by {
      assert AxisFrom(256, 1, 256) == [];
    }
    assert zs == [0] by {
      assert AxisFrom(64, 1, 64) == [];
    }
    var row := [Vec(0, 0, 0), Vec(64, 0, 0)];
    assert Row(xs, 0, 0) == row by {
      assert xs[1..] == [64] && xs[1..][1..] == [];
      assert Row(xs[1..][1..], 0, 0) == [];
      assert Row(xs[1..], 0, 0) == [Vec(64, 0, 0)];
    }
    assert Plane(xs, ys, 0) == row by {
      assert ys[1..] == [];
    }
    assert Grid(xs, ys, zs) == row by {
      assert zs[1..] == [];
    }
  }

  /** Two pieces, the second refused: the clean-up deletes the second piece's name, and the first stays stored. */
  lemma TwoPieceRollback(fails: Call -> bool, save: Vec -> Call, a: Vec, b: Vec)
    requires save(a).SaveCall? && !fails(save(a)) && fails(save(b))
    requires save(a).name != save(b).name
    ensures PieceFails(fails, save, [a, b])
    ensures PieceTrace(fails, save, [a, b], 0) == [save(a), save(b), DeleteCall(save(b).name)]
    ensures save(a).name in Effect(fails, {}, PieceTrace(fails, save, [a, b], 0))
  {
    var offs := [a, b];
    assert offs[1..] == [b] && offs[1..][1..] == [];
    assert PieceFails(fails, save, offs[1..]);
    assert Rollback(save(b).name, 1) == [DeleteCall(save(b).name)];
    var trace := [save(a), save(b), DeleteCall(save(b).name)];
    assert trace[..2][..1] == [save(a)] && trace[..2] == [save(a), save(b)] && [save(a)][..0] == [];
    assert save(a).name in Effect(fails, {}, [save(a)]);
    assert Effect(fails, {}, trace[..2]) == Effect(fails, {}, [save(a)]);
    assert Effect(fails, {}, trace) == StepEffect(fails, Effect(fails, {}, trace[..2]), DeleteCall(save(b).name));
  }

  lemma WideRegion()
    ensures RegionMin(WideStart, WideEnd) == Vec(0, 0, 0)
    ensures RegionSize(WideStart, WideEnd) == Vec(65, 1, 1)
    ensures NeedsChunks(Vec(65, 1, 1))
  {
    assert Abs(0 - 64) == 64 && Abs(0 - 0) == 0;
  }

  /** The two pieces' names differ in length. */
  lemma WideNames(q: string)
    ensures ChunkName(q, Vec(0, 0, 0)) != ChunkName(q, Vec(64, 0, 0))
  {
    ChunkNameLength(q, Vec(0, 0, 0));
    ChunkNameLength(q, Vec(64, 0, 0));
    assert |IntToString(0)| == 1 && |IntToString(64)| == 2;
  }

  lemma ChunkNameLength(q: string, off: Vec)
    ensures |ChunkName(q, off)| == |q| + 3 + |IntToString(off.x)| + |IntToString(off.y)| + |IntToString(off.z)|
  {
  }

  /** As written: the save reports failure, yet the first piece is left stored. */
  lemma RollbackLeavesPiece(q: string, start: Vec, end: Vec)
    requires start == WideStart && end == WideEnd
    ensures SaveFails(RefuseSecond, q, start, end, false)
    ensures ChunkName(q, Vec(0, 0, 0)) in Effect(RefuseSecond, {}, SaveTrace(RefuseSecond, q, start, end, false))
  {
    WideRegion();
    WideOffsets();
    WideRefusal(q, start, end);
    TwoPieceSave(RefuseSecond, q, start, end, Vec(0, 0, 0), Vec(64, 0, 0));
  }

  /** The host refuses the second piece's save only, and the two pieces' names differ. */
  lemma WideRefusal(q: string, start: Vec, end: Vec)
    requires start == WideStart && end == WideEnd
    ensures var c0, c1 := ChunkSaveCall(q, RegionMin(start, end), RegionSize(start, end), Vec(0, 0, 0), false),
                          ChunkSaveCall(q, RegionMin(start, end), RegionSize(start, end), Vec(64, 0, 0), false);
      c0.SaveCall? && !RefuseSecond(c0) && RefuseSecond(c1) && c0.name != c1.name
  {
    WideRegion();
    WideNames(q);
  }

  /** A chunked save over exactly two pieces, the second refused, leaves the first stored. */
  lemma TwoPieceSave(fails: Call -> bool, q: string, start: Vec, end: Vec, a: Vec, b: Vec)
    requires NeedsChunks(RegionSize(start, end)) && ChunkOffsets(RegionSize(start, end)) == [a, b]
    requires var c0, c1 := ChunkSaveCall(q, RegionMin(start, end), RegionSize(start, end), a, false),
                           ChunkSaveCall(q, RegionMin(start, end), RegionSize(start, end), b, false);
      c0.SaveCall? && !fails(c0) && fails(c1) && c0.name != c1.name
    ensures SaveFails(fails, q, start, end, false)
    ensures ChunkSaveCall(q, RegionMin(start, end), RegionSize(start, end), a, false).name
      in Effect(fails, {}, SaveTrace(fails, q, start, end, false))
  {
    var save := ChunkSaver(q, RegionMin(start, end), RegionSize(start, end), false);
    TwoPieceRollback(fails, save, a, b);
  }

  /** The corrected clean-up: after a refused piece, delete each piece saved so far. */
  function FixedPieceTrace(fails: Call -> bool, save: Vec -> Call, offs: seq<Vec>, done: seq<Vec>): seq<Call>
    decreases |offs|
  {
    if offs == [] then []
    else
      var c := save(offs[0]);
      if fails(c) then [c] + Each(off => DeleteCall(save(off).name), done)
      else [c] + FixedPieceTrace(fails, save, offs[1..], done + [offs[0]])
  }

  lemma EachAppendNames(mk: Vec -> Call, done: seq<Vec>, o: Vec)
    ensures Names(Each(mk, done + [o])) == Names(Each(mk, done)) + {mk(o).name}
  {
    var calls := Each(mk, done + [o]);
    assert calls[..|calls| - 1] == Each(mk, done);
    NamesSnoc(calls);
  }

  lemma EachNames(mk: Vec -> Call, del: Vec -> Call, done: seq<Vec>)
    requires forall o :: del(o).name == mk(o).name
    ensures Names(Each(del, done)) == Names(Each(mk, done))
  {
    var a, b := Each(del, done), Each(mk, done);
    forall n | n in Names(a) ensures n in Names(b) {
      var i :| 0 <= i < |a| && a[i].name == n;
      assert b[i].name == n;
    }
    forall n | n in Names(b) ensures n in Names(a) {
      var i :| 0 <= i < |b| && b[i].name == n;
      assert a[i].name == n;
    }
  }

  /**
   * Corrected: when the host accepts deletes, a refused save leaves it
   * holding exactly what it held before the save began (given that the
   * pieces' names were not already in use).
   */
  lemma {:induction false} FixedRollbackRestores(fails: Call -> bool, stored: set<string>, save: Vec -> Call, offs: seq<Vec>, done: seq<Vec>)
    requires forall o :: save(o).SaveCall?
    requires forall n :: !fails(DeleteCall(n))
    requires PieceFails(fails, save, offs)
    requires Names(Each(save, done)) !! stored
    requires forall i :: 0 <= i < |offs| ==> save(offs[i]).name !in stored
    ensures Effect(fails, stored + Names(Each(save, done)), FixedPieceTrace(fails, save, offs, done)) == stored
    decreases |offs|
  {
    var held := stored + Names(Each(save, done));
    var c := save(offs[0]);
    assert Effect(fails, held, [c]) == StepEffect(fails, held, c) by {
      assert [c][..0] == [];
    }
    if fails(c) {
      var deletes := Each(o => DeleteCall(save(o).name), done);
      EffectAppend(fails, held, [c], deletes);
      EffectDeletes(fails, held, deletes);
      EachNames(save, o => DeleteCall(save(o).name), done);
    } else {
      var rest := FixedPieceTrace(fails, save, offs[1..], done + [offs[0]]);
      assert FixedPieceTrace(fails, save, offs, done) == [c] + rest;
      EffectAppend(fails, held, [c], rest);
      EachAppendNames(save, done, offs[0]);
      assert c.name !in stored;
      assert Effect(fails, held, [c]) == stored + Names(Each(save, done + [offs[0]]));
      assert PieceFails(fails, save, offs[1..]);
      forall i | 0 <= i < |offs[1..]| ensures save(offs[1..][i]).name !in stored {
        assert offs[1..][i] == offs[i + 1];
      }
      FixedRollbackRestores(fails, stored, save, offs[1..], done + [offs[0]]);
    }
  }

  // ---------------------------------------------------------------------
  // Finding: the chunked delete flag.
  //
  // The chunked delete ors in the negation of each piece delete's answer
  // with a short-circuit: the first accepted delete turns the flag on, and
  // from then on no delete is sent. So it reports an error exactly when it
  // deleted something, and it deletes at most one piece while dropping the
  // entry.

  /** The deletes sent end with the first one the host accepts. */
  lemma {:induction false} UntilAcceptedStops(fails: Call -> bool, mk: Vec -> Call, offs: seq<Vec>, k: int)
    requires 0 <= k < |offs| && !fails(mk(offs[k]))
    requires forall j :: 0 <= j < k ==> fails(mk(offs[j]))
    ensures UntilAccepted(fails, mk, offs) == Each(mk, offs[..k + 1])
    decreases |offs|
  {
    var init := offs[..|offs| - 1];
    if k == |offs| - 1 {
      assert !SomeAccepted(fails, mk, init);
      UntilAcceptedAll(fails, mk, init);
      assert offs[..k + 1] == offs && Each(mk, offs) == Each(mk, init) + [mk(offs[k])];
    } else {
      assert init[k] == offs[k] && init[..k + 1] == offs[..k + 1];
      assert SomeAccepted(fails, mk, init);
      UntilAcceptedStops(fails, mk, init, k);
    }
  }

  /** When the host refuses every piece delete, every one of them is sent. */
  lemma {:induction false} UntilAcceptedAll(fails: Call -> bool, mk: Vec -> Call, offs: seq<Vec>)
    requires !SomeAccepted(fails, mk, offs)
    ensures UntilAccepted(fails, mk, offs) == Each(mk, offs)
    decreases |offs|
  {
    if offs != [] {
      var init := offs[..|offs| - 1];
      forall j | 0 <= j < |init| ensures fails(mk(init[j])) {
        assert init[j] == offs[j];
      }
      UntilAcceptedAll(fails, mk, init);
      assert Each(mk, offs) == Each(mk, init) + [mk(offs[|offs| - 1])];
    }
  }

  /**
   * As written: with a host that accepts everything, a chunked delete sends
   * only the first piece's delete, leaves every other name stored, and
   * reports an error.
   */
  lemma DeleteFlagInverted(stored: set<string>, q: string, m: StructureMeta)
    requires m.subRegions.Some? && m.subRegions.value != []
    ensures DeleteFails(_ => false, q, m)
    ensures DeleteTrace(_ => false, q, m) == [DeleteCall(ChunkName(q, m.subRegions.value[0]))]
    ensures Effect(_ => false, stored, DeleteTrace(_ => false, q, m)) == stored - {ChunkName(q, m.subRegions.value[0])}
  {
    var subs := m.subRegions.value;
    var first := DeleteCall(ChunkName(q, subs[0]));
    assert !(_ => false)(ChunkDeleter(q)(subs[0]));
    UntilAcceptedStops(_ => false, ChunkDeleter(q), subs, 0);
    assert Each(ChunkDeleter(q), subs[..1]) == [first];
    assert [first][..0] == [];
  }

  /** As written, on the region two pieces wide: an accepting host deletes the first piece only, so the second leaks. */
  lemma WideDeleteLeaks(stored: set<string>, q: string, m: StructureMeta)
    requires m.subRegions == Some(ChunkOffsets(Vec(65, 1, 1)))
    requires ChunkName(q, Vec(64, 0, 0)) in stored
    ensures DeleteFails(_ => false, q, m)
    ensures ChunkName(q, Vec(64, 0, 0)) in Effect(_ => false, stored, DeleteTrace(_ => false, q, m))
  {
    WideOffsets();
    WideNames(q);
    DeleteFlagInverted(stored, q, m);
  }

  /** As written: a chunked delete that reports success sent every piece delete and deleted nothing. */
  lemma DeleteSuccessDeletedNothing(fails: Call -> bool, stored: set<string>, q: string, m: StructureMeta)
    requires m.subRegions.Some? && !DeleteFails(fails, q, m)
    ensures DeleteTrace(fails, q, m) == EntryDeletes(q, m)
    ensures Effect(fails, stored, DeleteTrace(fails, q, m)) == stored
  {
    UntilAcceptedAll(fails, ChunkDeleter(q), m.subRegions.value);
    var trace := EntryDeletes(q, m);
    forall i | 0 <= i < |trace| ensures fails(trace[i]) {
      assert trace[i] == ChunkDeleter(q)(m.subRegions.value[i]);
    }
    EffectRefused(fails, stored, trace);
  }

  /** The corrected flag: an error when some delete was refused. */
  predicate FixedDeleteFails(fails: Call -> bool, q: string, m: StructureMeta)
  {
    var trace := EntryDeletes(q, m);
    exists i :: 0 <= i < |trace| && fails(trace[i])
  }

  /**
   * Corrected: a delete that reports success has removed every name the
   * entry was stored under; one that reports an error left at least one
   * refused name. For an unsplit entry it agrees with the store's flag.
   */
  lemma FixedDeleteFlag(fails: Call -> bool, stored: set<string>, q: string, m: StructureMeta)
    ensures !FixedDeleteFails(fails, q, m) ==> Effect(fails, stored, EntryDeletes(q, m)) == stored - Names(EntryDeletes(q, m))
    ensures FixedDeleteFails(fails, q, m) ==> exists i :: 0 <= i < |EntryDeletes(q, m)| && fails(EntryDeletes(q, m)[i])
    ensures m.subRegions.None? ==> (FixedDeleteFails(fails, q, m) <==> DeleteFails(fails, q, m))
  {
    var trace := EntryDeletes(q, m);
    if !FixedDeleteFails(fails, q, m) {
      EffectDeletes(fails, stored, trace);
    }
    if m.subRegions.None? {
      assert trace[0] == DeleteCall(q);
    }
  }

  // ---------------------------------------------------------------------
  // Finding: the per-player sweep.
  //
  // deletePlayer deletes each of the player's entries under its qualified
  // name only. A split entry's data lives under its pieces' names, so the
  // sweep leaves it all on the host.

  /** As written: a name that is no entry's key, such as a piece's name, keeps its status through the sweep. */
  lemma SweepLeavesPieces(fails: Call -> bool, stored: set<string>, structures: map<string, StructureMeta>, suffix: string,
                          order: seq<string>, n: string)
    requires forall k :: k in order ==> k in OwnedKeys(structures, suffix)
    requires n !in structures
    ensures n in Effect(fails, stored, Deletes(order)) <==> n in stored
  {
    var calls := Deletes(order);
    forall i | 0 <= i < |calls| ensures calls[i].name != n {
      assert calls[i].name == order[i] && order[i] in order;
    }
    EffectUntouched(fails, stored, calls, n);
  }

  /** The corrected sweep: delete every name each entry is stored under, entry by entry. */
  function FixedSweep(structures: map<string, StructureMeta>, order: seq<string>): seq<Call>
    requires forall k :: k in order ==> k in structures
    decreases |order|
  {
    if order == [] then []
    else FixedSweep(structures, order[..|order| - 1]) + EntryDeletes(order[|order| - 1], structures[order[|order| - 1]])
  }

  lemma {:induction false} FixedSweepDeletes(structures: map<string, StructureMeta>, order: seq<string>, i: int, j: int)
    requires forall k :: k in order ==> k in structures
    requires 0 <= i < |order| && 0 <= j < |EntryDeletes(order[i], structures[order[i]])|
    ensures EntryDeletes(order[i], structures[order[i]])[j] in FixedSweep(structures, order)
    decreases |order|
  {
    var init := order[..|order| - 1];
    var last := EntryDeletes(order[|order| - 1], structures[order[|order| - 1]]);
    assert FixedSweep(structures, order) == FixedSweep(structures, init) + last;
    if i < |order| - 1 {
      assert init[i] == order[i];
      assert forall k :: k in init ==> k in order;
      FixedSweepDeletes(structures, init, i, j);
    } else {
      assert last[j] in last;
    }
  }

  lemma {:induction false} FixedSweepOnlyDeletes(structures: map<string, StructureMeta>, order: seq<string>)
    requires forall k :: k in order ==> k in structures
    ensures forall c :: c in FixedSweep(structures, order) ==> c.DeleteCall?
    decreases |order|
  {
    if order != [] {
      var init := order[..|order| - 1];
      assert forall k :: k in init ==> k in order;
      FixedSweepOnlyDeletes(structures, init);
    }
  }

  /**
   * Corrected: when the host accepts deletes, the sweep leaves nothing stored
   * under any name of any of the player's entries, split or not.
   */
  lemma FixedSweepClears(fails: Call -> bool, stored: set<string>, structures: map<string, StructureMeta>, order: seq<string>,
                         i: int, j: int)
    requires forall k :: k in order ==> k in structures
    requires forall n :: !fails(DeleteCall(n))
    requires 0 <= i < |order| && 0 <= j < |EntryDeletes(order[i], structures[order[i]])|
    ensures EntryDeletes(order[i], structures[order[i]])[j].name !in Effect(fails, stored, FixedSweep(structures, order))
  {
    var calls := FixedSweep(structures, order);
    FixedSweepOnlyDeletes(structures, order);
    forall k | 0 <= k < |calls| ensures calls[k].DeleteCall? && !fails(calls[k]) {
      assert calls[k] in calls;
    }
    EffectDeletes(fails, stored, calls);
    FixedSweepDeletes(structures, order, i, j);
    var c := EntryDeletes(order[i], structures[order[i]])[j];
    var k :| 0 <= k < |calls| && calls[k] == c;
  }
}
