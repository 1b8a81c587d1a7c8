/**
 * The region snapshot store: named cuboid captures kept through the host's
 * structure primitive, split into pieces when larger than the primitive
 * accepts, with a short random id per player to namespace the names.
 *
 * As in the source, every operation answers `true` for failure.
 */
module Regions {
  import opened Wrappers
  import opened Vectors
  import opened Chunks
  import opened Structures

  const IdChars := "ABCDEFGHIJKLMNOPQRSTUVWXYZabcdefghijklmnopqrstuvwxyz0123456789"
  const IdLength := 4

  /** The metadata kept per stored region; `subRegions` is absent when the region was saved in one piece. */
  datatype StructureMeta = StructureMeta(subRegions: Option<seq<Vec>>, position: Vec, size: Vec, origin: Vec, blockCount: int)

  datatype LoadMode = Absolute | Relative

  // ---------------------------------------------------------------------
  // Player ids.

  /** Four draws of `Math.floor(Math.random() * 62)`. */
  predicate ValidRoll(roll: seq<int>)
  {
    |roll| == IdLength && forall j :: 0 <= j < |roll| ==> 0 <= roll[j] < |IdChars|
  }

  predicate ValidRolls(rolls: seq<seq<int>>)
  {
    forall k :: 0 <= k < |rolls| ==> ValidRoll(rolls[k])
  }

  function IdOf(roll: seq<int>): string
    requires ValidRoll(roll)
  {
    seq(IdLength, j requires 0 <= j < IdLength => IdChars[roll[j]])
  }

  predicate ValidId(id: string)
  {
    |id| == IdLength && forall j :: 0 <= j < |id| ==> id[j] in IdChars
  }

  /** Some roll gives an id not in `taken`, so the do-while stops. */
  predicate HasFresh(taken: set<string>, rolls: seq<seq<int>>)
    requires ValidRolls(rolls)
  {
    exists k :: 0 <= k < |rolls| && IdOf(rolls[k]) !in taken
  }

  /** The id the do-while settles on: that of the first roll not already taken. */
  function FirstFreshId(taken: set<string>, rolls: seq<seq<int>>): (id: string)
    requires ValidRolls(rolls) && HasFresh(taken, rolls)
    ensures id !in taken && ValidId(id)
    ensures exists k :: 0 <= k < |rolls| && id == IdOf(rolls[k]) && forall j :: 0 <= j < k ==> IdOf(rolls[j]) in taken
  {
    if IdOf(rolls[0]) !in taken then IdOf(rolls[0])
    else
      var id := FirstFreshId(taken, rolls[1..]);
      assert forall j :: 1 <= j < |rolls| ==> IdOf(rolls[1..][j - 1]) == IdOf(rolls[j]);
      id
  }

  lemma FirstFreshIdAt(taken: set<string>, rolls: seq<seq<int>>, k: int)
    requires ValidRolls(rolls) && 0 <= k < |rolls|
    requires IdOf(rolls[k]) !in taken && forall j :: 0 <= j < k ==> IdOf(rolls[j]) in taken
    ensures FirstFreshId(taken, rolls) == IdOf(rolls[k])
  {
    var id := FirstFreshId(taken, rolls);
    var m :| 0 <= m < |rolls| && id == IdOf(rolls[m]) && forall j :: 0 <= j < m ==> IdOf(rolls[j]) in taken;
  }

  /** What genName's caller must supply: valid rolls, and a fresh one if the player has no id yet. */
  predicate CanDraw(ids: map<string, string>, player: string, rolls: seq<seq<int>>)
  {
    ValidRolls(rolls) && (player !in ids ==> HasFresh(ids.Values, rolls))
  }

  /** The id table after genName: unchanged for a known player, one new entry otherwise. */
  function IdsAfter(ids: map<string, string>, player: string, rolls: seq<seq<int>>): map<string, string>
    requires CanDraw(ids, player, rolls)
  {
    if player in ids then ids else ids[player := FirstFreshId(ids.Values, rolls)]
  }

  function QualifiedName(name: string, id: string): string
  {
    "wedit:" + name + "_" + id
  }

  // ---------------------------------------------------------------------
  // What save does, as functions of its inputs and the host's oracle.

  function ChunkName(q: string, off: Vec): string
  {
    q + "_" + IntToString(off.x) + "_" + IntToString(off.y) + "_" + IntToString(off.z)
  }

  /** The save call for the piece at `off` of the region with lower corner `min`. */
  function ChunkSaveCall(q: string, min: Vec, size: Vec, off: Vec, includeEntities: bool): (c: Call)
    ensures c.SaveCall? && c.name == ChunkName(q, off) && c.from == AddLocations(min, off)
  {
    SaveCall(ChunkName(q, off), AddLocations(min, off),
             AddLocations(ChunkEnd(size, off), SubtractLocations(min, Vec(1, 1, 1))), includeEntities)
  }

  /** The host call that saves the piece at `off`. */
  function ChunkSaver(q: string, min: Vec, size: Vec, includeEntities: bool): Vec -> Call
  {
    off => ChunkSaveCall(q, min, size, off, includeEntities)
  }

  /** One call per piece, in the order of the pieces. */
  function Each(mk: Vec -> Call, offs: seq<Vec>): (calls: seq<Call>)
    ensures |calls| == |offs|
  {
    seq(|offs|, i requires 0 <= i < |offs| => mk(offs[i]))
  }

  /** Some piece of `offs` is refused by the host. */
  predicate PieceFails(fails: Call -> bool, save: Vec -> Call, offs: seq<Vec>)
    decreases |offs|
  {
    offs != [] && (fails(save(offs[0])) || PieceFails(fails, save, offs[1..]))
  }

  /** As written, the cleanup after a refused piece: `count` deletes of the refused piece's own name. */
  function Rollback(name: string, count: nat): seq<Call>
  {
    seq(count, _ => DeleteCall(name))
  }

  /**
   * The calls the piece loop issues over `offs` when `before` pieces were
   * saved earlier: each piece in turn, and at the first refusal the rollback.
   */
  function PieceTrace(fails: Call -> bool, save: Vec -> Call, offs: seq<Vec>, before: nat): seq<Call>
    decreases |offs|
  {
    if offs == [] then []
    else
      var c := save(offs[0]);
      if fails(c) then [c] + Rollback(c.name, before)
      else [c] + PieceTrace(fails, save, offs[1..], before + 1)
  }

  /** The piece loop over two lists is the loop over the first, then, unless it failed, the loop over the second. */
  lemma {:induction false} PieceAppend(fails: Call -> bool, save: Vec -> Call, a: seq<Vec>, b: seq<Vec>, before: nat)
    ensures PieceFails(fails, save, a + b) <==> PieceFails(fails, save, a) || PieceFails(fails, save, b)
    ensures PieceTrace(fails, save, a + b, before)
         == if PieceFails(fails, save, a) then PieceTrace(fails, save, a, before)
            else PieceTrace(fails, save, a, before) + PieceTrace(fails, save, b, before + |a|)
    decreases |a|
  {
    var ab := a + b;
    if a == [] {
      assert ab == b;
    } else {
      assert ab[0] == a[0] && ab[1..] == a[1..] + b;
      PieceAppend(fails, save, a[1..], b, before + 1);
    }
  }

  /** A loop step whose part the host accepts throughout extends the trace by that part's trace. */
  lemma PieceStepAccepted(fails: Call -> bool, save: Vec -> Call, done: seq<Vec>, part: seq<Vec>, before: nat)
    requires !PieceFails(fails, save, done) && !PieceFails(fails, save, part)
    ensures !PieceFails(fails, save, done + part)
    ensures PieceTrace(fails, save, done + part, before) == PieceTrace(fails, save, done, before) + PieceTrace(fails, save, part, before + |done|)
  {
    PieceAppend(fails, save, done, part, before);
  }

  /** A loop step whose part the host refuses ends the loop over `done + (part + rest)` with that part's trace. */
  lemma PieceStepRefused(fails: Call -> bool, save: Vec -> Call, done: seq<Vec>, part: seq<Vec>, rest: seq<Vec>, before: nat)
    requires !PieceFails(fails, save, done) && PieceFails(fails, save, part)
    ensures PieceFails(fails, save, done + (part + rest))
    ensures PieceTrace(fails, save, done + (part + rest), before) == PieceTrace(fails, save, done, before) + PieceTrace(fails, save, part, before + |done|)
  {
    PieceAppend(fails, save, done, part + rest, before);
    PieceAppend(fails, save, part, rest, before + |done|);
  }

  /** A piece loop the host accepts throughout issues exactly one save per piece, in the order of the pieces. */
  lemma {:induction false} PieceTraceAccepted(fails: Call -> bool, save: Vec -> Call, offs: seq<Vec>, before: nat)
    requires !PieceFails(fails, save, offs)
    ensures PieceTrace(fails, save, offs, before) == Each(save, offs)
    decreases |offs|
  {
    if offs != [] {
      PieceTraceAccepted(fails, save, offs[1..], before + 1);
      assert Each(save, offs) == [save(offs[0])] + Each(save, offs[1..]);
    }
  }

  /** The calls one save issues: one call, or the piece loop over every piece. */
  function SaveTrace(fails: Call -> bool, q: string, start: Vec, end: Vec, includeEntities: bool): seq<Call>
  {
    var min, size := RegionMin(start, end), RegionSize(start, end);
    if !NeedsChunks(size) then [SaveCall(q, min, RegionMax(start, end), includeEntities)]
    else PieceTrace(fails, ChunkSaver(q, min, size, includeEntities), ChunkOffsets(size), 0)
  }

  function SaveFails(fails: Call -> bool, q: string, start: Vec, end: Vec, includeEntities: bool): bool
  {
    var min, size := RegionMin(start, end), RegionSize(start, end);
    if !NeedsChunks(size) then fails(SaveCall(q, min, RegionMax(start, end), includeEntities))
    else PieceFails(fails, ChunkSaver(q, min, size, includeEntities), ChunkOffsets(size))
  }

  /** The entry a successful save records. */
  function SavedMeta(start: Vec, end: Vec, playerPos: Vec): StructureMeta
  {
    var min, size := RegionMin(start, end), RegionSize(start, end);
    StructureMeta(if NeedsChunks(size) then Some(ChunkOffsets(size)) else None,
                  min, size, SubtractLocations(playerPos, min), RegionVolume(start, end))
  }

  /** An entry as save records it: a positive size, and a piece list exactly when the size is over the limit. */
  predicate WellFormed(m: StructureMeta)
  {
    && m.size.x >= 1 && m.size.y >= 1 && m.size.z >= 1
    && (m.subRegions.Some? <==> NeedsChunks(m.size))
  }

  // ---------------------------------------------------------------------
  // What load and delete do.

  /** Where a load puts the region's lower corner. */
  function Placement(m: StructureMeta, location: Vec, mode: LoadMode): Vec
  {
    if mode == Relative then SubtractLocations(location, m.origin) else location
  }

  /** The host call that loads the piece at `off` of a region placed at `place`. */
  function ChunkLoader(q: string, place: Vec): Vec -> Call
  {
    off => LoadCall(ChunkName(q, off), AddLocations(place, off))
  }

  /** The host call that deletes the piece at `off`. */
  function ChunkDeleter(q: string): Vec -> Call
  {
    off => DeleteCall(ChunkName(q, off))
  }

  /** The host accepts at least one of the calls. */
  predicate SomeAccepted(fails: Call -> bool, mk: Vec -> Call, offs: seq<Vec>)
  {
    exists i :: 0 <= i < |offs| && !fails(mk(offs[i]))
  }

  function LoadTrace(q: string, m: StructureMeta, place: Vec): seq<Call>
  {
    match m.subRegions
    case None => [LoadCall(q, place)]
    case Some(subs) => Each(ChunkLoader(q, place), subs)
  }

  /** As written, a split load fails only when every piece fails. */
  predicate LoadFails(fails: Call -> bool, q: string, m: StructureMeta, place: Vec)
  {
    match m.subRegions
    case None => fails(LoadCall(q, place))
    case Some(subs) => !SomeAccepted(fails, ChunkLoader(q, place), subs)
  }

  /** The host accepts one of the first `i` calls, or the `i`-th itself. */
  lemma SomeAcceptedSnoc(fails: Call -> bool, mk: Vec -> Call, offs: seq<Vec>, i: int)
    requires 0 <= i < |offs|
    ensures SomeAccepted(fails, mk, offs[..i + 1]) <==> SomeAccepted(fails, mk, offs[..i]) || !fails(mk(offs[i]))
  {
    if !fails(mk(offs[i])) {
      assert offs[..i + 1][i] == offs[i];
    }
    if SomeAccepted(fails, mk, offs[..i]) {
      var j :| 0 <= j < i && !fails(mk(offs[..i][j]));
      assert offs[..i + 1][j] == offs[..i][j];
    }
    if SomeAccepted(fails, mk, offs[..i + 1]) && fails(mk(offs[i])) {
      var j :| 0 <= j < i + 1 && !fails(mk(offs[..i + 1][j]));
      assert j < i && offs[..i][j] == offs[..i + 1][j];
    }
  }

  /** One delete for each name the entry is stored under: its own, or each of its pieces'. */
  function EntryDeletes(q: string, m: StructureMeta): seq<Call>
  {
    match m.subRegions
    case None => [DeleteCall(q)]
    case Some(subs) => Each(ChunkDeleter(q), subs)
  }

  /**
   * As written, the piece deletes a split delete sends. Its flag is or-ed in
   * with a short-circuit, so once the host has accepted one delete no
   * further delete is sent.
   */
  function UntilAccepted(fails: Call -> bool, mk: Vec -> Call, offs: seq<Vec>): (calls: seq<Call>)
    ensures |calls| <= |offs|
    decreases |offs|
  {
    if offs == [] then []
    else
      var init := offs[..|offs| - 1];
      if SomeAccepted(fails, mk, init) then UntilAccepted(fails, mk, init)
      else UntilAccepted(fails, mk, init) + [mk(offs[|offs| - 1])]
  }

  /** As written, the deletes a delete of a known entry sends. */
  function DeleteTrace(fails: Call -> bool, q: string, m: StructureMeta): seq<Call>
  {
    match m.subRegions
    case None => [DeleteCall(q)]
    case Some(subs) => UntilAccepted(fails, ChunkDeleter(q), subs)
  }

  /** As written, a split delete reports an error as soon as one piece is deleted. */
  predicate DeleteFails(fails: Call -> bool, q: string, m: StructureMeta)
  {
    match m.subRegions
    case None => fails(DeleteCall(q))
    case Some(subs) => SomeAccepted(fails, ChunkDeleter(q), subs)
  }

  /** The suffix deletePlayer matches; a player without an id gives the text "undefined". */
  function PlayerSuffix(ids: map<string, string>, player: string): string
  {
    "_" + (if player in ids then ids[player] else "undefined")
  }

  predicate EndsWith(s: string, suffix: string)
  {
    |suffix| <= |s| && s[|s| - |suffix|..] == suffix
  }

  /** The entries deletePlayer keeps: those of other players, and its own whose delete failed. */
  function SurvivorsOf(fails: Call -> bool, structures: map<string, StructureMeta>, suffix: string): map<string, StructureMeta>
  {
    map k | k in structures && !(EndsWith(k, suffix) && !fails(DeleteCall(k))) :: structures[k]
  }

  /** What deletePlayer keeps once it has visited the keys `visited`. */
  function KeptAfter(fails: Call -> bool, start: map<string, StructureMeta>, suffix: string, visited: set<string>): map<string, StructureMeta>
  {
    map k | k in start && !(k in visited && EndsWith(k, suffix) && !fails(DeleteCall(k))) :: start[k]
  }

  lemma KeptStep(fails: Call -> bool, start: map<string, StructureMeta>, suffix: string, visited: set<string>, key: string)
    ensures KeptAfter(fails, start, suffix, visited + {key})
         == if EndsWith(key, suffix) && !fails(DeleteCall(key)) then KeptAfter(fails, start, suffix, visited) - {key}
            else KeptAfter(fails, start, suffix, visited)
  {
  }

  lemma KeptAll(fails: Call -> bool, start: map<string, StructureMeta>, suffix: string)
    ensures KeptAfter(fails, start, suffix, start.Keys) == SurvivorsOf(fails, start, suffix)
  {
  }

  lemma DeletesStep(log0: seq<Call>, order: seq<string>, key: string)
    ensures log0 + Deletes(order) + [DeleteCall(key)] == log0 + Deletes(order + [key])
  {
    assert Deletes(order + [key]) == Deletes(order) + [DeleteCall(key)];
  }

  /** `order` lists, once each, the visited keys that end in `suffix`. */
  ghost predicate ListsOwned(order: seq<string>, visited: set<string>, suffix: string)
  {
    DistinctNames(order) && forall k :: k in order <==> k in visited && EndsWith(k, suffix)
  }

  lemma ListsOwnedStep(order: seq<string>, visited: set<string>, suffix: string, key: string)
    requires ListsOwned(order, visited, suffix) && key !in visited
    ensures EndsWith(key, suffix) ==> ListsOwned(order + [key], visited + {key}, suffix)
    ensures !EndsWith(key, suffix) ==> ListsOwned(order, visited + {key}, suffix)
  {
  }

  function OwnedKeys(structures: map<string, StructureMeta>, suffix: string): set<string>
  {
    set k | k in structures && EndsWith(k, suffix)
  }

  predicate DistinctNames(names: seq<string>)
  {
    forall i, j :: 0 <= i < j < |names| ==> names[i] != names[j]
  }

  /** One delete per name, in order. */
  function Deletes(names: seq<string>): (calls: seq<Call>)
    ensures |calls| == |names|
  {
    seq(|names|, i requires 0 <= i < |names| => DeleteCall(names[i]))
  }

  // ---------------------------------------------------------------------

  class RegionsManager {
    var structures: map<string, StructureMeta>
    var ids: map<string, string>

    /** Ids are well formed and no two players share one; every entry is as save records it. */
    ghost predicate Valid()
      reads this
    {
      && (forall p :: p in ids ==> ValidId(ids[p]))
      && (forall p, p' :: p in ids && p' in ids && p != p' ==> ids[p] != ids[p'])
      && (forall k :: k in structures ==> WellFormed(structures[k]))
    }

    constructor()
      ensures Valid() && structures == map[] && ids == map[]
    {
      structures := map[];
      ids := map[];
    }

    /** The inner loop of genName: four characters picked by the roll. */
    static method IdFromRoll(roll: seq<int>) returns (id: string)
      requires ValidRoll(roll)
      ensures id == IdOf(roll) && ValidId(id)
    {
      id := "";
      var i := 0;
      while i < IdLength
        invariant 0 <= i <= IdLength
        invariant id == IdOf(roll)[..i]
      {
        id := id + [IdChars[roll[i]]];
        i := i + 1;
      }
    }

    /**
     * genName: the player's id is drawn once, on first use, by retrying until
     * it differs from every id in the table; the name is `wedit:<name>_<id>`.
     */
    method GenName(name: string, player: string, rolls: seq<seq<int>>) returns (q: string)
      requires Valid() && CanDraw(ids, player, rolls)
      modifies this`ids
      ensures Valid()
      ensures ids == IdsAfter(old(ids), player, rolls)
      ensures player in ids && q == QualifiedName(name, ids[player])
    {
      if player !in ids {
        ghost var m :| 0 <= m < |rolls| && IdOf(rolls[m]) !in ids.Values;
        var k := 0;
        var id := IdFromRoll(rolls[0]);
        while id in ids.Values
          invariant 0 <= k <= m && id == IdOf(rolls[k])
          invariant forall j :: 0 <= j < k ==> IdOf(rolls[j]) in ids.Values
          invariant ids == old(ids)
          decreases m - k
        {
          k := k + 1;
          id := IdFromRoll(rolls[k]);
        }
        FirstFreshIdAt(ids.Values, rolls, k);
        assert forall p :: p in ids ==> ids[p] in ids.Values;
        ids := ids[player := id];
      }
      q := QualifiedName(name, ids[player]);
    }

    /**
     * save: records the region between `start` and `end` under `name`. A
     * region within the limit goes to the host in one call; a larger one piece
     * by piece, stopping at the first refusal.
     */
    method Save(name: string, start: Vec, end: Vec, player: string, playerPos: Vec, includeEntities: bool,
                rolls: seq<seq<int>>, host: Host) returns (error: bool)
      requires Valid() && CanDraw(ids, player, rolls)
      modifies this, host
      ensures Valid()
      ensures ids == IdsAfter(old(ids), player, rolls)
      ensures var q := QualifiedName(name, ids[player]);
        && error == SaveFails(host.fails, q, start, end, includeEntities)
        && host.log == old(host.log) + SaveTrace(host.fails, q, start, end, includeEntities)
        && structures == if error then old(structures) else old(structures)[q := SavedMeta(start, end, playerPos)]
    {
      var structName := GenName(name, player, rolls);
      var meta;
      error, meta := SaveRegion(structName, start, end, playerPos, includeEntities, host);
      if !error {
        structures := structures[structName := meta];
      }
    }

    /** The part of save after the name is drawn: the host calls, and the entry to record when they succeed. */
    static method SaveRegion(structName: string, start: Vec, end: Vec, playerPos: Vec, includeEntities: bool, host: Host)
      returns (error: bool, meta: StructureMeta)
      modifies host
      ensures error == SaveFails(host.fails, structName, start, end, includeEntities)
      ensures host.log == old(host.log) + SaveTrace(host.fails, structName, start, end, includeEntities)
      ensures !error ==> meta == SavedMeta(start, end, playerPos) && WellFormed(meta)
    {
      var min := RegionMin(start, end);
      var max := RegionMax(start, end);
      var size := RegionSize(start, end);
      meta := StructureMeta(None, min, size, SubtractLocations(playerPos, min), RegionVolume(start, end));
      if size.x > MaxSize.x || size.y > MaxSize.y || size.z > MaxSize.z {
        var subStructs;
        error, subStructs := SavePieces(ChunkSaver(structName, min, size, includeEntities), ChunkOffsets(size), host);
        meta := meta.(subRegions := Some(subStructs));
      } else {
        error := host.Run(SaveCall(structName, min, max, includeEntities));
      }
    }

    /**
     * The piece loop of save. The source nests three loops, z outermost, then
     * y, then x; `offs` is the list of offsets they visit, in that order
     * (ChunkOffsets), and `save` gives the host call for each (ChunkSaver).
     * On the first refusal it runs the source's cleanup and fails.
     */
    static method SavePieces(save: Vec -> Call, offs: seq<Vec>, host: Host) returns (failed: bool, subStructs: seq<Vec>)
      modifies host
      ensures failed == PieceFails(host.fails, save, offs)
      ensures host.log == old(host.log) + PieceTrace(host.fails, save, offs, 0)
      ensures !failed ==> subStructs == offs
    {
      failed, subStructs := false, [];
      var i := 0;
      while i < |offs|
        invariant 0 <= i <= |offs| && subStructs == offs[..i]
        invariant !PieceFails(host.fails, save, offs[..i])
        invariant host.log == old(host.log) + PieceTrace(host.fails, save, offs[..i], 0)
      {
        var off := offs[i];
        var c := save(off);
        failed := host.Run(c);
        assert [off][0] == off && [off][1..] == [];
        if failed {
          assert offs[..i] + ([off] + offs[i + 1..]) == offs;
          PieceStepRefused(host.fails, save, offs[..i], [off], offs[i + 1..], 0);
          RollBack(c.name, |subStructs|, host);
          return;
        }
        assert offs[..i] + [off] == offs[..i + 1];
        PieceStepAccepted(host.fails, save, offs[..i], [off], 0);
        subStructs := subStructs + [off];
        i := i + 1;
      }
      assert offs[..i] == offs;
    }

    /**
     * The piece loop of load: one call per piece, in order, noting whether
     * the host accepted any of them.
     */
    static method RunPieces(mk: Vec -> Call, offs: seq<Vec>, host: Host) returns (anyAccepted: bool)
      modifies host
      ensures host.log == old(host.log) + Each(mk, offs)
      ensures anyAccepted == SomeAccepted(host.fails, mk, offs)
    {
      anyAccepted := false;
      var i := 0;
      while i < |offs|
        invariant 0 <= i <= |offs|
        invariant host.log == old(host.log) + Each(mk, offs[..i])
        invariant anyAccepted == SomeAccepted(host.fails, mk, offs[..i])
      {
        var failed := host.Run(mk(offs[i]));
        assert Each(mk, offs[..i + 1]) == Each(mk, offs[..i]) + [mk(offs[i])];
        SomeAcceptedSnoc(host.fails, mk, offs, i);
        anyAccepted := anyAccepted || !failed;
        i := i + 1;
      }
      assert offs[..i] == offs;
    }

    /**
     * The piece loop of delete: one call per piece, in order, until the host
     * accepts one; the answer says whether it did.
     */
    static method DeletePieces(mk: Vec -> Call, offs: seq<Vec>, host: Host) returns (anyAccepted: bool)
      modifies host
      ensures host.log == old(host.log) + UntilAccepted(host.fails, mk, offs)
      ensures anyAccepted == SomeAccepted(host.fails, mk, offs)
    {
      anyAccepted := false;
      var i := 0;
      while i < |offs|
        invariant 0 <= i <= |offs|
        invariant host.log == old(host.log) + UntilAccepted(host.fails, mk, offs[..i])
        invariant anyAccepted == SomeAccepted(host.fails, mk, offs[..i])
      {
        assert offs[..i + 1][..i] == offs[..i];
        SomeAcceptedSnoc(host.fails, mk, offs, i);
        if !anyAccepted {
          var failed := host.Run(mk(offs[i]));
          anyAccepted := !failed;
        }
        i := i + 1;
      }
      assert offs[..i] == offs;
    }

    /** The source's cleanup after a refused piece: `count` deletes, each of the name `name`. */
    static method RollBack(name: string, count: nat, host: Host)
      modifies host
      ensures host.log == old(host.log) + Rollback(name, count)
    {
      var i := 0;
      while i < count
        invariant 0 <= i <= count
        invariant host.log == old(host.log) + Rollback(name, i)
      {
        var _ := host.Run(DeleteCall(name));
        assert Rollback(name, i + 1) == Rollback(name, i) + [DeleteCall(name)];
        i := i + 1;
      }
    }

    /**
     * load: places a stored region. Relative mode puts it where it sat
     * relative to `location` when captured; absolute mode puts its lower corner
     * at `location`. Loading changes no entry.
     */
    method Load(name: string, location: Vec, player: string, mode: LoadMode, rolls: seq<seq<int>>, host: Host) returns (error: bool)
      requires Valid() && CanDraw(ids, player, rolls)
      modifies this`ids, host
      ensures Valid() && structures == old(structures)
      ensures ids == IdsAfter(old(ids), player, rolls)
      ensures var q := QualifiedName(name, ids[player]);
        if q !in structures then error && host.log == old(host.log)
        else
          var place := Placement(structures[q], location, mode);
          && host.log == old(host.log) + LoadTrace(q, structures[q], place)
          && error == LoadFails(host.fails, q, structures[q], place)
    {
      var structName := GenName(name, player, rolls);
      if structName in structures {
        var struct := structures[structName];
        var loadPos := location;
        if mode == Relative {
          loadPos := SubtractLocations(location, struct.origin);
        }
        if struct.subRegions.Some? {
          var success := RunPieces(ChunkLoader(structName, loadPos), struct.subRegions.value, host);
          return !success;
        } else {
          error := host.Run(LoadCall(structName, loadPos));
          return error;
        }
      }
      return true;
    }

    /** has: whether an entry exists under the player's qualified name. */
    method Has(name: string, player: string, rolls: seq<seq<int>>) returns (r: bool)
      requires Valid() && CanDraw(ids, player, rolls)
      modifies this`ids
      ensures Valid()
      ensures ids == IdsAfter(old(ids), player, rolls)
      ensures r <==> QualifiedName(name, ids[player]) in structures
    {
      var structName := GenName(name, player, rolls);
      r := structName in structures;
    }

    /** delete: drops a known entry whatever the host answers, after asking the host to delete its pieces. */
    method Delete(name: string, player: string, rolls: seq<seq<int>>, host: Host) returns (error: bool)
      requires Valid() && CanDraw(ids, player, rolls)
      modifies this, host
      ensures Valid()
      ensures ids == IdsAfter(old(ids), player, rolls)
      ensures var q := QualifiedName(name, ids[player]);
        if q !in old(structures) then error && host.log == old(host.log) && structures == old(structures)
        else
          && structures == old(structures) - {q}
          && host.log == old(host.log) + DeleteTrace(host.fails, q, old(structures)[q])
          && error == DeleteFails(host.fails, q, old(structures)[q])
    {
      var structName := GenName(name, player, rolls);
      if structName in structures {
        var struct := structures[structName];
        var err := false;
        if struct.subRegions.Some? {
          err := DeletePieces(ChunkDeleter(structName), struct.subRegions.value, host);
        } else {
          err := host.Run(DeleteCall(structName));
        }
        structures := structures - {structName};
        return err;
      }
      return true;
    }

    /**
     * deletePlayer: asks the host to delete every entry whose name ends in the
     * player's id, forgets the ones it accepted, then forgets the id. The
     * source walks the entries in insertion order; here the order is left open.
     */
    method DeletePlayer(player: string, host: Host) returns (r: bool, ghost order: seq<string>)
      requires Valid()
      modifies this, host
      ensures Valid()
      ensures !r
      ensures ids == old(ids) - {player}
      ensures var suffix := PlayerSuffix(old(ids), player);
        && structures == SurvivorsOf(host.fails, old(structures), suffix)
        && host.log == old(host.log) + Deletes(order)
        && DistinctNames(order)
        && forall k :: k in order <==> k in OwnedKeys(old(structures), suffix)
    {
      var suffix := "_" + (if player in ids then ids[player] else "undefined");
      structures, order := DeleteOwned(structures, suffix, host);
      ids := ids - {player};
      r := false;
    }

    /**
     * The loop of deletePlayer: one delete per entry whose name ends in
     * `suffix`, each entry visited once, in the order `order`; the entries
     * the host deleted are dropped from the returned map.
     */
    static method DeleteOwned(start: map<string, StructureMeta>, suffix: string, host: Host)
      returns (kept: map<string, StructureMeta>, ghost order: seq<string>)
      modifies host
      ensures kept == SurvivorsOf(host.fails, start, suffix)
      ensures host.log == old(host.log) + Deletes(order)
      ensures DistinctNames(order)
      ensures forall k :: k in order <==> k in OwnedKeys(start, suffix)
    {
      kept := start;
      assert kept == KeptAfter(host.fails, start, suffix, {});
      order := [];
      ghost var log0 := host.log;
      var remaining := start.Keys;
      ghost var visited: set<string> := {};
      while remaining != {}
        invariant remaining + visited == start.Keys && remaining !! visited
        invariant kept == KeptAfter(host.fails, start, suffix, visited)
        invariant host.log == log0 + Deletes(order)
        invariant ListsOwned(order, visited, suffix)
        decreases |remaining|
      {
        var key :| key in remaining;
        kept, order := DeleteOne(start, suffix, key, kept, order, visited, log0, host);
        remaining := remaining - {key};
        visited := visited + {key};
      }
      KeptAll(host.fails, start, suffix);
      assert visited == start.Keys;
    }

    /** One visit of deletePlayer's loop: deletes `key` when it is the player's. */
    static method DeleteOne(start: map<string, StructureMeta>, suffix: string, key: string, kept: map<string, StructureMeta>,
                            ghost order: seq<string>, ghost visited: set<string>, ghost log0: seq<Call>, host: Host)
      returns (kept': map<string, StructureMeta>, ghost order': seq<string>)
      requires kept == KeptAfter(host.fails, start, suffix, visited)
      requires host.log == log0 + Deletes(order)
      requires ListsOwned(order, visited, suffix) && key !in visited
      modifies host
      ensures kept' == KeptAfter(host.fails, start, suffix, visited + {key})
      ensures host.log == log0 + Deletes(order')
      ensures ListsOwned(order', visited + {key}, suffix)
    {
      KeptStep(host.fails, start, suffix, visited, key);
      ListsOwnedStep(order, visited, suffix, key);
      kept', order' := kept, order;
      if EndsWith(key, suffix) {
        var failed := host.Run(DeleteCall(key));
        DeletesStep(log0, order, key);
        order' := order + [key];
        if !failed {
          kept' := kept - {key};
        }
      }
    }

    /** The stored entry's origin; None where the source reads a property of `undefined` and throws. */
    method GetOrigin(name: string, player: string, rolls: seq<seq<int>>) returns (r: Option<Vec>)
      requires Valid() && CanDraw(ids, player, rolls)
      modifies this`ids
      ensures Valid() && ids == IdsAfter(old(ids), player, rolls)
      ensures var q := QualifiedName(name, ids[player]);
        r == if q in structures then Some(structures[q].origin) else None
    {
      var structName := GenName(name, player, rolls);
      r := if structName in structures then Some(structures[structName].origin) else None;
    }

    method GetPosition(name: string, player: string, rolls: seq<seq<int>>) returns (r: Option<Vec>)
      requires Valid() && CanDraw(ids, player, rolls)
      modifies this`ids
      ensures Valid() && ids == IdsAfter(old(ids), player, rolls)
      ensures var q := QualifiedName(name, ids[player]);
        r == if q in structures then Some(structures[q].position) else None
    {
      var structName := GenName(name, player, rolls);
      r := if structName in structures then Some(structures[structName].position) else None;
    }

    method GetSize(name: string, player: string, rolls: seq<seq<int>>) returns (r: Option<Vec>)
      requires Valid() && CanDraw(ids, player, rolls)
      modifies this`ids
      ensures Valid() && ids == IdsAfter(old(ids), player, rolls)
      ensures var q := QualifiedName(name, ids[player]);
        r == if q in structures then Some(structures[q].size) else None
    {
      var structName := GenName(name, player, rolls);
      r := if structName in structures then Some(structures[structName].size) else None;
    }

    method GetBlockCount(name: string, player: string, rolls: seq<seq<int>>) returns (r: Option<int>)
      requires Valid() && CanDraw(ids, player, rolls)
      modifies this`ids
      ensures Valid() && ids == IdsAfter(old(ids), player, rolls)
      ensures var q := QualifiedName(name, ids[player]);
        r == if q in structures then Some(structures[q].blockCount) else None
    {
      var structName := GenName(name, player, rolls);
      r := if structName in structures then Some(structures[structName].blockCount) else None;
    }
  }
}
