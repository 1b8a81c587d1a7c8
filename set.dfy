/**
 * The set command: `set` tries the pattern on every selected block the mask
 * lets through and counts the blocks it changed; the handler checks its
 * inputs and wraps the edit in a history record. Whether the pattern fails
 * to set a block is an oracle on the block's position, chosen by the
 * pattern's text.
 */
module SetCommand {
  import opened Wrappers
  import opened Vectors
  import opened History

  /** A block the mask lets through: every block when there is no mask. */
  predicate Passes(mask: Option<Vec -> bool>, b: Vec)
  {
    mask.None? || mask.value(b)
  }

  /** The blocks handed to the pattern, in selection order. */
  function Tried(selection: seq<Vec>, mask: Option<Vec -> bool>): (t: seq<Vec>)
    ensures |t| <= |selection|
  {
    if selection == [] then []
    else
      var last := selection[|selection| - 1];
      Tried(selection[..|selection| - 1], mask) + (if Passes(mask, last) then [last] else [])
  }

  /** Blocks the mask rejects are never handed to the pattern; every other selected block is. */
  lemma {:induction false} TriedMembers(selection: seq<Vec>, mask: Option<Vec -> bool>)
    ensures forall b :: b in Tried(selection, mask) <==> b in selection && Passes(mask, b)
  {
    if selection != [] {
      var n := |selection| - 1;
      TriedMembers(selection[..n], mask);
      assert selection == selection[..n] + [selection[n]];
    }
  }

  /** The blocks the pattern changed. */
  function Counted(selection: seq<Vec>, mask: Option<Vec -> bool>, setFails: Vec -> bool): nat
  {
    if selection == [] then 0
    else
      var last := selection[|selection| - 1];
      Counted(selection[..|selection| - 1], mask, setFails) + (if Passes(mask, last) && !setFails(last) then 1 else 0)
  }

  /** One `PlaceBlock` event per block handed to the pattern. */
  function Places(blocks: seq<Vec>): (events: seq<Event>)
    ensures |events| == |blocks|
  {
    if blocks == [] then [] else Places(blocks[..|blocks| - 1]) + [PlaceBlock(blocks[|blocks| - 1])]
  }

  lemma PlacesSnoc(blocks: seq<Vec>, b: Vec)
    ensures Places(blocks + [b]) == Places(blocks) + [PlaceBlock(b)]
  {
    assert (blocks + [b])[..|blocks|] == blocks;
  }

  /** The blocks of the selection that count: let through by the mask and changed. */
  function CountedIndices(selection: seq<Vec>, mask: Option<Vec -> bool>, setFails: Vec -> bool): set<nat>
  {
    set i: nat | i < |selection| && Passes(mask, selection[i]) && !setFails(selection[i])
  }

  /** The count is the number of selected blocks the mask lets through and the pattern changes. */
  lemma {:induction false} CountedIsIndices(selection: seq<Vec>, mask: Option<Vec -> bool>, setFails: Vec -> bool)
    ensures Counted(selection, mask, setFails) == |CountedIndices(selection, mask, setFails)|
    ensures Counted(selection, mask, setFails) <= |selection|
  {
    if selection != [] {
      var n := |selection| - 1;
      var front := selection[..n];
      CountedIsIndices(front, mask, setFails);
      var a := CountedIndices(front, mask, setFails);
      var b := CountedIndices(selection, mask, setFails);
      assert forall i :: 0 <= i < n ==> front[i] == selection[i];
      if Passes(mask, selection[n]) && !setFails(selection[n]) {
        assert b == a + {n};
        assert n !in a;
      } else {
        assert b == a;
      }
    }
  }

  /** With no mask every selected block is handed to the pattern, in order. */
  lemma {:induction false} NoMaskTriesAll(selection: seq<Vec>)
    ensures Tried(selection, None) == selection
  {
    if selection != [] {
      NoMaskTriesAll(selection[..|selection| - 1]);
    }
  }

  /**
   * set: hands each selected block the mask lets through to the pattern, and
   * counts those it did not fail on.
   */
  method SetBlocks(selection: seq<Vec>, mask: Option<Vec -> bool>, setFails: Vec -> bool, journal: Journal)
    returns (count: nat)
    modifies journal
    ensures journal.events == old(journal.events) + Places(Tried(selection, mask))
    ensures count == Counted(selection, mask, setFails)
  {
    ghost var log0 := journal.events;
    count := 0;
    for i := 0 to |selection|
      invariant journal.events == log0 + Places(Tried(selection[..i], mask))
      invariant count == Counted(selection[..i], mask, setFails)
    {
      var b := selection[i];
      SetStep(selection, mask, setFails, i);
      if mask.Some? && !mask.value(b) {
        assert Tried(selection[..i], mask) + [] == Tried(selection[..i], mask);
        continue;
      }
      PlacesSnoc(Tried(selection[..i], mask), b);
      journal.Add(PlaceBlock(b));
      if setFails(b) {
        continue;
      }
      count := count + 1;
    }
    assert selection[..|selection|] == selection;
  }

  lemma SetStep(selection: seq<Vec>, mask: Option<Vec -> bool>, setFails: Vec -> bool, i: nat)
    requires i < |selection|
    ensures var b := selection[i];
      Tried(selection[..i + 1], mask) == Tried(selection[..i], mask) + (if Passes(mask, b) then [b] else [])
      && Counted(selection[..i + 1], mask, setFails) == Counted(selection[..i], mask, setFails) + (if Passes(mask, b) && !setFails(b) then 1 else 0)
  {
    assert selection[..i + 1][..i] == selection[..i];
  }

  /** What the handler reads from the player's session. */
  datatype SessionView = SessionView(
    selected: seq<Vec>,
    usingItem: bool,
    globalPattern: string,
    cuboid: bool,
    pos1: Vec,
    pos2: Vec)

  const NoSelection := "You need to make a selection to set!"
  const NoPattern := "You need to specify a block to set the selection to!"

  /** No pattern: no argument while not using an item, or an empty item pattern. */
  predicate PatternMissing(s: SessionView, args: seq<string>)
  {
    (|args| == 0 && !s.usingItem) || (s.usingItem && s.globalPattern == "")
  }

  /** The pattern's text: the item's pattern when using one, else the first argument. */
  function ChosenPattern(s: SessionView, args: seq<string>): (p: string)
    requires !PatternMissing(s, args)
    ensures s.usingItem ==> p == s.globalPattern && p != ""
    ensures !s.usingItem ==> p == args[0]
  {
    if s.usingItem then s.globalPattern else args[0]
  }

  /** The history calls of a successful set, with the block edits between them. */
  function SetEvents(s: SessionView): seq<Event>
  {
    var lo := RegionMin(s.pos1, s.pos2);
    var hi := RegionMax(s.pos1, s.pos2);
    [Event.Record]
    + (if s.cuboid then [AddUndo(Some(lo), Some(hi), AnyShape)] else [])
    + Places(s.selected)
    + [if s.cuboid then AddRedo(Some(lo), Some(hi), AnyShape) else AddRedo(None, None, BlockList([])), Event.Commit]
  }

  function SetMessage(count: nat): RawText
  {
    [Translate("worldedit.set.changed", [NatToString(count)])]
  }

  /**
   * The handler: throws on an empty selection or a missing pattern before
   * touching the history; otherwise records, saves the undo bounds (cuboid
   * selections only), sets every selected block without a mask, saves the
   * redo bounds and commits.
   */
  method Handle(s: SessionView, args: seq<string>, history: EditHistory, setFailsFor: string -> Vec -> bool)
    returns (r: CommandResult)
    modifies history, history.journal
    ensures |s.selected| == 0 ==> r == Thrown(NoSelection, None)
    ensures |s.selected| > 0 && PatternMissing(s, args) ==> r == Thrown(NoPattern, None)
    ensures r.Thrown? ==> history.journal.events == old(history.journal.events) && history.recording == old(history.recording)
    ensures r.Done? <==> |s.selected| > 0 && !PatternMissing(s, args)
    ensures r.Done? ==>
      r.msg == SetMessage(Counted(s.selected, None, setFailsFor(ChosenPattern(s, args))))
      && history.journal.events == old(history.journal.events) + SetEvents(s)
      && !history.recording
    ensures history.undos == old(history.undos)
  {
    if |s.selected| == 0 {
      return Thrown(NoSelection, None);
    }
    if PatternMissing(s, args) {
      return Thrown(NoPattern, None);
    }
    var pattern := ChosenPattern(s, args);
    ghost var log0 := history.journal.events;
    history.Record();
    var start: Option<Vec>, end: Option<Vec> := None, None;
    if s.cuboid {
      start, end := Some(RegionMin(s.pos1, s.pos2)), Some(RegionMax(s.pos1, s.pos2));
      history.AddUndoStructure(start, end, AnyShape);
    }
    var count := SetBlocks(s.selected, None, setFailsFor(pattern), history.journal);
    NoMaskTriesAll(s.selected);
    history.AddRedoStructure(start, end, if s.cuboid then AnyShape else BlockList([]));
    history.Commit();
    r := Done(SetMessage(count));
  }

  /**
   * In the events of a successful set, `record` comes first and `commit`
   * last, the undo bounds (cuboid only) precede every block edit, and the
   * redo bounds follow them all.
   */
  lemma SetEventsOrder(s: SessionView)
    ensures var e := SetEvents(s);
      var u := if s.cuboid then 1 else 0;
      |e| == |s.selected| + u + 3
      && e[0] == Event.Record && e[|e| - 1] == Event.Commit && e[|e| - 2].AddRedo?
      && (s.cuboid ==> e[1].AddUndo? && e[1].start == Some(RegionMin(s.pos1, s.pos2)) && e[1].end == Some(RegionMax(s.pos1, s.pos2)))
      && (forall i :: 0 <= i < |e| && e[i].PlaceBlock? ==> 1 + u <= i < |e| - 2)
  {
    var e := SetEvents(s);
    var u := if s.cuboid then 1 else 0;
    PlacesOnly(s.selected);
    assert forall i :: 1 + u <= i < |e| - 2 ==> e[i] == Places(s.selected)[i - 1 - u];
  }

  lemma {:induction false} PlacesOnly(blocks: seq<Vec>)
    ensures forall i :: 0 <= i < |blocks| ==> Places(blocks)[i] == PlaceBlock(blocks[i])
  {
    if blocks != [] {
      PlacesOnly(blocks[..|blocks| - 1]);
    }
  }
}
