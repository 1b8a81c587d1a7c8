/**
 * The base of every wand and brush: binding the plain item to the tool
 * item, choosing the activation tag, and running the item's handler while
 * suppressing a plain use on the tick a block use already ran. The
 * player's inventory is an array of optional item ids; whether the engine
 * removes a tag, and whether a handler throws, are inputs.
 */
module Tools {
  import opened Wrappers
  import opened Vectors
  import opened PlayerUtil

  /** Which handler `process` ran. */
  datatype Ran = NoHandler | RanUse | RanUseOn

  /** The tag `process` removes: the block variant only for a block use of a tool with both handlers. */
  function TagFor(tag: string, onBlock: bool, hasUse: bool, hasUseOn: bool): (t: string)
    ensures t == tag + "_block" <==> onBlock && hasUse && hasUseOn
    ensures t == tag || t == tag + "_block"
  {
    assert |tag + "_block"| != |tag|;
    if onBlock && hasUseOn && hasUse then tag + "_block" else tag
  }

  /** `process` gives up before touching the tag: the handler for this kind of use is missing. */
  predicate HandlerMissing(onBlock: bool, hasUse: bool, hasUseOn: bool)
  {
    (!onBlock && !hasUse) || (onBlock && !hasUseOn)
  }

  class Tool {
    const tag: string
    const itemTool: string
    const itemBase: Option<string>
    const hasUse: bool
    const hasUseOn: bool
    var useOnTick: int
    var currentPlayer: Option<string>

    constructor(tag: string, itemTool: string, itemBase: Option<string>, hasUse: bool, hasUseOn: bool)
      ensures this.tag == tag && this.itemTool == itemTool && this.itemBase == itemBase
      ensures this.hasUse == hasUse && this.hasUseOn == hasUseOn
      ensures useOnTick == 0 && currentPlayer == None
    {
      this.tag, this.itemTool, this.itemBase := tag, itemTool, itemBase;
      this.hasUse, this.hasUseOn := hasUse, hasUseOn;
      useOnTick := 0;
      currentPlayer := None;
    }

    /**
     * process: binds the tool for a plain use when the player holds the base
     * item but not the tool; then, when the handler for this kind of use
     * exists, removes the activation tag and, if that succeeded, runs the
     * handler (a plain use only when no block use ran this tick), catching
     * what it throws. The answer is whether the tag was removed.
     */
    method Process(player: string, tick: int, loc: Option<Vec>, inv: array<Slot>, tagRemoved: string -> bool, throws: bool)
      returns (r: bool, tried: Option<string>, ran: Ran, errorShown: bool)
      modifies this, inv
      ensures var binds := loc.None? && itemBase.Some? && Holds(old(inv[..]), itemBase.value) && !Holds(old(inv[..]), itemTool);
        inv[..] == if binds then ReplacedFirst(old(inv[..]), itemBase.value, itemTool) else old(inv[..])
      ensures HandlerMissing(loc.Some?, hasUse, hasUseOn) ==> !r && tried.None?
      ensures !HandlerMissing(loc.Some?, hasUse, hasUseOn) ==>
        tried == Some(TagFor(tag, loc.Some?, hasUse, hasUseOn)) && r == tagRemoved(tried.value)
      ensures !r ==> ran == NoHandler && !errorShown && useOnTick == old(useOnTick) && currentPlayer == old(currentPlayer)
      ensures r && loc.Some? ==> ran == RanUseOn && useOnTick == tick
      ensures r && loc.None? ==> useOnTick == old(useOnTick) && ran == if old(useOnTick) == tick then NoHandler else RanUse
      ensures r ==> currentPlayer == None && errorShown == (throws && ran != NoHandler)
    {
      if loc.None? && itemBase.Some? {
        var hasBase := exists i :: 0 <= i < inv.Length && inv[i] == Some(itemBase.value);
        var hasTool := exists i :: 0 <= i < inv.Length && inv[i] == Some(itemTool);
        if hasBase && !hasTool {
          Bind(inv);
        }
      }
      ran, errorShown := NoHandler, false;
      if HandlerMissing(loc.Some?, hasUse, hasUseOn) {
        return false, None, ran, errorShown;
      }
      var t := TagFor(tag, loc.Some?, hasUse, hasUseOn);
      tried := Some(t);
      if tagRemoved(t) {
        currentPlayer := Some(player);
        if loc.None? {
          if useOnTick != tick {
            ran := RanUse;
          }
        } else {
          useOnTick := tick;
          ran := RanUseOn;
        }
        errorShown := ran != NoHandler && throws;
        currentPlayer := None;
        return true, tried, ran, errorShown;
      }
      return false, tried, ran, errorShown;
    }

    /** bind: the first base item in the inventory becomes the tool item. */
    method Bind(inv: array<Slot>)
      requires itemBase.Some?
      modifies inv
      ensures inv[..] == ReplacedFirst(old(inv[..]), itemBase.value, itemTool)
    {
      var _ := PlayerHandler.ReplaceItem(inv, itemBase.value, itemTool);
    }

    /**
     * unbind: only when the tool item is held; it turns back into the base
     * item when there is one, and is cleared from every slot otherwise.
     */
    method Unbind(inv: array<Slot>)
      modifies inv
      ensures !Holds(old(inv[..]), itemTool) ==> inv[..] == old(inv[..])
      ensures Holds(old(inv[..]), itemTool) && itemBase.Some? ==> inv[..] == ReplacedFirst(old(inv[..]), itemTool, itemBase.value)
      ensures Holds(old(inv[..]), itemTool) && itemBase.None? ==>
        forall i :: 0 <= i < inv.Length ==> inv[i] == if old(inv[i]) == Some(itemTool) then None else old(inv[i])
    {
      var hasTool := exists i :: 0 <= i < inv.Length && inv[i] == Some(itemTool);
      if hasTool {
        if itemBase.Some? {
          var _ := PlayerHandler.ReplaceItem(inv, itemTool, itemBase.value);
        } else {
          forall i | 0 <= i < inv.Length && inv[i] == Some(itemTool) {
            inv[i] := None;
          }
        }
      }
    }
  }

  /**
   * On the tick a block use ran, a plain use of the same tool does not run
   * its handler, though it still removes its tag.
   */
  method SameTickUseSuppressed(t: Tool, player: string, tick: int, at: Vec, inv: array<Slot>, tagRemoved: string -> bool)
    returns (first: bool, second: bool, ran: Ran)
    requires tagRemoved(TagFor(t.tag, true, t.hasUse, t.hasUseOn)) && t.hasUseOn
    modifies t, inv
    ensures first && ran == NoHandler
    ensures t.hasUse ==> second == tagRemoved(t.tag)
  {
    var tried, ran1, err1;
    first, tried, ran1, err1 := t.Process(player, tick, Some(at), inv, tagRemoved, false);
    var tried2, err2;
    second, tried2, ran, err2 := t.Process(player, tick, None, inv, tagRemoved, false);
  }
}
