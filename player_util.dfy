/**
 * The player helper's own logic: the per-player dimension cache that every
 * tick marks stale, the slot addressing of replaceItem, and the per-slot
 * moves of the hotbar stash and restore. Engine containers are arrays of
 * optional item ids; the engine's entity queries are inputs.
 */
module PlayerUtil {
  import opened Wrappers

  /** The dimensions the lookup tries, in order. */
  const Dimensions := ["overworld", "nether", "the end"]

  /** A cached lookup: whether it is from this tick, and the dimension found. */
  datatype DimEntry = DimEntry(upToDate: bool, dim: string)

  datatype Entity = Entity(id: string, nameTag: string)

  predicate IsPlayer(e: Entity, player: string)
  {
    e.id == "minecraft:player" && e.nameTag == player
  }

  predicate PlayerAmong(entities: seq<Entity>, player: string)
  {
    exists i :: 0 <= i < |entities| && IsPlayer(entities[i], player)
  }

  /** The first of `dims` where the player stands, if any. */
  function FirstDimension(dims: seq<string>, entitiesAt: string -> seq<Entity>, player: string): (r: Option<string>)
    ensures r.Some? ==> r.value in dims && PlayerAmong(entitiesAt(r.value), player)
    ensures r.Some? ==> exists k :: 0 <= k < |dims| && dims[k] == r.value && forall j :: 0 <= j < k ==> !PlayerAmong(entitiesAt(dims[j]), player)
    ensures r.None? <==> forall j :: 0 <= j < |dims| ==> !PlayerAmong(entitiesAt(dims[j]), player)
    decreases |dims|
  {
    if dims == [] then None
    else if PlayerAmong(entitiesAt(dims[0]), player) then Some(dims[0])
    else
      var r := FirstDimension(dims[1..], entitiesAt, player);
      assert forall j :: 1 <= j < |dims| ==> dims[j] == dims[1..][j - 1];
      if r.Some? then
        var k :| 0 <= k < |dims[1..]| && dims[1..][k] == r.value && forall j :: 0 <= j < k ==> !PlayerAmong(entitiesAt(dims[1..][j]), player);
        assert dims[k + 1] == r.value;
        r
      else r
  }

  /** A cache whose every entry is stale; each entry keeps its dimension. */
  function Staled(cache: map<string, DimEntry>): (r: map<string, DimEntry>)
    ensures r.Keys == cache.Keys
    ensures forall k :: k in r ==> !r[k].upToDate && r[k].dim == cache[k].dim
  {
    map k | k in cache :: cache[k].(upToDate := false)
  }

  /** How replaceItem addresses inventory index `i`. */
  datatype SlotType = Hotbar | Inventory

  function SlotOf(i: nat): (SlotType, nat)
  {
    if i > 8 then (Inventory, i - 9) else (Hotbar, i)
  }

  /** The inventory index a slot address stands for. */
  function IndexOf(slot: (SlotType, nat)): nat
  {
    if slot.0 == Inventory then slot.1 + 9 else slot.1
  }

  /** Distinct inventory indices get distinct addresses: each index is recovered from its address. */
  lemma SlotOfInverse(i: nat)
    ensures IndexOf(SlotOf(i)) == i
    ensures SlotOf(i).0 == Hotbar <==> i <= 8
  {
  }

  type Slot = Option<string>

  /** The index of the first slot holding `item`, if any. */
  function FirstHolding(slots: seq<Slot>, item: string): (r: Option<nat>)
    ensures r.Some? ==> r.value < |slots| && slots[r.value] == Some(item)
    ensures r.Some? ==> forall j :: 0 <= j < r.value ==> slots[j] != Some(item)
    ensures r.None? ==> forall j :: 0 <= j < |slots| ==> slots[j] != Some(item)
    decreases |slots|
  {
    if slots == [] then None
    else if slots[0] == Some(item) then Some(0)
    else
      var r := FirstHolding(slots[1..], item);
      assert forall j :: 1 <= j < |slots| ==> slots[j] == slots[1..][j - 1];
      if r.Some? then Some(r.value + 1) else None
  }

  /** The slots after replaceItem: the first slot holding `item` now holds `sub`. */
  function ReplacedFirst(slots: seq<Slot>, item: string, sub: string): (r: seq<Slot>)
    ensures |r| == |slots|
    ensures var first := FirstHolding(slots, item);
      forall j :: 0 <= j < |slots| ==> r[j] == if first == Some(j) then Some(sub) else slots[j]
  {
    var first := FirstHolding(slots, item);
    if first.Some? then slots[first.value := Some(sub)] else slots
  }

  /** Some slot holds `item`: the engine's `clear <player> <item> 0 0` test. */
  predicate Holds(slots: seq<Slot>, item: string)
  {
    exists i :: 0 <= i < |slots| && slots[i] == Some(item)
  }

  /** replaceItem replaces exactly when the item is held, and only one slot. */
  lemma ReplacedFirstHolds(slots: seq<Slot>, item: string, sub: string)
    ensures ReplacedFirst(slots, item, sub) != slots ==> Holds(slots, item) && item != sub
    ensures Holds(slots, item) ==> Holds(ReplacedFirst(slots, item, sub), sub)
    ensures !Holds(slots, item) ==> ReplacedFirst(slots, item, sub) == slots
  {
    var first := FirstHolding(slots, item);
    var r := ReplacedFirst(slots, item, sub);
    if Holds(slots, item) {
      var i :| 0 <= i < |slots| && slots[i] == Some(item);
      assert first.Some?;
      assert r[first.value] == Some(sub);
    }
    if item == sub {
      assert r == slots;
    }
  }

  /** The restore's move for one slot pair: both held swap, one held moves across. */
  function RestoreSlot(mine: Slot, stashed: Slot): (r: (Slot, Slot))
  {
    if mine.Some? && stashed.Some? then (stashed, mine)
    else if mine.Some? then (None, mine)
    else (stashed, None)
  }

  /** In every case the restore exchanges the two slots. */
  lemma RestoreSlotSwaps(mine: Slot, stashed: Slot)
    ensures RestoreSlot(mine, stashed) == (stashed, mine)
  {
  }

  /** The index of the first space of `s`, or |s| when there is none. */
  function FirstSpace(s: string): (p: nat)
    ensures p <= |s| && (p < |s| ==> s[p] == ' ')
    ensures forall j :: 0 <= j < p ==> s[j] != ' '
    decreases |s|
  {
    if s == [] then 0
    else if s[0] == ' ' then 0
    else
      var p := FirstSpace(s[1..]);
      assert forall j :: 1 <= j < |s| ==> s[j] == s[1..][j - 1];
      p + 1
  }

  /** JavaScript's `s.replace(' ', '_')`: only the first space is replaced. */
  function ReplaceFirstSpace(s: string): (r: string)
    ensures |r| == |s|
    ensures forall i :: 0 <= i < |s| ==> r[i] == if i == FirstSpace(s) then '_' else s[i]
    decreases |s|
  {
    if s == [] then []
    else if s[0] == ' ' then "_" + s[1..]
    else
      var rest := ReplaceFirstSpace(s[1..]);
      assert forall i :: 1 <= i < |s| ==> s[i] == s[1..][i - 1];
      [s[0]] + rest
  }

  function StasherName(player: string): string
  {
    "wedit:stasher_for_" + ReplaceFirstSpace(player)
  }

  class PlayerHandler {
    var playerDimensions: map<string, DimEntry>

    constructor()
      ensures playerDimensions == map[]
    {
      playerDimensions := map[];
    }

    /** The tick handler: every cached entry is marked stale, none is removed. */
    method Tick()
      modifies this
      ensures playerDimensions == Staled(old(playerDimensions))
    {
      var remaining := playerDimensions.Keys;
      ghost var start := playerDimensions;
      while remaining != {}
        invariant remaining <= start.Keys
        invariant playerDimensions.Keys == start.Keys
        invariant forall k :: k in start ==> playerDimensions[k] == if k in remaining then start[k] else start[k].(upToDate := false)
        decreases |remaining|
      {
        var k :| k in remaining;
        playerDimensions := playerDimensions[k := playerDimensions[k].(upToDate := false)];
        remaining := remaining - {k};
      }
    }

    /**
     * getDimension: a fresh cached entry answers without a scan; otherwise the
     * first dimension where the player stands is cached as fresh; when the scan
     * finds nothing, the stale entry answers, and with no entry there is no
     * answer (the source throws).
     */
    method GetDimension(player: string, entitiesAt: string -> seq<Entity>) returns (r: Option<string>)
      modifies this
      ensures var cached, found := old(playerDimensions), FirstDimension(Dimensions, entitiesAt, player);
        if player in cached && cached[player].upToDate then r == Some(cached[player].dim) && playerDimensions == cached
        else if found.Some? then r == found && playerDimensions == cached[player := DimEntry(true, found.value)]
        else playerDimensions == cached && r == if player in cached then Some(cached[player].dim) else None
    {
      if player in playerDimensions && playerDimensions[player].upToDate {
        return Some(playerDimensions[player].dim);
      }
      var i := 0;
      while i < |Dimensions|
        invariant 0 <= i <= |Dimensions|
        invariant FirstDimension(Dimensions, entitiesAt, player) == FirstDimension(Dimensions[i..], entitiesAt, player)
        invariant playerDimensions == old(playerDimensions)
      {
        var dimName := Dimensions[i];
        var here := FindPlayer(entitiesAt(dimName), player);
        if here {
          playerDimensions := playerDimensions[player := DimEntry(true, dimName)];
          return Some(dimName);
        }
        assert Dimensions[i..][1..] == Dimensions[i + 1..];
        i := i + 1;
      }
      r := if player in playerDimensions then Some(playerDimensions[player].dim) else None;
    }

    /** The inner scan of getDimension: is the player among the entities at their block? */
    static method FindPlayer(entities: seq<Entity>, player: string) returns (found: bool)
      ensures found <==> PlayerAmong(entities, player)
    {
      var j := 0;
      while j < |entities|
        invariant 0 <= j <= |entities|
        invariant forall k :: 0 <= k < j ==> !IsPlayer(entities[k], player)
      {
        if entities[j].id == "minecraft:player" && entities[j].nameTag == player {
          return true;
        }
        j := j + 1;
      }
      return false;
    }

    /**
     * replaceItem: the first slot holding `item` gets `sub`, addressed as a
     * hotbar slot for indices up to 8 and an inventory slot after; no slot
     * holds it, nothing happens.
     */
    static method ReplaceItem(inv: array<Slot>, item: string, sub: string) returns (target: Option<(SlotType, nat)>)
      modifies inv
      ensures var first := FirstHolding(old(inv[..]), item);
        && (first.None? ==> target.None? && inv[..] == old(inv[..]))
        && (first.Some? ==> target == Some(SlotOf(first.value)) && inv[..] == old(inv[..])[first.value := Some(sub)])
      ensures inv[..] == ReplacedFirst(old(inv[..]), item, sub)
    {
      var i := 0;
      while i < inv.Length
        invariant 0 <= i <= inv.Length
        invariant forall j :: 0 <= j < i ==> inv[j] != Some(item)
      {
        if inv[i] == Some(item) {
          var slot := SlotOf(i);
          inv[i] := Some(sub);
          FirstHoldingAt(old(inv[..]), item, i);
          return Some(slot);
        }
        i := i + 1;
      }
      FirstHoldingNone(inv[..], item);
      return None;
    }

    /**
     * stashHotbar: with a stash already in place, answers true and changes
     * nothing; otherwise the fresh stasher `stash` (empty) receives the nine
     * hotbar slots, which are left empty, and the answer is false. The new
     * stasher is tagged with the player's stasher name.
     */
    static method StashHotbar(player: string, isStashed: bool, inv: array<Slot>, stash: array<Slot>)
      returns (r: bool, tag: Option<string>)
      requires inv.Length >= 9 && stash.Length >= 9 && inv != stash
      requires !isStashed ==> forall i :: 0 <= i < 9 ==> stash[i].None?
      modifies inv, stash
      ensures r == isStashed
      ensures isStashed ==> tag.None? && inv[..] == old(inv[..]) && stash[..] == old(stash[..])
      ensures !isStashed ==> tag == Some(StasherName(player))
      ensures !isStashed ==> inv[..] == seq(9, _ => None) + old(inv[9..]) && stash[..] == old(inv[..9]) + old(stash[9..])
    {
      if isStashed {
        return true, None;
      }
      tag := Some(StasherName(player));
      var i := 0;
      while i < 9
        invariant 0 <= i <= 9
        invariant forall j :: 0 <= j < inv.Length ==> inv[j] == if j < i then None else old(inv[j])
        invariant forall j :: 0 <= j < stash.Length ==> stash[j] == if j < i then old(inv[j]) else old(stash[j])
      {
        stash[i] := inv[i];
        inv[i] := None;
        i := i + 1;
      }
      assert inv[..] == seq(9, _ => None) + old(inv[9..]);
      assert stash[..] == old(inv[..9]) + old(stash[9..]) by {
        forall j | 0 <= j < 9 ensures stash[j] == old(inv[..9])[j] { }
      }
      return false, tag;
    }

    /**
     * restoreHotbar: without a stasher named for the player among `entities`,
     * answers true and changes nothing; otherwise each hotbar slot is moved or
     * swapped with the stash (RestoreSlot) and the answer is false.
     */
    static method RestoreHotbar(player: string, entities: seq<Entity>, inv: array<Slot>, stash: array<Slot>) returns (r: bool)
      requires inv.Length >= 9 && stash.Length >= 9 && inv != stash
      modifies inv, stash
      ensures var found := exists i :: 0 <= i < |entities| && entities[i].nameTag == StasherName(player);
        && r == !found
        && (!found ==> inv[..] == old(inv[..]) && stash[..] == old(stash[..]))
        && (found ==> forall i :: 0 <= i < 9 ==> (inv[i], stash[i]) == RestoreSlot(old(inv[i]), old(stash[i])))
        && (found ==> inv[9..] == old(inv[9..]) && stash[9..] == old(stash[9..]))
    {
      var name := StasherName(player);
      var k := 0;
      while k < |entities| && entities[k].nameTag != name
        invariant 0 <= k <= |entities|
        invariant forall j :: 0 <= j < k ==> entities[j].nameTag != name
      {
        k := k + 1;
      }
      if k == |entities| {
        return true;
      }
      var i := 0;
      while i < 9
        invariant 0 <= i <= 9
        invariant forall j :: 0 <= j < inv.Length ==> inv[j] == if j < i then RestoreSlot(old(inv[j]), old(stash[j])).0 else old(inv[j])
        invariant forall j :: 0 <= j < stash.Length ==> stash[j] == if j < i then RestoreSlot(old(inv[j]), old(stash[j])).1 else old(stash[j])
      {
        if inv[i].Some? && stash[i].Some? {
          inv[i], stash[i] := stash[i], inv[i];
        } else if inv[i].Some? {
          stash[i] := inv[i];
          inv[i] := None;
        } else {
          inv[i] := stash[i];
          stash[i] := None;
        }
        i := i + 1;
      }
      assert inv[9..] == old(inv[9..]) && stash[9..] == old(stash[9..]);
      return false;
    }
  }

  /** A dimension once found answers every later lookup until the next tick, whoever stands where. */
  method CachedUntilTick(h: PlayerHandler, player: string, at1: string -> seq<Entity>, at2: string -> seq<Entity>)
    returns (first: Option<string>, again: Option<string>)
    requires FirstDimension(Dimensions, at1, player).Some?
    modifies h
    ensures first.Some? && again == first
  {
    first := h.GetDimension(player, at1);
    again := h.GetDimension(player, at2);
  }

  lemma FirstHoldingAt(slots: seq<Slot>, item: string, i: nat)
    requires i < |slots| && slots[i] == Some(item)
    requires forall j :: 0 <= j < i ==> slots[j] != Some(item)
    ensures FirstHolding(slots, item) == Some(i)
  {
    var r := FirstHolding(slots, item);
  }

  lemma FirstHoldingNone(slots: seq<Slot>, item: string)
    requires forall j :: 0 <= j < |slots| ==> slots[j] != Some(item)
    ensures FirstHolding(slots, item) == None
  {
    var r := FirstHolding(slots, item);
  }

  /** Stashing and then restoring gives the player back their hotbar and empties the stash. */
  lemma StashRestoreRoundTrip(hotbar: seq<Slot>, emptied: seq<Slot>, stashed: seq<Slot>)
    requires |hotbar| == 9 && emptied == seq(9, _ => None) && stashed == hotbar
    ensures forall i :: 0 <= i < 9 ==> RestoreSlot(emptied[i], stashed[i]) == (hotbar[i], None)
  {
    forall i | 0 <= i < 9 ensures RestoreSlot(emptied[i], stashed[i]) == (hotbar[i], None) {
      RestoreSlotSwaps(emptied[i], stashed[i]);
    }
  }
}
