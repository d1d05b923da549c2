/** `/clearworld` and its confirmation handler: the prompt, the guards, the
    per-tile clearing rule with its exemptions, the in-place pass over the
    block array, the dropped-item reset, and the order of the effects that
    follow (saves, success notice, eviction). */
module ClearWorld {
  import opened Wrappers
  import opened Commands
  import Help

  const CLEAR_WORLD_OPT := CommandOpt(
    ["clearworld", "cw"], "Clear a world", 10, 1,
    "`bDev", "/clearworld", ["/clearworld"], [Developer])

  const CONFIRM_DIALOG := "confirm_clearworld"
  const SUCCESS_TEXT := "`2World cleared successfully!``"

  /** Protected foreground ids: the main door and bedrock. */
  const MAIN_DOOR: nat := 6
  const BEDROCK: nat := 8

  /** `ClearWorld.execute`: sends the confirmation dialog and nothing else. */
  function Prompt(): (msgs: seq<Message>)
    ensures |msgs| == 1 && msgs[0].ConfirmDialog?
    ensures msgs[0].dialogName == CONFIRM_DIALOG
  {
    [ConfirmDialog(CONFIRM_DIALOG, "Nevermind", "Yes")]
  }

  /** Only developers pass the permission bar of `/clearworld`, and it is
      listed in the developer section of `/help`. */
  lemma ClearWorldIsDeveloperOnly(level: nat)
    ensures Help.HasPermission(CLEAR_WORLD_OPT.permission, level) <==> level >= 3
    ensures Help.BucketOf(CLEAR_WORLD_OPT.permission) == Some(DeveloperSection)
  {
    assert Help.RoleLevel(CLEAR_WORLD_OPT.permission[0]) == 3;
  }

  // ---------------------------------------------------------------------
  // Tiles and the per-tile rule

  /** The item catalogue's type tag; only LOCK matters here. */
  datatype ItemType = LockType | OtherType(code: int)

  /** An item catalogue entry: its own id and its type. */
  datatype ItemMeta = ItemMeta(id: nat, itemType: ItemType)

  /** A value of an extension field of a block (sign text, door target, ...). */
  datatype FieldValue = Text(text: string) | Number(n: int) | Flag(b: bool)

  /** A block's state: coordinates, foreground and background ids (a missing
      id reads as 0), and the other keys of the block object, each holding
      a value or `undefined` (None). */
  datatype Tile = Tile(x: int, y: int, fg: nat, bg: nat, extra: ExtraFields)

  /** The keys of a block object other than its coordinates and item ids. */
  type ExtraFields = m: map<string, Option<FieldValue>> | m.Keys !! {"x", "y", "fg", "bg"} witness map[]

  /** What the clearing pass does with one tile. */
  datatype Verdict = SkipEmpty | SkipUnknownItem | Keep | Wipe

  /** The item the catalogue is asked about: fg when nonzero, else bg. */
  function PrimaryItem(t: Tile): nat
  {
    if t.fg != 0 then t.fg else t.bg
  }

  /** The decision of the loop body for one tile. `locks` holds the ids of
      `LOCKS`; a LOCK-typed item is kept only when it is NOT among them. */
  function Decide(t: Tile, catalogue: map<nat, ItemMeta>, locks: set<nat>): Verdict
  {
    if t.fg == 0 && t.bg == 0 then SkipEmpty
    else if PrimaryItem(t) !in catalogue then SkipUnknownItem
    else
      var meta := catalogue[PrimaryItem(t)];
      if t.fg == MAIN_DOOR || t.fg == BEDROCK || (meta.id !in locks && meta.itemType == LockType) then Keep
      else Wipe
  }

  /** A wiped tile: same coordinates, fg and bg 0, every other key still
      present and set to `undefined`. */
  function Wiped(t: Tile): (r: Tile)
    ensures r.x == t.x && r.y == t.y && r.fg == 0 && r.bg == 0
    ensures r.extra.Keys == t.extra.Keys
    ensures forall k :: k in r.extra ==> r.extra[k] == None
  {
    Tile(t.x, t.y, 0, 0, map k | k in t.extra :: None)
  }

  /** The tile after the clearing pass. */
  function ClearTile(t: Tile, catalogue: map<nat, ItemMeta>, locks: set<nat>): Tile
  {
    if Decide(t, catalogue, locks) == Wipe then Wiped(t) else t
  }

  /** The whole grid after the clearing pass: tile by tile, each from itself alone. */
  function ClearTiles(ts: seq<Tile>, catalogue: map<nat, ItemMeta>, locks: set<nat>): (r: seq<Tile>)
    ensures |r| == |ts|
    ensures forall i :: 0 <= i < |ts| ==> r[i] == ClearTile(ts[i], catalogue, locks)
  {
    seq(|ts|, i requires 0 <= i < |ts| => ClearTile(ts[i], catalogue, locks))
  }

  /** Empty tiles and tiles whose item the catalogue does not know are left as they are. */
  lemma SkippedTilesUnchanged(t: Tile, catalogue: map<nat, ItemMeta>, locks: set<nat>)
    requires (t.fg == 0 && t.bg == 0) || PrimaryItem(t) !in catalogue
    ensures ClearTile(t, catalogue, locks) == t
  {
  }

  /** The main door and bedrock are never cleared. */
  lemma ProtectedForegroundKept(t: Tile, catalogue: map<nat, ItemMeta>, locks: set<nat>)
    requires t.fg == MAIN_DOOR || t.fg == BEDROCK
    ensures ClearTile(t, catalogue, locks) == t
  {
  }

  /** A lock-typed item is kept when its id is not in `LOCKS` and cleared
      when it is (unless it sits on a protected foreground). */
  lemma LockRule(t: Tile, catalogue: map<nat, ItemMeta>, locks: set<nat>)
    requires PrimaryItem(t) != 0 && PrimaryItem(t) in catalogue
    requires catalogue[PrimaryItem(t)].itemType == LockType
    ensures catalogue[PrimaryItem(t)].id !in locks ==> ClearTile(t, catalogue, locks) == t
    ensures catalogue[PrimaryItem(t)].id in locks && t.fg != MAIN_DOOR && t.fg != BEDROCK ==>
              ClearTile(t, catalogue, locks) == Wiped(t)
  {
  }

  /** Exactly the tiles with a known, unprotected item are wiped. */
  lemma WipedIff(t: Tile, catalogue: map<nat, ItemMeta>, locks: set<nat>)
    ensures Decide(t, catalogue, locks) == Wipe <==>
              && PrimaryItem(t) != 0
              && PrimaryItem(t) in catalogue
              && t.fg != MAIN_DOOR && t.fg != BEDROCK
              && !(catalogue[PrimaryItem(t)].id !in locks && catalogue[PrimaryItem(t)].itemType == LockType)
  {
  }

  /** A second pass over a cleared tile changes nothing: a wiped tile is
      empty, and a kept tile meets the same test again. */
  lemma ClearTileIdempotent(t: Tile, catalogue: map<nat, ItemMeta>, locks: set<nat>)
    ensures ClearTile(ClearTile(t, catalogue, locks), catalogue, locks) == ClearTile(t, catalogue, locks)
  {
  }

  lemma {:induction false} ClearTilesIdempotent(ts: seq<Tile>, catalogue: map<nat, ItemMeta>, locks: set<nat>)
    ensures ClearTiles(ClearTiles(ts, catalogue, locks), catalogue, locks) == ClearTiles(ts, catalogue, locks)
  {
    var once := ClearTiles(ts, catalogue, locks);
    forall i | 0 <= i < |ts|
      ensures ClearTiles(once, catalogue, locks)[i] == once[i]
    {
      ClearTileIdempotent(ts[i], catalogue, locks);
    }
  }

  // ---------------------------------------------------------------------
  // The world's mutable state

  /** A block object of `world.data.blocks`, updated in place. */
  class Block {
    var x: int
    var y: int
    var fg: nat
    var bg: nat
    var extra: ExtraFields

    constructor (t: Tile)
      ensures Value() == t
    {
      x, y, fg, bg, extra := t.x, t.y, t.fg, t.bg, t.extra;
    }

    function Value(): Tile
      reads this
    {
      Tile(x, y, fg, bg, extra)
    }

    /** `Object.keys(b).forEach(...)`: coordinates kept, fg and bg set to 0,
        every other key overwritten with `undefined` (not deleted). */
    method WipeFields()
      modifies this
      ensures Value() == Wiped(old(Value()))
    {
      fg := 0;
      bg := 0;
      var pending := extra.Keys;
      while pending != {}
        invariant pending <= extra.Keys == old(extra).Keys
        invariant forall k :: k in extra && k !in pending ==> extra[k] == None
        invariant x == old(x) && y == old(y) && fg == 0 && bg == 0
        decreases pending
      {
        var k :| k in pending;
        extra := extra[k := None];
        pending := pending - {k};
      }
      assert extra == map k | k in old(extra) :: None;
    }
  }

  /** The dropped-item collection: an id counter and the dropped items. */
  datatype DroppedItem = DroppedItem(uid: nat, id: nat, amount: nat, x: int, y: int)
  datatype Dropped = Dropped(uid: nat, items: seq<DroppedItem>)

  const NO_DROPS := Dropped(0, [])

  /** `world.data`: the block array and the dropped items. */
  class World {
    const blocks: array<Block>
    var dropped: Dropped

    constructor (blocks: array<Block>, dropped: Dropped)
      ensures this.blocks == blocks && this.dropped == dropped
    {
      this.blocks := blocks;
      this.dropped := dropped;
    }

    function BlockSet(): set<Block>
      reads blocks
    {
      set i | 0 <= i < blocks.Length :: blocks[i]
    }

    /** No block object occurs twice in the array. */
    ghost predicate Valid()
      reads blocks
    {
      forall i, j :: 0 <= i < j < blocks.Length ==> blocks[i] != blocks[j]
    }

    /** The state of every block, in array order. */
    function Tiles(): (ts: seq<Tile>)
      reads blocks, BlockSet()
      ensures |ts| == blocks.Length
      ensures forall i :: 0 <= i < blocks.Length ==> ts[i] == blocks[i].Value()
    {
      seq(blocks.Length, i reads blocks, BlockSet() requires 0 <= i < blocks.Length => blocks[i].Value())
    }

    /** The indexed `for` loop over the blocks: each block is decided on its
        own and wiped in place or left alone. */
    method ClearBlocks(catalogue: map<nat, ItemMeta>, locks: set<nat>)
      requires Valid()
      modifies BlockSet()
      ensures Tiles() == ClearTiles(old(Tiles()), catalogue, locks)
    {
      ghost var before := Tiles();
      for i := 0 to blocks.Length
        invariant forall k :: 0 <= k < i ==> blocks[k].Value() == ClearTile(before[k], catalogue, locks)
        invariant forall k :: i <= k < blocks.Length ==> blocks[k].Value() == before[k]
      {
        var b := blocks[i];
        var fg, bg := b.fg, b.bg;
        if fg == 0 && bg == 0 {
          continue;
        }
        var item := if fg != 0 then fg else bg;
        if item !in catalogue {
          continue;
        }
        var meta := catalogue[item];
        var mainLock := meta.id in locks;
        if fg == MAIN_DOOR || fg == BEDROCK || (!mainLock && meta.itemType == LockType) {
          continue;
        }
        b.WipeFields();
      }
    }
  }

  // ---------------------------------------------------------------------
  // The confirmation handler

  /** Effects of the handler besides the world update, in the order they
      happen. A save records the tiles and dropped items it writes. */
  datatype Effect =
    | SaveToCache(tiles: seq<Tile>, dropped: Dropped)
    | SaveToDatabase(tiles: seq<Tile>, dropped: Dropped)
    | Send(msg: Message)
    | EvictOccupants

  /** Every effect of a run in which both saves of the given state fulfil
      and the peer is still in a world. */
  function FullEffects(tiles: seq<Tile>, dropped: Dropped): seq<Effect>
  {
    [SaveToCache(tiles, dropped), SaveToDatabase(tiles, dropped),
     Send(ConsoleMessage(SUCCESS_TEXT)), EvictOccupants]
  }

  /** The guards: a non-empty `dialog_name` and a role that is exactly DEVELOPER. */
  predicate Authorized(dialogName: string, role: Role)
  {
    dialogName != "" && role == Developer
  }

  /** The effects after the tiles and drops are reset to `tiles` and
      `dropped`. Each save writes that state and is awaited; a rejected save
      ends the handler there. The success notice follows both saves, and
      eviction follows it when the peer is still in a world. */
  function AfterClear(tiles: seq<Tile>, dropped: Dropped,
                      cacheSaved: bool, databaseSaved: bool, stillInWorld: bool): (e: seq<Effect>)
    ensures 1 <= |e| <= 4 && e == FullEffects(tiles, dropped)[..|e|]
    ensures e[0] == SaveToCache(tiles, dropped)
    ensures SaveToDatabase(tiles, dropped) in e <==> cacheSaved
    ensures Send(ConsoleMessage(SUCCESS_TEXT)) in e <==> cacheSaved && databaseSaved
    ensures forall j :: 0 <= j < |e| && e[j] == Send(ConsoleMessage(SUCCESS_TEXT)) ==>
              j == 2 && e[..2] == [SaveToCache(tiles, dropped), SaveToDatabase(tiles, dropped)]
    ensures EvictOccupants in e <==> cacheSaved && databaseSaved && stillInWorld
    ensures forall j :: 0 <= j < |e| && e[j] == EvictOccupants ==>
              j == |e| - 1 && e[j - 1] == Send(ConsoleMessage(SUCCESS_TEXT))
  {
    var cache, database := SaveToCache(tiles, dropped), SaveToDatabase(tiles, dropped);
    if !cacheSaved then [cache]
    else if !databaseSaved then [cache, database]
    else if !stillInWorld then [cache, database, Send(ConsoleMessage(SUCCESS_TEXT))]
    else [cache, database, Send(ConsoleMessage(SUCCESS_TEXT)), EvictOccupants]
  }

  /** `ConfirmClearWorld`: built for the world the peer is in when the dialog
      answer arrives. */
  class ConfirmClearWorld {
    const world: World
    const dialogName: string

    constructor (world: World, dialogName: string)
      ensures this.world == world && this.dialogName == dialogName
    {
      this.world := world;
      this.dialogName := dialogName;
    }

    /** `execute`. `role` is the peer's role at that moment; `cacheSaved` and
        `databaseSaved` say whether each awaited save fulfilled; `stillInWorld`
        whether the peer is in a world after the saves. */
    method Execute(role: Role, catalogue: map<nat, ItemMeta>, locks: set<nat>,
                   cacheSaved: bool, databaseSaved: bool, stillInWorld: bool)
      returns (effects: seq<Effect>)
      requires world.Valid()
      modifies world, world.BlockSet()
      ensures world.Valid()
      ensures !Authorized(dialogName, role) ==>
                effects == [] && world.Tiles() == old(world.Tiles()) && world.dropped == old(world.dropped)
      ensures Authorized(dialogName, role) ==>
                && world.Tiles() == ClearTiles(old(world.Tiles()), catalogue, locks)
                && world.dropped == NO_DROPS
                && effects == AfterClear(ClearTiles(old(world.Tiles()), catalogue, locks), NO_DROPS,
                                         cacheSaved, databaseSaved, stillInWorld)
    {
      effects := [];
      if dialogName == "" {
        return;
      }
      if role != Developer {
        return;
      }
      world.ClearBlocks(catalogue, locks);
      world.dropped := NO_DROPS;
      effects := effects + [SaveToCache(world.Tiles(), world.dropped)];
      if !cacheSaved {
        return;
      }
      effects := effects + [SaveToDatabase(world.Tiles(), world.dropped)];
      if !databaseSaved {
        return;
      }
      effects := effects + [Send(ConsoleMessage(SUCCESS_TEXT))];
      if stillInWorld {
        effects := effects + [EvictOccupants];
      }
    }
  }
}
