# Help listing and world clearing of a Growtopia-style game server

This project models two chat commands of the server's command layer in Dafny:

- `/help` (`Help.ts`). Without an argument it lists the commands the
  player may use, in up to three console messages: basic, supporter and
  developer. With an argument it shows the detail dialog of one command, or
  a "doesn't exist" notice.
- `/clearworld` (`ClearWorld.ts`). `ClearWorld.execute` only sends a
  confirmation dialog. `ConfirmClearWorld.execute` handles the answer. It
  re-checks the caller and then clears the world's block array in place,
  except for protected tiles. It then resets the dropped items, saves the
  world to the cache and then to the database, notifies the caller, and
  evicts the players.

Files:

- `commands.dfy`: roles, the `opt` descriptor, the alias table and the
  messages a handler sends.
- `strings.dfy`: the JavaScript built-ins the help command uses. These are
  ASCII `toLowerCase` and the default order of `Array.prototype.sort`,
  with a proof that the sorted arrangement is unique.
- `help.dfy`: the role table, the permission test, the buckets and the
  lookup.
- `clear_world.dfy`: the prompt, the per-tile rule, the `Block` and
  `World` classes, and the confirmation handler with its effects.
- `wrappers.dfy`: `Option`, which stands for `undefined`.

Sends, saves and evictions are not performed. They are recorded as
messages the handler returns (`Help.Execute`) or as an effect list
(`ConfirmClearWorld.Execute`).

Rules of the code that the model keeps as written:

- **Lock rule.** The comment at
  `apps/server/src/command/cmds/ClearWorld.ts:87` promises to keep the
  main door, bedrock and the "main" locks. The test beneath it keeps a
  LOCK-typed item only when its catalogue id is *not* in `LOCKS`. An id
  that *is* in `LOCKS` is cleared like any other item.
- **Extra fields.** A cleared block keeps every key of the object. The
  value of each key other than `x`, `y`, `fg` and `bg` becomes
  `undefined`; the key is not deleted.
- **Failed saves.** Both saves are awaited. A save whose promise rejects
  ends the handler, so no success notice is sent and no one is evicted.
  The tiles and dropped items are already reset by then. A save that
  resolves with a failure value is not distinguished from success, because
  the handler ignores the value.

## Model

| member | source | states |
|---|---|---|
| `Help.RoleLevel` | apps/server/src/command/cmds/Help.ts:24-31 | BASIC, SUPPORTER and DEVELOPER rank 1, 2 and 3; every other role ranks 0, and only those do |
| `Help.HasPermission` | apps/server/src/command/cmds/Help.ts:79-81 | a command is visible iff some role of its permission list ranks at or below the user's level |
| `Help.EmptyPermissionNeverListed` | apps/server/src/command/cmds/Help.ts:79-83 | a command with an empty permission list is never listed |
| `Help.UnknownRoleOpensToAll` | apps/server/src/command/cmds/Help.ts:79-83 | an unknown role in the permission list makes the command visible at every level |
| `Help.PermissionMonotone` | apps/server/src/command/cmds/Help.ts:79-81 | a command visible at some level is visible at every higher level |
| `Help.BucketOf` | apps/server/src/command/cmds/Help.ts:88-94 | the bucket is basic iff BASIC is listed, supporter iff SUPPORTER but not BASIC, developer iff DEVELOPER but neither other; with none of the three, no bucket |
| `Help.InBucket` | apps/server/src/command/cmds/Help.ts:79-94 | a descriptor is pushed into a section's bucket when it passes the permission bar and the `includes` chain picks that section |
| `Help.Bucket` | apps/server/src/command/cmds/Help.ts:75-96 | the names the `forEach` pushes into one bucket, first aliases in visiting order |
| `Help.BucketMembers` | apps/server/src/command/cmds/Help.ts:83-94 | a name is in a bucket iff some visible command of that bucket has it as its first alias |
| `Help.BucketsPartition` | apps/server/src/command/cmds/Help.ts:83-94 | the three buckets together hold exactly one name per visible command that has a bucket, so no command lands in two |
| `Help.BucketMonotone` | apps/server/src/command/cmds/Help.ts:75-96 | a higher level gets, in every bucket, every name a lower level gets, as often |
| `Help.Sections` | apps/server/src/command/cmds/Help.ts:104-129 | the section messages built from three sorted buckets and the user's level |
| `Help.SendSections` | apps/server/src/command/cmds/Help.ts:104-129 | the three conditional sends, proved to produce `Sections` |
| `Help.Listing` | apps/server/src/command/cmds/Help.ts:67-129 | the reply without arguments: the three buckets, sorted, sent by section |
| `Help.SectionsSent` | apps/server/src/command/cmds/Help.ts:104-129 | at most three messages go out, in the order basic, supporter, developer; basic iff its bucket is non-empty, supporter iff level >= 2 and non-empty, developer iff level >= 3 and non-empty |
| `Help.ListingSections` | apps/server/src/command/cmds/Help.ts:99-129 | the listing sends each section under the conditions above and each holds its bucket sorted |
| `Help.LowLevelSeesOnlyBasic` | apps/server/src/command/cmds/Help.ts:113-129 | a user of level 1 or below receives at most the basic section |
| `Help.Lookup` | apps/server/src/command/cmds/Help.ts:37 | `CommandMap[name]` is absent iff no alias equals the name, and otherwise is the descriptor of the first entry under that name |
| `Help.LookupDistinct` | apps/server/src/command/cmds/Help.ts:37 | on a table with distinct aliases, `CommandMap[key]` is a descriptor exactly when an entry maps `key` to it |
| `Help.DetailReply` | apps/server/src/command/cmds/Help.ts:35-65 | with an argument, exactly one message: the "doesn't exist" notice iff the lower-cased argument names no command, otherwise the detail dialog of that command under that name |
| `Help.Execute` | apps/server/src/command/cmds/Help.ts:33-130 | with arguments the reply is the lookup reply; without, the listing of `Object.values(CommandMap)` for the level of the peer's role |
| `Help.ListCommands` | apps/server/src/command/cmds/Help.ts:67-129 | the `forEach` over the descriptors fills each bucket with the first aliases of the visible commands of that bucket, in visiting order; the buckets are then sorted and sent as `Listing` prescribes |
| `Help.HelpIsBasic` | apps/server/src/command/cmds/Help.ts:12-21 | Help's descriptor puts it in the basic bucket and makes it visible exactly to levels 1 and above |
| `Commands.Values` | apps/server/src/command/cmds/Help.ts:75 | `Object.values(CommandMap)` has one descriptor per table entry, in table order |
| `Strings.LexLe` | apps/server/src/command/cmds/Help.ts:99-101 | the order `sort()` uses without a comparator: a prefix first, otherwise the smaller character at the first difference |
| `Strings.Sort` | apps/server/src/command/cmds/Help.ts:99-101 | a sorted bucket is in ascending order and is a permutation of what was collected |
| `Strings.SortedPermutationUnique` | apps/server/src/command/cmds/Help.ts:99-101 | two sorted permutations of the same names are equal, so the sorted bucket does not depend on the sorting algorithm |
| `Strings.SortIsTheSortedPermutation` | apps/server/src/command/cmds/Help.ts:99-101 | `Sort` of a bucket equals every ascending arrangement of that bucket's names |
| `Strings.Lower` | apps/server/src/command/cmds/Help.ts:36 | the lower-cased argument has the same length, no upper-case ASCII letter, and every other character unchanged |
| `Strings.LowerIdempotent` | apps/server/src/command/cmds/Help.ts:36 | lower-casing twice is lower-casing once |
| `ClearWorld.Prompt` | apps/server/src/command/cmds/ClearWorld.ts:33-48 | `/clearworld` sends exactly one dialog, tagged `confirm_clearworld`, and changes no world state |
| `ClearWorld.ClearWorldIsDeveloperOnly` | apps/server/src/command/cmds/ClearWorld.ts:21-30 | the permission list `[DEVELOPER]` admits exactly level 3 and lists the command in the developer section |
| `ClearWorld.Decide` | apps/server/src/command/cmds/ClearWorld.ts:76-92 | the loop body's verdict for one tile: skip empty, skip unknown item, keep protected, or wipe |
| `ClearWorld.ClearTile` | apps/server/src/command/cmds/ClearWorld.ts:74-105 | one tile after the pass: wiped when the verdict is wipe, unchanged otherwise |
| `ClearWorld.Wiped` | apps/server/src/command/cmds/ClearWorld.ts:95-104 | a cleared tile keeps x and y, has fg = bg = 0, keeps every other key, and each of those keys holds `undefined` |
| `ClearWorld.ClearTiles` | apps/server/src/command/cmds/ClearWorld.ts:74-105 | the pass keeps the number of tiles, and each tile's outcome depends only on that tile |
| `ClearWorld.SkippedTilesUnchanged` | apps/server/src/command/cmds/ClearWorld.ts:76-83 | a tile with fg and bg both 0, or whose primary item (fg if nonzero, else bg) has no metadata, is left unchanged |
| `ClearWorld.ProtectedForegroundKept` | apps/server/src/command/cmds/ClearWorld.ts:88-92 | a tile with fg 6 (main door) or 8 (bedrock) is left unchanged |
| `ClearWorld.LockRule` | apps/server/src/command/cmds/ClearWorld.ts:85-92 | a LOCK-typed item whose id is not in `LOCKS` is kept; one whose id is in `LOCKS` is wiped unless fg is 6 or 8 |
| `ClearWorld.WipedIff` | apps/server/src/command/cmds/ClearWorld.ts:76-92 | a tile is wiped iff it is non-empty, its primary item has metadata, fg is neither 6 nor 8, and it is not a lock outside `LOCKS` |
| `ClearWorld.ClearTileIdempotent` | apps/server/src/command/cmds/ClearWorld.ts:74-105 | clearing a cleared tile again changes nothing |
| `ClearWorld.ClearTilesIdempotent` | apps/server/src/command/cmds/ClearWorld.ts:74-105 | a second pass of the block loop changes no tile |
| `ClearWorld.Block.WipeFields` | apps/server/src/command/cmds/ClearWorld.ts:95-104 | the `Object.keys` loop turns the block into its wiped tile, in place |
| `ClearWorld.World.ClearBlocks` | apps/server/src/command/cmds/ClearWorld.ts:74-105 | the in-place loop leaves each block equal to the per-tile rule applied to its old value |
| `ClearWorld.Authorized` | apps/server/src/command/cmds/ClearWorld.ts:68-71 | the guards: a non-empty `dialog_name` and a role exactly DEVELOPER |
| `ClearWorld.AfterClear` | apps/server/src/command/cmds/ClearWorld.ts:111-124 | the effects are a prefix of cache save, database save, success notice, eviction; the database save happens iff the cache save fulfils; the success notice is sent iff both saves fulfil, and only as the third effect after both; eviction happens iff it also finds the peer in a world, and it comes last, right after the notice |
| `ClearWorld.ConfirmClearWorld.constructor` | apps/server/src/command/cmds/ClearWorld.ts:57-65 | the handler is bound to the world the peer is in when the dialog answer arrives, and to the answer's `dialog_name` |
| `ClearWorld.ConfirmClearWorld.Execute` | apps/server/src/command/cmds/ClearWorld.ts:67-125 | with an empty `dialog_name` or a role other than exactly DEVELOPER nothing changes and nothing is emitted; otherwise the tiles become the cleared grid, `dropped` becomes `{uid: 0, items: []}` whatever it held, and the effects follow `AfterClear` |

## Left out

- The command dispatcher, cooldown and rate-limit enforcement, and the `Command` base class are not part of this model. `cooldown`, `ratelimit`, `category`, `usage` and `example` are kept as plain descriptor data.
- The `CommandMap` bootstrap (`.`) is not part of this model. The table is a list of (alias, descriptor) entries. A key the object would answer from its prototype is not modelled.
- Packet encoding, `peer.send`, `DialogBuilder` markup and colour codes are left out. Messages are abstract values. A section message carries its section and its sorted names instead of the joined text.
- Strings.Lower: only ASCII letters are lower-cased. The Unicode case mapping of `toLowerCase` is not modelled.
- Strings.LexLe: characters are compared as code points. JavaScript compares UTF-16 code units. The two orders agree on names without characters outside the Basic Multilingual Plane.
- Help.Lookup: the table is looked up by its own entries only. If `CommandMap` is a plain object, `/help constructor` and `/help __proto__` reach `Object.prototype` members. The lookup at line 37 is then truthy, and building the command or reading `cmd.opt` at lines 49-54 throws. The model answers with the "doesn't exist" notice instead.
- Help.RoleLevel: a role string naming an `Object.prototype` member (`"constructor"`, `"toString"`, ...) is not a `Role` of the model. In the source `roleLevels[role]` then yields that member, every comparison with it is false, and such a permission entry never opens a command while such a peer sees no command.
- Commands.Role: `Unknown` stands for a role string that is none of the `ROLE` values. Those values live in the constants package, which is not part of this model.
- Commands.Aliases: a descriptor's alias list is taken to be non-empty. The source would push `undefined` for an empty one.
- The internals of `saveToCache`, `saveToDatabase`, `leaveWorld` and `World.every` are left out. Eviction is one opaque effect on the world the peer is in after the saves.
- A handler built while the peer is in no world is left out; the model always builds the handler with a world. The `!` at `ClearWorld.ts:64` does not check anything at run time, so the source's constructor stores `undefined`. `execute` still returns cleanly when a guard fails (lines 68 and 71). When both guards pass, it throws at line 74 on `this.world.data`. The throw comes before any tile change, dropped-item reset, save, message or eviction.
- ClearWorld.World.ClearBlocks: the block array is taken to hold distinct objects. Aliasing between array slots is not modelled.
- ClearWorld.Tile: a missing `fg` or `bg` key is stored as 0. The source leaves a missing key missing, and every reader treats it as 0.
- The item catalogue is a map from numeric ids to entries. The source keys it by the id's decimal string.
- Asynchronous scheduling, per-world locking and interleaving with other players are left out. The handler runs as one sequential step.
