# Verified core of the game server

This project models the parts of the server whose correctness rests on invariants that no single function shows, and
proves them for every input, every run or every interleaving. Objects that the server updates in place are classes whose
methods are proved against specification functions; byte formats are functions on byte sequences with the stream methods
proved against them; the threads around the database queue are a state machine over their steps.

- **Basics** holds the arithmetic, sequence and sum lemmas that several components share.
- **ByteStream** is the reader and writer behind every binary format.
- **OtbLoader** parses the escaped node files with an explicit stack and gives node properties back unescaped.
- **ConditionBlob** saves and loads a player's persistent conditions as one run of tagged records.
- **Containers** is the heap forest of items with parent pointers and a cached weight per container; **ItemMoves** the
  queries, moves, splits, merges and additions on it; **ContainerIteration** the level-order iterator.
- **LoginItems** flattens item forests into rows of ids and rebuilds them.
- **ItemSerialize** writes items, with custom attributes and contents, as bytes and reads them back.
- **Base32** decodes authenticator secrets with a 32-bit shift register.
- **FloatingPoint** is rounding to the nearest number of a fixed significand; **StoppingTest** the comparison in single
  precision with which **DamageList** deals an amount of damage out in ticks.
- **Money** pays from piles of coins, breaks one and gives change.
- **WalkCache** shifts a creature's window of walkable tiles in place.
- **DecayWheel** lets items decay by a wheel of four lists.
- **Trade** matches players and keeps the table of offered items.
- **SpeedLedger** keeps a creature's speed in step with its conditions.
- **TaskQueue** is the queue of database tasks between callers, flushes, a shutdown and the worker.

Where a property does not hold of the code, the model keeps the code and states exactly when it holds; further lemmas
show cases in which it fails:

- A diagonal step to the south shifts the wrong rows of the walk window, because the vertical distance carries no sign
  (src/creature.cpp:553-559, 576-582; src/position.h:55-58). `WalkCache.SouthDiagonalHolds` is the exact condition, `WalkCache.OneOpenTile` a case.
- Handing out 65536 or more coins of one kind never ends, because the count is cut to 16 bits (src/game.cpp:1560), and
  goes on bringing in coins: `Money.HandingOutEnds`, `Money.FirstStuckCount`, `Money.GrowsForEver`; `Money.CloseStepsPay` says for which
  currency tables it cannot happen.
- Damage above 2^24 is not dealt in full, because sums are compared in single precision (src/condition.cpp:1497-1499):
  `DamageList.SingleTotal` is the exact condition, `DamageList.FirstShortAmount` a case. Where one more tick brings the sum exactly as
  near the share as it was, the rounding decides: `StoppingTest.MidpointTest`, `StoppingTest.TiesGoEitherWay`.
- A change of a tile's items is not shown in the walk window when no blocking type and no ground is involved
  (src/creature.cpp:386-411): `WalkCache.Creature.OnUpdateTileItem`, `WalkCache.Creature.OnRemoveTileItem` state exactly when the window is right.
- With all limits lifted, a move into an overfull container loses the pieces that do not fit the stack aimed at
  (src/container.cpp:398-402): `ItemMoves.CarryOut` says how many arrive, `ItemMoves.InternalMoveItem` when all do.
- A player who accepts a trade before the partner has put anything up has accepted anything: `Trade.Game.AgreedToStays`,
  `Trade.Game.AgreeUnseen`.
- The last notification of a shutdown is lost when the worker is between its look at the thread state and the lock:
  `TaskQueue.LastNotification`, `TaskQueue.LostWakeup`, `TaskQueue.AsleepForGood`.
- An item loses attributes in the round trip when they do not fit: strings and keys over 65535 bytes, action ids below 100
  or above 65535, charges where the type has none or none where it has some, numbers out of range, which scripts can all
  set (src/luaitem.cpp:404-534): `ItemSerialize.NothingLostIff`, `ItemSerialize.ActionIdFive`.

Run `dafny verify dfyconfig.toml` to check everything.

## Model

| member | source | states |
|---|---|---|
| ByteStream.ToFromLE | src/fileloader.h:114-119 | a run of bytes is determined by the little-endian number it denotes: reading and writing invert each other from the byte side |
| ByteStream.TakeNatOfBytes | src/fileloader.h:65-76 | a number that fits n bytes is read back as itself and exactly the bytes behind it are left |
| ByteStream.SignedRoundTrip | src/fileloader.h:114-119 | a signed number in the range of its width survives being stored as an unsigned one |
| ByteStream.StringRoundTrip | src/fileloader.h:78-92 | a string comes back exactly when it has at most 65535 bytes; a longer one comes back empty, and the bytes behind it are untouched either way |
| ByteStream.PropStream.Read | src/fileloader.h:65-76 | a read takes exactly n bytes or, when they are missing, nothing at all |
| ByteStream.PropStream.ReadString | src/fileloader.h:78-92 | a string is its 16-bit length and that many bytes; when bytes are missing it is refused after the length has been consumed |
| ByteStream.PropStream.Skip | src/fileloader.h:94-102 | skipping moves by n bytes or not at all |
| ByteStream.PropWriteStream.Write | src/fileloader.h:114-119 | a number is appended as n bytes, lowest first |
| ByteStream.PropWriteStream.WriteString | src/fileloader.h:121-131 | a string is appended with its length; one of more than 65535 bytes as an empty one |
| OtbLoader.StepKeepsLive | src/fileloader.cpp:49-82 | after every turn of the parse loop the stack is still the rightmost spine of the tree |
| OtbLoader.GrowingMovesNoStackEntry | src/fileloader.cpp:51-64 | appending a sibling leaves every stack entry naming the node it named: the one on top has one child more, the others the same number |
| OtbLoader.ParseOfEncoding | src/fileloader.cpp:37-88 | every finite tree is rebuilt from its escaped encoding, and what follows the root decides acceptance: exactly when no unescaped mark or unfinished escape is in it |
| OtbLoader.UnescapeEscape | src/fileloader.cpp:90-105 | unescaping undoes escaping for every property string |
| OtbLoader.RoundTrip | src/fileloader.cpp:37-105 | parsing the encoding of a tree and asking every node for its properties gives the tree back: types, shape and the original bytes |
| OtbLoader.Loader.Open | src/fileloader.cpp:14-26 | a file is accepted exactly when it is long enough and carries the accepted identifier or the wildcard |
| OtbLoader.Loader.ParseTree | src/fileloader.cpp:37-88 | the loop with the node stack computes the parse of the file, refusing where the source throws |
| OtbLoader.Loader.GetProps | src/fileloader.cpp:90-105 | the copy with the toggled flag is the unescaping of the node's range; nothing for an empty range |
| ConditionBlob.CreateRoundTrip | src/condition.cpp:225-284 | the six tagged header fields of every well formed condition are read back and leave the rest of the stream |
| ConditionBlob.RecordRoundTrip | src/condition.cpp:60-149 | one condition with its end mark is read back on all serialized fields, leaving exactly what follows |
| ConditionBlob.RegenerationRoundTrip | src/condition.cpp:838-867 | the fields of a regeneration survive |
| ConditionBlob.SoulRoundTrip | src/condition.cpp:1005-1024 | the fields of a soul regeneration survive |
| ConditionBlob.AttributesRoundTrip | src/condition.cpp:391-426 | the counted arrays of an attribute condition survive |
| ConditionBlob.SpeedRoundTrip | src/condition.cpp:1540-1574 | the change and the formula of a speed condition survive, the formula as raw bytes |
| ConditionBlob.BlobRoundTrip | src/iologindata.cpp:322-334 | the load loop over the concatenated records of any list yields the persistent ones in reverse order, in front of those already there |
| ConditionBlob.ColumnRoundTrip | src/iologindata.cpp:675-681 | saving and loading the whole column reverses the list of persistent conditions and consumes all of it |
| ConditionBlob.Condition.Serialize | src/condition.cpp:130-149 | a condition object is written as its record |
| ConditionBlob.Condition.Unserialize | src/condition.cpp:60-69 | the attribute loop on a condition object does what the record reader says, failing where it fails |
| ConditionBlob.CreateCondition | src/condition.cpp:225-284 | the header reader builds the object the record function describes or refuses |
| ConditionBlob.SaveConditions | src/iologindata.cpp:675-681 | the save loop writes the records of the persistent conditions in order |
| ConditionBlob.LoadConditions | src/iologindata.cpp:322-334 | the load loop pushes to the front what the record reader yields until it refuses |
| Containers.Acyclic | src/container.cpp:192-244 | in every valid world no item is among its own ancestors |
| Containers.CachedWeightIsRecursive | src/container.cpp:101-109 | in every valid world the cached weight of every item is the recursive sum of its contents, modulo 2^32 |
| Containers.ChangeOfType | src/item.cpp:233-259 | a change of type forgets the corpse owner, sets time and decay state together or takes both away or leaves both, as the two types say, and touches nothing else |
| Containers.PausedTimeSurvives | src/item.cpp:233-259 | an item put away as a type that stops its time and taken up again has neither gained nor lost any |
| Containers.Item.SetSubType | src/item.cpp:333-346 | fluid, count or charges take the number, as the type says |
| Containers.AddToTotal | src/container.cpp:101-107 | adding the difference to one total repairs it and moves the error to the parent |
| Containers.UpdateItemWeight | src/container.cpp:101-107 | pushing a difference up makes every total of the forest right again |
| Containers.AddThing | src/container.cpp:398-417 | a parentless item goes to the front; the world stays acyclic and every total right |
| Containers.AddItemBack | src/container.cpp:419-428 | the same at the back |
| Containers.InternalAddThing | src/container.cpp:596-606 | the same without notifications |
| Containers.RemoveThing | src/container.cpp:477-510 | whole items leave, stacks shrink; the item no longer has a parent in the first case and every total stays right |
| Containers.UpdateThing | src/container.cpp:430-451 | type and number of a held item change, the number going to fluid, charges or count as the new type says, and every total stays right |
| Containers.ReplaceThing | src/container.cpp:453-475 | one item takes another's place in the list and every total stays right |
| Containers.GetThingIndex | src/container.cpp:512-522 | the position of an item, or -1 exactly when it is not held |
| ItemMoves.QueryAdd | src/container.cpp:192-244 | the verdict on adding: refused when not pickupable, when the item is an ancestor, when full, or when the carrier refuses |
| ItemMoves.QueryMaxCount | src/container.cpp:246-296 | how many pieces fit: free slots times stack size plus the room of stacks that can take them |
| ItemMoves.SpareRoom | src/container.cpp:264-277 | the loop over the list finds exactly the room left in stacks of the same kind |
| ItemMoves.QueryRemove | src/container.cpp:298-325 | the verdict on removing |
| ItemMoves.QueryDestination | src/container.cpp:327-394 | exactly the container, slot and stack a move is aimed at: up, into the container at the slot, onto the stack there or the first one with room, or the slot itself |
| ItemMoves.CheckMove | src/game.cpp:1051-1173 | the checks before a move; it settles where the chain of destinations ends, and when the checks pass some pieces fit and the item may go there |
| ItemMoves.Transfer | src/game.cpp:1175-1208 | a split, merged or moved stack: the pieces leave one container and arrive in the other unless they would need a slot past its capacity, and nothing else changes any count |
| ItemMoves.CarryOut | src/game.cpp:1175-1208 | how many pieces arrive in each case: all of them below the capacity, otherwise those the stack aimed at takes |
| ItemMoves.InternalMoveItem | src/game.cpp:1051-1263 | conservation: what leaves the source arrives at the destination, always so within capacity or with limits on; success means everything asked for was moved or the item was its own target; no stack outgrows its size, no container its capacity, a partial move is reported as such |
| ItemMoves.RoomForMove | src/container.cpp:246-296 | when some pieces fit, there is a free slot or the stack aimed at takes them |
| ItemMoves.InternalAddItem | src/game.cpp:1272-1354 | a stack is added as a whole, with nothing left over, exactly when the container reports room for it, and the container does not grow beyond its capacity |
| ItemMoves.AddToStack | src/game.cpp:1304-1336 | topping up a stack and adding the rest again ends, and the rest still finds room |
| ItemMoves.FillUp | src/game.cpp:1305-1314 | a topped-up stack and the rest together have the pieces there were |
| ItemMoves.RestIsPlaceable | src/game.cpp:1311-1320 | what was checked before the first pieces were added still holds for the rest |
| ContainerIteration.ContentsAreDescendants | src/container.cpp:615-645 | level order yields every descendant of a container exactly once and nothing else |
| ContainerIteration.HoldingCountIsDescendantCount | src/container.cpp:119-126 | the number of items counted is the number of descendants |
| ContainerIteration.ContainerIterator.constructor | src/container.cpp:615-623 | the iterator starts with the whole level order ahead |
| ContainerIteration.ContainerIterator.Advance | src/container.cpp:627-645 | one step moves on by exactly one item of the level order |
| ContainerIteration.GetItemHoldingCount | src/container.cpp:119-126 | the count loop returns the length of the level order |
| ContainerIteration.IsHoldingItem | src/container.cpp:128-136 | true exactly for descendants |
| ContainerIteration.GetItems | src/container.cpp:547-560 | recursively all descendants in level order, otherwise the items held directly |
| LoginItems.IdsAscend | src/iologindata.cpp:599-653 | ids are consecutive from 101 on and a child's id exceeds its parent's |
| LoginItems.QueueIsRebuilt | src/iologindata.cpp:628-650 | once all rows are written, the rows naming a queued container are exactly its children, in order, each rebuilt as it was |
| LoginItems.ForestRoundTrip | src/iologindata.cpp:476-567 | every forest of slot- or depot-rooted trees is what its rows describe: places, order and contents |
| LoginItems.SaveItems | src/iologindata.cpp:599-653 | the two loops over the heap write exactly the rows of the forest the items stand for |
| LoginItems.LoadItems | src/iologindata.cpp:964-986 | one new parentless item per row, with what the row keeps of it, in the order of the rows |
| LoginItems.ObjectStandsForRow | src/iologindata.cpp:484-503 | when every row has been attached, each object stands for the tree its row describes |
| LoginItems.RebuildDepot | src/iologindata.cpp:536-567 | going through the ids from the highest down rebuilds every chest in order, in a world whose totals are right |
| LoginItems.RebuildInventory | src/iologindata.cpp:476-503 | the same for the slots; of several items in a slot the last one counts |
| LoginItems.SaveAndLoadDepot | src/iologindata.cpp:841-862 | saving depot items and loading them into empty chests puts the same trees in the same order under the same chests, all totals right |
| LoginItems.SaveAndLoadInventory | src/iologindata.cpp:799-809 | saving the slots of a player and loading them gives every slot its item back with the same contents, leaves empty slots empty, all totals right |
| Base32.ByteInRegister | src/iologindata.cpp:41-57 | the 32-bit register still holds a byte whole when it is due |
| Base32.DecodeSecret | src/iologindata.cpp:35-62 | the register loop yields the whole bytes of the concatenated 5-bit groups, and nothing for a broken secret |
| Base32.KeyLength | src/iologindata.cpp:35-62 | a valid secret of n symbols gives floor(5n/8) bytes |
| Base32.RoundTrip | src/iologindata.cpp:35-62 | decoding inverts unpadded base32 (section 6 of RFC 4648) for every byte string |
| StoppingTest.MidpointTest | src/condition.cpp:1497-1499 | in single precision the comparison of the two quotients is the integer comparison 2*sum + i < 2*med for shares below a third of 2^25, except where both distances are equal in real numbers |
| StoppingTest.TiesGoEitherWay | src/condition.cpp:1497-1499 | on the tie itself the rounding decides: two ties with different outcomes |
| StoppingTest.StopsAtShare | src/condition.cpp:1497-1499 | for all numbers: no further tick once the share is reached, also when the share is 0 |
| StoppingTest.GoesOnBelowShare | src/condition.cpp:1497-1499 | a tick that does not overstep a share of at most 2^24 is always dealt |
| StoppingTest.StuckAtMultiple | src/condition.cpp:1497-1499 | from 2^24 on a multiple of 256 takes no more ticks of one |
| DamageList.DamageTotal | src/condition.cpp:1484-1502 | whatever the test makes of roundings, if it stops at the share the list sums to at least start*(start+1)/2 and at most the larger of that and the amount, and to exactly that when ticks of one go on below the amount |
| DamageList.SingleTotal | src/condition.cpp:1484-1502 | the list of the source sums to the larger of the amount and start*(start+1)/2 if and only if the amount is at most 2^24 |
| DamageList.FirstShortAmount | src/condition.cpp:1484-1502 | the first amount that is not dealt in full, 2^24 + 1 |
| DamageList.NearestToShare | src/condition.cpp:1492-1500 | the ticks of one size end as near their share as ticks of that size can |
| DamageList.TieShows | src/condition.cpp:1484-1502 | a whole list in which the rounding of a tie shows |
| DamageList.DamageShape | src/condition.cpp:1484-1502 | the list never increases and holds every value from start down to 1, under every test that stops at the share |
| DamageList.GenerateDamageList | src/condition.cpp:1484-1502 | the nested loops produce that list, and no sum leaves 32 bits |
| DamageList.ConditionDamage.AddDamage | src/condition.cpp:1215-1245 | rounds of one value are appended, or a period is set, and the ticks follow |
| DamageList.ConditionDamage.Init | src/condition.cpp:1247-1274 | a fresh condition gets the list, and ticks of list length times max(interval, 250) |
| DamageList.InitAndTotal | src/condition.cpp:1432-1444 | the total of an initialised condition is the closed form if and only if the amount is at most 2^24, and never more |
| Money.HandingOutEnds | src/game.cpp:1559-1568 | handing out coins of one kind comes to an end if and only if there are fewer than 65536 of them |
| Money.FirstStuckCount | src/game.cpp:1560 | with 65536 coins the count is 0 in every round, the number still due never changes, and every round brings in one coin |
| Money.GrowsForEver | src/game.cpp:1559-1568 | from 65536 coins on every round brings in at least one more, without end |
| Money.AllCameOut | src/game.cpp:1559-1568 | below, exactly the coins that were due have come in when nothing is left |
| Money.Purse.WatchCoins | src/game.cpp:1559-1568 | from 65536 coins on the loop is not done after any number of rounds, and the total has grown by at least a coin for each |
| Money.StacksTotal | src/game.cpp:1559-1568 | the stacks handed out have 1 to 100 coins each and are worth what they replace |
| Money.CloseStepsPay | src/game.cpp:1550-1568 | all change below a limit is handed out if and only if no amount left for a kind of coin can exceed 65536 of it |
| Money.WideStep | src/game.cpp:1550-1568 | below a wider step lies an amount that is never handed out |
| Money.NothingLeft | src/game.cpp:1550-1558 | with a coin of worth one the greedy split leaves nothing over |
| Money.SortPiles | src/game.cpp:1475-1517 | the map holds every pile that is worth something once, least worth first, and the count is the total worth |
| FloatingPoint.CeilingIsExact | src/game.cpp:1532 | a quotient of 32-bit numbers in double precision, rounded up, is the exact quotient rounded up |
| Money.Broken | src/game.cpp:1530-1534 | the coins taken from the broken pile cover the amount, are not more than there are, and the change is below one coin |
| Money.Purse.AddCoins | src/game.cpp:1559-1568 | coins of one kind arrive in the cylinder or on the ground and no others |
| Money.Purse.AddMoney | src/game.cpp:1544-1572 | of every kind exactly the greedy number of coins arrives; total worth grows by the amount less what no coin covers |
| Money.Purse.PayLast | src/game.cpp:1525-1540 | one pile pays the rest, broken if worth more, and total worth falls by exactly that |
| Money.Purse.RemoveMoney | src/game.cpp:1465-1542 | paid exactly when the worth suffices; then total worth, change included, falls by exactly the amount and a pile is touched only when all cheaper ones are gone; otherwise nothing changes |
| WalkCache.AnswersAreFresh | src/creature.cpp:349-376 | the path search is told what a full recompute would tell it exactly when every cell but the centre is right |
| WalkCache.StepHolds | src/creature.cpp:516-597 | straight and northward-diagonal steps keep every other cell equal to a full recompute |
| WalkCache.SouthDiagonalHolds | src/creature.cpp:535-597 | a diagonal step to the south keeps the window right if and only if the northern row and the southern row do not tell one column from the next |
| WalkCache.OneOpenTile | src/creature.cpp:535-571 | one open tile at the edge is shown in the wrong column after a step to the south-east |
| WalkCache.Creature.UpdateTileCache | src/creature.cpp:331-347 | one cell follows its tile; places off the window or the floor are ignored |
| WalkCache.Creature.UpdateMapCache | src/creature.cpp:315-329 | every cell says what the map says |
| WalkCache.Creature.ShiftSouth | src/creature.cpp:523-527 | the rows move one to the south |
| WalkCache.Creature.ShiftNorth | src/creature.cpp:535-539 | the rows move one to the north |
| WalkCache.Creature.ShiftWest | src/creature.cpp:549-565 | the columns of the rows from a start on move one to the west |
| WalkCache.Creature.ShiftEast | src/creature.cpp:572-588 | the columns of the rows from a start on move one to the east |
| WalkCache.Creature.Step | src/creature.cpp:520-597 | the in-place shifts and refreshes do to every cell what the cell-by-cell description says |
| WalkCache.Creature.OnOwnMove | src/creature.cpp:516-599 | after a teleport, a change of floor or a followed step the window is equal to a full recompute but for the centre |
| WalkCache.Creature.OnOtherMove | src/creature.cpp:600-612 | a window that was right is right after another creature has moved |
| WalkCache.Creature.OnAddTileItem | src/creature.cpp:379-384 | a window that was right is right after an item has come onto a tile |
| WalkCache.Creature.OnUpdateTileItem | src/creature.cpp:386-398 | after an item has turned into another one the window is right if and only if one of the types blocks, or the tile is as walkable as before, or is not seen |
| WalkCache.Creature.OnRemoveTileItem | src/creature.cpp:400-411 | after an item has been taken off a tile the window is right if and only if it blocked or was the ground, or the tile is as walkable as before, or is not seen |
| WalkCache.Creature.OnAppear | src/creature.cpp:413-430 | a creature that keeps a window has it computed when it appears |
| WalkCache.Creature.GetWalkCache | src/creature.cpp:349-376 | the answer read from the array is the one described |
| DecayWheel.EntryTicks | src/game.cpp:4544-4587 | an entry of duration d leaves in tick 1 below a second, else in tick 4*(d/1000), one later when d%1000 >= 875 |
| DecayWheel.LifetimeIsClose | src/game.cpp:4544-4587 | 250 times the ticks is at most max(d, 250), and an item is early by less than 875 milliseconds |
| DecayWheel.RightList | src/game.cpp:4660-4667 | the list chosen at entry is the one from which the item leaves in that tick |
| DecayWheel.Wheel.DecaysOnTime | src/game.cpp:4544-4587 | over every run: unless it was dropped, an entry has ended in decay exactly if its tick has come, and not before |
| DecayWheel.Wheel.StartDecay | src/game.cpp:4510-4528 | an item with time left waits to be entered with one reference more; one already decaying or not to decay is left alone; one without time and successor is let go at once; every entry stays on time, in the books once and every reference accounted for |
| DecayWheel.Wheel.InternalDecayItem | src/game.cpp:4530-4542 | the successor with its time to live waits to be entered, or the item is let go: chains end, every reference stays accounted for |
| DecayWheel.Wheel.LetGo | src/game.cpp:4530-4542 | an item that is removed is released once, and the wheel stays as it was |
| DecayWheel.Wheel.FlushOne | src/game.cpp:4660-4667 | a waiting item is put on its list and booked with the tick in which it is due |
| DecayWheel.Wheel.ReleaseAll | src/game.cpp:4649-4658 | every item gives up as many references as it is on the list of releases |
| DecayWheel.Wheel.Cleanup | src/game.cpp:4647-4669 | afterwards nothing is waiting or to be released and every entry is booked |
| DecayWheel.Wheel.Drop | src/game.cpp:4553-4558 | an entry that may no longer decay leaves, is released once and has not decayed |
| DecayWheel.Wheel.Expire | src/game.cpp:4566-4576 | an entry leaves in the tick it was booked for, decays and is released once |
| DecayWheel.Wheel.Shift | src/game.cpp:4570-4579 | an entry with seven eighths of a second or more left moves on by one list |
| DecayWheel.Wheel.Visit | src/game.cpp:4551-4583 | the visit of one entry ends it in decay exactly if it is due and may decay, drops it if it may not, and keeps it otherwise |
| DecayWheel.Wheel.CheckDecay | src/game.cpp:4544-4587 | a tick keeps every entry on time, every entry in the books once and every reference accounted for |
| Trade.Game.InternalStartTrade | src/game.cpp:2685-2716 | accepted exactly when both are free for each other; then the offer is up and the partner asked or answered |
| Trade.Game.CheckOffer | src/game.cpp:2636-2671 | an item may be put up exactly if neither it nor anything in or around it is on offer |
| Trade.Game.RequestTrade | src/game.cpp:2564-2683 | a request succeeds exactly when it is sound and both are free; the matching and the table are kept, and no offer gets inside another |
| Trade.Game.AcceptTrade | src/game.cpp:2718-2840 | ignored, waiting, cancelled or completed exactly as the two states and the verdicts say; a finished trade leaves both idle and their items off the table |
| Trade.Game.CarryOut | src/game.cpp:2749-2840 | the transfer succeeds only with two items on offer, and a wish to close it meanwhile changes nothing |
| Trade.Game.Disturb | src/game.cpp:2925-2929 | closing a trade in the middle of its transfer changes nothing |
| Trade.Game.OfferIsFinal | src/game.cpp:2685-2694 | a player who has put something up or has agreed puts up nothing else until the trade is over |
| Trade.Game.AgreedToStays | src/game.cpp:2685-2694 | what a player has agreed to may still change if and only if the partner has neither put anything up nor agreed |
| Trade.Game.AgreeUnseen | src/game.cpp:2718-2730 | a player who agrees before any counter-offer has agreed to whatever comes: the partner puts something up, agrees, and the trade is carried out |
| Trade.Game.InternalCloseTrade | src/game.cpp:2923-2970 | both sides become idle, their items leave the table and each is released once, unless a transfer is under way |
| Trade.Game.CloseTrade | src/game.cpp:2913-2921 | a player calls a trade off; nobody else is touched |
| Trade.Game.RemovePlayer | src/player.cpp:1094-1099 | a player who leaves is nobody's partner and has nothing on the table |
| Trade.Game.TableIsOffers | src/game.cpp:2696-2700 | between two requests the table of traded items is exactly who offers what, both ways |
| Trade.Game.OneOwner | src/game.cpp:2696-2700 | no item is offered by two players |
| TaskQueue.StepKeepsFifo | src/databasetasks.cpp:18-52 | after every step the accepted tasks are the popped ones followed by the queue, and each popped task is in one hand or has run once |
| TaskQueue.StepKeepsAwake | src/databasetasks.cpp:18-52 | a sleeping worker with a task in the queue always has a notification coming |
| TaskQueue.StepKeepsShut | src/databasetasks.cpp:71-90 | after a shutdown has drained the queue it stays empty |
| TaskQueue.RunsAreSafe | src/databasetasks.cpp:18-90 | all three hold under every interleaving |
| TaskQueue.DrainedForGood | src/databasetasks.cpp:82-90 | after the flush of a shutdown the queue is empty for good and nothing more is accepted |
| TaskQueue.LastNotification | src/databasetasks.cpp:82-90 | the last notification of a shutdown ends the worker if and only if it does not find it between its look at the state and the lock |
| TaskQueue.LostWakeup | src/databasetasks.cpp:18-38 | a run in which the worker falls asleep behind the shutdown |
| TaskQueue.AsleepForGood | src/databasetasks.cpp:18-38 | from there no ordinary step wakes it |
| TaskQueue.FinishedOutOfOrder | src/databasetasks.cpp:71-80 | a flush beside the worker may finish tasks out of order |
| TaskQueue.DatabaseTasks.AddTask | src/databasetasks.cpp:40-52 | the part under the lock is the step of the protocol, and signals exactly when the queue was empty |
| TaskQueue.DatabaseTasks.TakeTask | src/databasetasks.cpp:21-36 | the worker's part under the lock is the step of the protocol |
| TaskQueue.DatabaseTasks.Flush | src/databasetasks.cpp:71-80 | an undisturbed flush runs everything that is queued, in order |
| SpeedLedger.Creature.ChangeSpeed | src/game.cpp:3694-3699 | the speed beyond the base speed changes by exactly the given amount |
| SpeedLedger.Creature.Start | src/condition.cpp:1581-1594 | a speed condition works out its change once and applies it |
| SpeedLedger.Creature.End | src/condition.cpp:1601 | ending takes back exactly what the condition added |
| SpeedLedger.Creature.Merge | src/condition.cpp:1603-1632 | a condition with the same key is worked in place: the speed moves by the difference of the two changes |
| SpeedLedger.Creature.AddCondition | src/creature.cpp:1183-1213 | put off, merged, refused or started, exactly as key, kind, walk and the start of the condition say; the ledger, the keys and the starts and ends stay right |
| SpeedLedger.Creature.OnAddCondition | src/creature.cpp:1051-1058 | a haste drives out a paralysis and the other way round |
| SpeedLedger.Creature.RemoveMatching | src/creature.cpp:1228-1282 | exactly the conditions of the kind, and of the id when one is given, are removed and ended once; a paralysis waits for the walk |
| SpeedLedger.Creature.RemoveCondition | src/creature.cpp:1298-1319 | exactly the given condition is removed and ended once |
| SpeedLedger.Creature.ExecuteConditions | src/creature.cpp:1341-1360 | exactly the conditions that are over are removed, in one turn of the clock for all |
| SpeedLedger.Creature.HasCondition | src/creature.cpp:1362-1380 | whether a condition of the kind and sub-id is active, not over and not suppressed |
| SpeedLedger.Creature.GetCondition | src/creature.cpp:1331-1339 | the first condition with a key |
| ItemSerialize.ReadFieldBytes | src/item.cpp:348-640 | every record that serializeAttr can write is read back with its effect and leaves what follows |
| ItemSerialize.ReadBack | src/item.cpp:642-801 | reading an item's bytes onto any item leaves it as described attribute by attribute, in front of whatever comes after |
| ItemSerialize.ColumnBack | src/iologindata.cpp:974-980 | the same for a column that holds nothing but the attributes |
| ItemSerialize.NumberKept | src/item.cpp:672-801 | a numeric attribute survives if and only if it fits the bytes it is written as |
| ItemSerialize.NothingLostIff | src/item.cpp:348-801 | reading an item back onto a new one of its type gives every written attribute, decaying having become pending, if and only if it fits; otherwise something is lost; for every item as items are stored |
| ItemSerialize.ActionIdFive | src/item.h:586-593 | an item with the action id 5 comes back with 100 |
| ItemSerialize.ReadValueOk | src/item.h:205-262 | a value that was read is never blank |
| ItemSerialize.ChangedStored | src/luaitem.cpp:404-534 | setters, scripts and the reader keep an item as items are stored: small counts, no empty texts, keys once and in lower case, no blank values |
| ItemSerialize.EveryItemReadable | src/luaitem.cpp:404-534 | whatever setters, scripts and the reader do to a new item, what is written of it can be read, in front of anything |
| ItemSerialize.TreeBack | src/iomapserialize.cpp:94-146 | loading a saved tree, whatever comes after it, gives the same attributes and the same contents in the same order and leaves exactly what came after |
| ItemSerialize.SerializeAttr | src/item.cpp:672-801 | the attributes are written as the records of the item in order |
| ItemSerialize.ReadAttrFrom | src/item.cpp:348-640 | one attribute is read with its effect, or refused where the source refuses |
| ItemSerialize.UnserializeAttr | src/item.cpp:642-656 | the attribute loop stops at the end mark, the contents or the end of the data |
| ItemSerialize.SaveItem | src/iomapserialize.cpp:197-215 | id, attributes, contents from last to first, end mark |
| ItemSerialize.LoadItem | src/iomapserialize.cpp:113-146 | the recursive reader on the stream computes the load of the bytes |
| ItemSerialize.LoadContainer | src/iomapserialize.cpp:94-111 | the counted loop puts each item in front of the others and wants the end mark |

## Left out

- The database, its SQL and escaping: rows and columns are assumed to come back exactly as they were written.
- Scripts and events: they are taken as refusing or allowing, by a parameter where the branch matters, and to change nothing.
- Networking, messages, magic effects, logging, configuration and the Lua bindings.
- Player inventories as a destination of moves, and the exchange of items they need: slots appear only in the rebuild from rows.
- OtbLoader.Loader.ParseTree: does not model a second parse on the same loader object, whose root would be reused.
- ConditionBlob.ColumnRoundTrip: does not cover damage, light, drunkenness and outfit conditions, whose written and read fields do not correspond one to one.
- ConditionBlob.CreateCondition: gives nothing for damage, light, drunkenness and outfit types, where the source creates a condition.
- ConditionBlob.LoadConditions: stops at a record of such a type.
- ConditionBlob.Condition.Unserialize: refuses more array entries than the array holds, where the source writes past its end.
- ItemMoves.QueryRemove: the verdict of a house tile is not part of it.
- ItemMoves.InternalMoveItem: the carrier's verdict is one parameter for the whole move, and the start of decay of moved items is not part of it.
- ItemMoves.InternalAddItem: models the addition anywhere in a container, not at a given slot, and not the start of decay.
- Containers.ChangeOfType: the random time to live is a parameter.
- LoginItems.RebuildDepot: rows as a save writes them, every held item's id above its container's; the same for the inventory.
- LoginItems.SaveAndLoadDepot: the running id is unbounded, and each row's own item is assumed to be restored by its columns; the attribute column itself is the subject of ItemSerialize.ColumnBack.
- Base32.DecodeSecret: the bitwise or of a symbol into the register is an addition, its low five bits being zero.
- StoppingTest.MidpointTest: every operation is rounded to the precision of its type (binary32, the difference from one binary64), as when FLT_EVAL_METHOD is 0; `DamageList.DamageTotal` and `DamageList.DamageShape` hold for other evaluations as well.
- Money.Purse.RemoveMoney: piles are values with a place in the order of the search, a pile of no coins being gone; which of several containers a coin lies in and items that cannot be removed are not modelled. It wants every change that breaking one of the piles can call for to be one that can be handed out, and a coin of worth one; currency types are stackable.
- WalkCache.Creature.OnOwnMove: coordinates are unbounded, so steps at the edge of the coordinate range are not covered.
- DecayWheel.Wheel.StartDecay: the only way into the wheel; the entries made directly by internalAddItem, clone and moves are not modelled, nor are changes of type or duration by others while an item is in the wheel.
- DecayWheel.Wheel.InternalDecayItem: what an item turns into is a parameter by the type it decays to, and no chain of types without time to live may go round in circles.
- Trade.Game.AcceptTrade: whether the items can be moved is a parameter; the moves themselves are those of ItemMoves. When the only item on offer is its owner's equipped backpack, the source looks up the type of the missing item (src/game.cpp:2773-2782); the model has that transfer fail. Reach, sight and rights are one parameter of a request.
- SpeedLedger.Creature.AddCondition: the effects of other kinds of conditions, the formula and its random roll (a parameter), and the walk events that a change of speed starts or stops.
- TaskQueue.RunsAreSafe: what a thread does under the lock is one step; a stop request is taken to come only while the worker is meant to run.
- ItemSerialize.TreeBack: values, not linked objects: linking parents and weights is the subject of Containers and LoginItems. Beds, doors, depot lockers, teleports, stationary tile items and the start of decay after loading are not covered, nor types whose items are created with another id.
- ItemSerialize.NothingLostIff: the registry of unique ids accepts every id; unique ids are not written and not compared.
- ItemSerialize.EveryItemReadable: a table of custom attributes has fewer than 2^64 entries.
- Houses, bans, combat, spells, spawns, chat, vocations, path finding itself, area matrices and the scheduler: flat branching or outside state.
