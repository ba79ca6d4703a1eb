# ebiten-demo: a Dafny model of the game core

This project models the core of a small top-down action game written in Go
on the ebiten engine. The player walks a tile map, talks to characters
through branching dialogue graphs, and dodges skeleton wizards that chase
and shoot. Each frame runs the interaction step first. While a conversation
is open nothing else moves. Otherwise the player controller, the enemy
behaviour, the projectile step and damage resolution run in that order.

Everything is a pure function over an immutable `Game` value:

- `Util`: the helpers of util.go, plus Go's truncating `/` and `%` (`Half`, `Rem`).
- `Geometry`: Go's `image.Rectangle`, whose `Rect` swaps corners and whose
  `Overlaps` needs both rectangles non-empty.
- `Entities`: the records of main.go.
- `Collider`: the feet-anchored hitboxes of collider.go.
- `Keys`: the keyboard queries.
- `Dialogue`: the dialogue engine and the graph build.
- `PlayerUpdate`, `Interaction`, `EnemyBehavior`, `Projectiles`: the update steps.
- `Render`: the sort key, frame rectangle and draw offset of render.go.
- `Frame`: the per-frame order of `Game.Update`.

Pointers become values:

- The interaction target is a character index. Dialogue state lives behind
  shared pointers in the source, so updating the character in the slice is
  what the source's copy does too.
- The enemy collision record is a copy of the enemy.
- The projectile collision record is the projectile's slot in the slice.
- A nil dereference or an index past the end is a panic in Go. It appears
  as a `requires`, or as `None` where the panic is the point.

Notes on the code:

- Doodads use a half-height hitbox like the characters, unlike collider
  tiles, which use the full frame height.
- Projectiles use a full-height hitbox.
- Enemies align and chase on the hitbox's top-left corner (`Min.X`, `Min.Y`).
- An enemy steps without checking other enemies or doodads in its way.
- A spawned fireball keeps the zero `Speed` and `IsEnemy == false`. It never
  moves (`Projectiles.SpawnedFireballsStayPut`). It cannot hurt the player.
  When both sprites are at least two pixels wide, the enemy's frame at least
  two pixels tall and the fireball's at least one, it is spent on its own
  shooter in the same frame (`Projectiles.FireballOnItsEnemyIsSpent`).
- The cull bounds are the literal constants x in [-640, 1280] and y in [-480, 960].
- The interaction start loop assumes Go 1.22's per-iteration loop
  variables, so the last matching character becomes the target. The player's
  sprite changes after each match, and that sprite change affects the later
  hitbox tests.

## Model

| member | source | states |
|---|---|---|
| Util.Contains | util.go:5-12 | true exactly when some element equals the string |
| Util.Remove | util.go:14-17 | length drops by one; the removed slot receives the last element; every other slot keeps its element |
| Util.RemoveMultiset | util.go:14-17 | swap-with-last removal drops exactly one copy of the removed element and keeps all others |
| Util.Min | util.go:19-24 | the result is one of the arguments and no larger than either |
| Util.Max | util.go:26-31 | the result is one of the arguments and no smaller than either |
| Util.ClampInRange | main.go:106 | `Min(Max(v, 0), n - 1)` lies in [0, n-1] for n >= 1; in-range values are unchanged; low values clamp to 0 and high values to n-1 |
| Util.AbsDiff | util.go:33-38 | the distance is non-negative, zero iff the arguments are equal, and bridges the two |
| Util.Half | collider.go:17 | Go's `/ 2` truncates toward zero: the remainder is in [0,1] for non-negative and [-1,0] for negative operands |
| Util.Rem | update.go:66 | Go's `%` keeps the dividend's sign, stays below the modulus in size, differs from the dividend by a multiple of the modulus, and leaves small non-negative values alone |
| Util.RemIsUnique | update.go:66 | those bounds and the congruence admit exactly one value, so they pin Go's remainder |
| Util.CamelCase | util.go:40-57 | the loop computes the reference transform; the result drops exactly the underscores and contains none |
| Util.CamelIdempotent | util.go:40-57 | camel-casing a camel-cased string changes nothing |
| Util.CamelIdentity | util.go:40-57 | a string without underscores is its own camel case |
| Geometry.MakeRect | collider.go:18 | image.Rect orders each pair of coordinates so that min <= max |
| Geometry.Translate | collider.go:12-19 | translating keeps the size and moves every pixel by the offset |
| Geometry.OverlapsIffSharedPixel | update.go:88 | Overlaps holds exactly when the two rectangles share a pixel |
| Geometry.EmptyOverlapsNothing | collider.go:53 | an empty rectangle, including the zero one, overlaps nothing in either order |
| Collider.PlayerHitbox | collider.go:12-19 | bottom on y+dy, half the frame height tall, frame width centred on x+dx |
| Collider.CharacterHitbox | collider.go:22-29 | bottom on y+dy, half the frame height tall, frame width centred on x+dx |
| Collider.EnemyHitbox | collider.go:32-39 | bottom on y+dy, half the frame height tall, frame width centred on x+dx |
| Collider.DoodadHitbox | collider.go:42-45 | bottom on y+dy, half the frame height tall, frame width centred on x+dx |
| Collider.TileHitbox | collider.go:48-55 | a collider tile covers its full frame above y+dy; any other tile's box is empty |
| Collider.ProjectileHitbox | collider.go:58-65 | bottom on y+dy, the full frame height tall, frame width centred on x+dx |
| Collider.HitboxesTranslate | collider.go:12-65 | probing at (dx, dy) equals the origin box translated and equals the box of the moved entity; a non-collider tile stays the zero box |
| Collider.SpanIsSymmetric | collider.go:18 | the horizontal span is symmetric about the anchor for every sprite width |
| Collider.NonColliderTileNeverOverlaps | collider.go:52-54 | a non-collider tile never blocks anything |
| Keys.OtherDirectionReleasedIff | main.go:223-236 | true iff the key is an arrow and some other arrow was just released |
| Keys.LeastKeyPressDurationIff | main.go:240-251 | true iff the key is held and its hold is strictly shorter than that of every other held arrow |
| Keys.LeastKeyPressDurationIsUnique | main.go:240-251 | at most one arrow is the most recently pressed |
| Dialogue.Dialogue | main.go:91-95 | the revealed text is the prefix of the phrase with `RuneNum` characters |
| Dialogue.WellFormedIsReady | main.go:91-143 | well-formed dialogue data never makes the accessors dereference a missing graph or node, and the selected option exists |
| Dialogue.SelectOption | main.go:103-107 | the selection moves by `dir` clamped to the options (-1 with none); only the current node's selection changes; well-formedness is kept |
| Dialogue.AdvanceRune | main.go:115-119 | one more character is revealed, never past the phrase end; only the reveal changes; well-formedness is kept |
| Dialogue.RevealOnlyGrows | main.go:91-119 | the revealed text after a step extends the text before it, by one character until the phrase is complete |
| Dialogue.Depart | main.go:127-135 | leaving a node resets its reveal and selection to 0, moves the key to the target, and changes nothing else |
| Dialogue.AdvancePhrase | main.go:121-138 | without options it follows the first edge, if any; otherwise the selected option's target is followed only when it is a wired edge; a closed graph stays ready and well-formedness is kept |
| Dialogue.LastEntryIff | main.go:406-420 | a lookup finds an entry exactly when one carries the id, and it finds the last such entry |
| Dialogue.BuildGraph | main.go:404-427 | one node and edge list per distinct id, taken from the last entry with that id; the first entry's id is the root and the current key |
| Dialogue.BuiltNodesStartFresh | main.go:410-414 | every built node starts unrevealed with the first option selected |
| Dialogue.BuiltGraphWellFormed | main.go:404-427 | entries whose options name targets and whose connections name existing ids build a well-formed graph |
| Dialogue.BuildGraphs | main.go:404-427 | one graph per parsed character key, each built from its entries |
| EnemyBehavior.AdvanceBehavior | behavior.go:14-92 | holding an attack only advances `Paused`; otherwise `Paused` resets; aligned on an edge it fires toward the player with the exact command, sprite and fireball; fully aligned it does nothing; otherwise it steps one pixel toward the player on the axis with the smaller difference, switching to the matching `walk_<dir>` command and walk sprite, and spawns nothing |
| EnemyBehavior.PursuitStepClosesGap | behavior.go:67-90 | a pursuit step shrinks the summed edge distance to the player by exactly one |
| EnemyBehavior.AttackHeldForPause | behavior.go:15-17 | an attack is held for the remaining `Pause - Paused` calls, each advancing only the counter |
| EnemyBehavior.AdvanceAll | update.go:292-296 | each enemy advances independently against the same player; projectiles are appended in enemy order |
| EnemyBehavior.UpdateEnemies | update.go:292-296 | same enemy count; each enemy is its own `AdvanceBehavior` result; projectiles only grow, by at most one per enemy, each from an enemy that fired |
| PlayerUpdate.Animate | update.go:57-75 | multi-frame sprites tick; the wrap is modulo `FrameLen - 1` and keeps the frame index in range; an attack ends exactly when the wrap lands on frame 0, and ending it disarms the weapon |
| PlayerUpdate.FirstOverlap | update.go:87-94 | the index found is the first overlapped box; none is found only when no box overlaps |
| PlayerUpdate.Turn | update.go:79-84 | on a fresh press, a release that leaves this arrow as the latest, or an animation end, the player faces the arrow with the walk sprite and reset frame counters; otherwise nothing changes |
| PlayerUpdate.Blocked | update.go:85-115 | the step is blocked iff the probed box meets an enemy, tile, doodad or character |
| PlayerUpdate.Bumped | update.go:87-94 | the first overlapped enemy in slice order is recorded |
| PlayerUpdate.TryStep | update.go:85-118 | the player moves exactly one pixel toward the arrow iff the probe is clear; the first enemy met is recorded, otherwise the record is kept |
| PlayerUpdate.StepLandsClear | update.go:85-118 | after a step the player's box overlaps no obstacle |
| PlayerUpdate.MoveAxis | update.go:77-119 | an unheld arrow changes nothing; a held one turns and then tries the step; health and animation are kept |
| PlayerUpdate.Stand | update.go:253-266 | idle with no arrow held: frame counters reset and the standing sprite for `LastDir` is chosen |
| PlayerUpdate.Attack | update.go:268-285 | Space from rest starts the attack animation, arms the weapon and picks the attack sprite for `LastDir` |
| PlayerUpdate.UpdatePlayer | update.go:56-286 | health kept; at most one pixel per axis; a running attack stops only at its end; an attack starts only with Space; a recorded enemy is one of the game's |
| Interaction.FacingSide | update.go:29-50 | the side found is touched, checked east, south, west, north in that order; none only when no side touches |
| Interaction.Face | update.go:26-50 | facing a character makes it the target and turns the player to it with reset frame counters; otherwise nothing changes |
| Interaction.StartFrom | update.go:26-51 | only the target and the player's sprite and frame counters change; after a match the target is a character index, the counters are reset and the player holds the `linkStand` sprite of a side; a set target is never cleared |
| Interaction.StartNeedsFacing | update.go:26-51 | the loop sets a target only if the player, as it stood before the loop, faces some character |
| Interaction.FacingStarts | update.go:26-51 | a character the player faces makes the loop set a target |
| Interaction.NoNeighbourNoInteraction | update.go:26-51 | when the player faces no character, starting changes nothing |
| Interaction.Converse | update.go:9-24 | Left beats Right beats Enter, after one character is revealed; the interaction ends exactly when Enter confirms an exhausted node; well-formedness is kept |
| Interaction.UpdateInteraction | update.go:8-54 | during an interaction only the target's dialogue changes; without one nothing changes unless Enter was released at rest; starting one touches only the target and the player's sprite and counters, and leaves the player with the `linkStand` sprite of a side |
| Interaction.StartsIffFacing | update.go:25-51 | when Enter is released at rest, an interaction starts exactly when the player faces at least one character, for any number of characters |
| Projectiles.Move | update.go:301-309 | the projectile moves by exactly `Speed` along its direction, signed, so a negative speed flies backwards; nothing else changes |
| Projectiles.MoveIsReversible | update.go:301-309 | a frame of flight is undone by a frame the other way at the same speed, and equals a frame the other way at the negated speed |
| Projectiles.SpawnedFireballsStayPut | behavior.go:27-33 | a zero-speed projectile does not move |
| Projectiles.HitIsNotMarked | update.go:315-319 | a projectile hitting the player is never also queued for removal |
| Projectiles.FireballOnItsEnemyIsSpent | update.go:334-340 | a spawned fireball on its shooter is spent on it by the next projectile step |
| Projectiles.CountOverlaps | update.go:321-347 | counts the overlapped boxes; zero exactly when none overlaps |
| Projectiles.MarkedIffCounted | update.go:310-347 | the source appends a projectile at least once exactly when it should leave the list |
| Projectiles.ScanAsWritten | update.go:299-349 | the removal list is sorted, in range, and holds each index once per overlapped target |
| Projectiles.RemoveAsWritten | update.go:350-352 | the batch removal as written: a single index removes exactly that slot |
| Projectiles.UnflaggedMembers | update.go:350-352 | the kept elements are exactly the unflagged ones: each kept element sits at a clear position and every clear position is kept |
| Projectiles.RemoveFromKeeps | update.go:350-352 | removing flagged slots from the highest down keeps exactly the unflagged elements as a multiset |
| Projectiles.RemoveFlagged | update.go:310-352 | corrected removal: the kept multiset is the unflagged elements, and an unflagged hit projectile is still found at the returned slot |
| Projectiles.OneFlagIsOneRemove | update.go:350-352 | with one flag, the corrected removal is the single swap-with-last removal |
| Projectiles.LastHit | update.go:315-318 | the recorded hit is the last projectile overlapping the player; none only when no projectile hits |
| Projectiles.SurvivorsAreTheUnmarked | update.go:298-353 | a projectile survives exactly when its moved self is not queued for removal |
| Projectiles.UpdateProjectilesAsWritten | update.go:298-353 | the step as written: the list shrinks by the length of the removal list, and `None` marks the removal's panic |
| Projectiles.UpdateProjectiles | update.go:298-353 | corrected step, as the findings below justify: the surviving multiset is the moved, unmarked projectiles; when some projectile hits the player, the record points at a hitting projectile in the new list |
| Projectiles.SingleMarkAgrees | update.go:350-352 | with at most one index on the list, the source's removal never panics and agrees with the corrected one |
| Projectiles.UpdateDamage | update.go:355-376 | exactly one point of damage when either collision is recorded; the hit projectile is removed; both records clear |
| Projectiles.TwoDoodadsMarkTwice | update.go:328-333 | a projectile on two doodads is appended twice |
| Projectiles.DuplicateMarkRemovesBystander | update.go:350-352 | a duplicated index removes an unmarked bystander |
| Projectiles.ShiftedIndexRemovesBystander | update.go:350-352 | two distinct indices shift onto a bystander, or past the end |
| Projectiles.StaleSlotAfterRemoval | update.go:310-366 | after a cull, the recorded slot of the hit lies past the end of the list, so damage resolution indexes out of range |
| Projectiles.CorrectedSlotIsFound | update.go:310-366 | the corrected step on the same frame finds the hit projectile at its new slot |
| Render.RenderOrder | render.go:28-104 | entities sort by y; collider tiles at `MinInt / 2`; other tiles at `MinInt` |
| Render.TilesSortFirst | render.go:84-90 | a ground tile sorts before a collider tile, and any tile before an entity whose y exceeds `MinInt / 2` |
| Render.EntitiesSortByY | render.go:28-104 | two entities compare exactly as their y coordinates |
| Render.SortedLayers | main.go:295 | in a list sorted by the key, tiles come before entities whose y exceeds `MinInt / 2`, ground before collider tiles, and higher entities before lower ones |
| Render.FrameRect | render.go:16-19 | frame F spans x from F*(W+1) to F*(W+1)+W and y from 0 to H |
| Render.RenderSprite | render.go:16-48 | the player and characters show their current frame; other drawables show the whole image |
| Render.FrameSize | render.go:18 | a frame is exactly W wide and H tall |
| Render.FramesLeaveGap | render.go:17-18 | the next frame starts one pixel after this one ends |
| Render.FramesDisjoint | render.go:17-18 | distinct frames share no pixel |
| Render.DrawOffset | render.go:21-39 | the image is drawn with its bottom edge on y and shifted left by exactly half the frame width, halved with Go's truncating division, so its left edge is within one frame width of x |
| Render.DrawnFrameFitsHitbox | render.go:21-26 | the drawn frame and the hitbox share the bottom and left edges; the frame is at most one column wider and never lower than the hitbox top |
| Frame.ConsistentIsReady | main.go:253-258 | between frames the interaction step never dereferences a missing target, graph or node |
| Frame.Simulate | main.go:260-264 | the player, enemy, projectile and damage steps clear both collision records, keep the enemy count, cost at most one health and move at most a pixel per axis |
| Frame.Update | main.go:253-267 | the frame keeps the between-frame invariant; while a conversation holds, the player, enemies and projectiles stand still; only the target character's dialogue changes |
| Frame.NoConversationRunsTheWorld | main.go:255-264 | with no conversation and none starting, the frame is exactly the world steps in order |
| Frame.ConversationFreezesTheWorld | main.go:255-258 | a continuing conversation changes nothing but the characters |

## Left out

- Drawing, Layout, window setup and asset and JSON loading in main.go are I/O. The model takes their results as input.
- Sorting the render list with sort.Slice is not modelled. `Render.SortedLayers` states what any list sorted by the key satisfies.
- The player's weapon as a render target, and Game.Weapons, are left out because weapon.go is not part of this model.
- `Weapon.Wielder` is the pointer `&g.Player` in the source. The model records only that the player wields the weapon.
- SubImage's intersection with the image bounds, and image handles, are left out. `Render.RenderSprite` returns the requested rectangle.
- Key polling (ebiten.IsKeyPressed and inpututil) is left out. The model takes an `Input` record of held, just-pressed and just-released keys and hold durations.
- UpdateCharacters is empty in the source, so the frame skips it.
- The interaction loop takes a copy of the character, but the copy shares the character's dialogue maps, which hold pointers. The model keeps one value per character, and updating it in the slice observes the same updates as the source's copy does.
- Interaction.UpdateInteraction: characters are assumed not to share a dialogue graph. In the source, main.go:404-426 builds one map from dialogue key to graph pointer, and main.go:497 hands it to every character. Two characters with the same dialogue key therefore share one graph, and talking to one advances the other. Value copies cannot express that aliasing, so the contract's "every other character is unchanged" holds only when dialogue keys are distinct, as they are in the game's single-character world.
- Frame.Update: the same assumption. Its "characters change only at the target" holds only when no two characters share a dialogue key.
- Util.CamelCase: only ASCII input is covered (`requires IsAscii`). For bytes at or above 0x80 the source's `string(s[i])` re-encodes the byte as a two-byte rune.
- Go's 64-bit `int` wrap-around is not modelled: positions, counters and health are unbounded integers. `Render.MinInt` is the 64-bit value.
- Frame.Update requires the collision records to be clear at the start of a frame. Every frame ends with them clear (`Frame.Update` keeps `Consistent`), so only the first frame needs the assumption.
- Projectiles.UpdateDamage requires the recorded slot to be in range. In the source an out-of-range slot panics; `Projectiles.StaleSlotAfterRemoval` shows the code as written reaching it.
- Dialogue.Dialogue: phrases are sequences of characters, and `RuneNum` counts characters. Go's `len` and slicing count bytes, so the model matches the source on ASCII phrases only. On other text the source takes more frames and can show half of a multi-byte character.
- Dialogue.AdvanceRune: reveals one character per frame, bounded by the character count. The source reveals one byte, bounded by the byte length; the two agree on ASCII phrases.
- Dialogue.RevealOnlyGrows: growth is per character; the source's is per byte (ASCII phrases agree).
- Interaction.Converse: the reveal it performs is `Dialogue.AdvanceRune`'s, one character per frame.
- Frame.Simulate: the frame runs the corrected projectile step (`Projectiles.UpdateProjectiles`), not the removal as written (`Projectiles.UpdateProjectilesAsWritten`). The two agree whenever at most one index is on the removal list (`Projectiles.SingleMarkAgrees`). On the inputs under "## Findings" the source drops a bystander or panics where the model does not, and `Frame.Update` keeps `Consistent` only because of the correction.
- Dialogue.AdvancePhrase requires the selected option to name a target, as the source indexes it unchecked.

## Findings

| source | as written | input that shows it | evidently intended | confidence | as-written member | corrected member |
|---|---|---|---|---|---|---|
| update.go:321-347 | `continue` inside the inner target loops ends only that inner iteration, so a projectile's index is appended once per overlapped character, enemy or doodad | a resting player fireball at (0,0) overlapping two doodads at (0,1): the removal list is [0, 0] | each projectile is queued at most once | high, not executed | Projectiles.TwoDoodadsMarkTwice | Projectiles.SurvivorsAreTheUnmarked |
| update.go:350-352 | `Remove(v+k)` shifts every later index by the number already removed. Swap-with-last removal moves the last element, not the tail, so the shift lands on bystanders or past the end | marks [0, 1] over [p0, p1, p2, p3] keep [p3, p1], dropping the unmarked p2; over three projectiles the second removal indexes past the end; duplicate marks [0, 0] over [a, b, c] drop b | remove exactly the marked projectiles | high, not executed | Projectiles.ShiftedIndexRemovesBystander | Projectiles.RemoveFlagged |
| update.go:310-366 | `ProjectileCollision` points at the hit's slot in the backing array. A swap-with-last removal moves the hit to an earlier slot, and UpdateDamage's search then fails and removes at `len`, which panics. A single mark is enough | slot 0 culled (x = 2000) and slot 1 an enemy projectile on the player: the record stays at slot 1 of a one-element list | the recorded hit follows the projectile to its new slot | medium, not executed | Projectiles.StaleSlotAfterRemoval | Projectiles.CorrectedSlotIsFound |
