/** The player controller (UpdatePlayer in update.go): advance the animation
    clock, then for each held arrow in the order Left, Right, Up, Down turn
    toward it when the key has just become the one to follow and step one
    pixel unless the probed hitbox meets an obstacle; then pick a standing
    sprite when idle and start an attack on Space. */
module PlayerUpdate {
  import opened Util
  import opened Geometry
  import opened Entities
  import opened Collider
  import opened Keys

  /** The player after the animation clock ticks, and whether an attack animation just ended. */
  datatype Animated = Animated(player: Player, animEnd: bool)

  /** The clock wraps when the incremented frame duration reaches the sprite's. */
  predicate Wraps(p: Player)
  {
    p.sprite.frameLen > 1 && p.frameDur + 1 >= p.sprite.frameDur
  }

  /** The animation tick (update.go:57-75). Only sprites with more than one
      frame animate; `FrameNum` wraps modulo `FrameLen - 1`. */
  function Animate(p: Player): (r: Animated)
    ensures p.sprite.frameLen <= 1 ==> r == Animated(p, false)
    ensures p.sprite.frameLen > 1 && !Wraps(p) ==>
      r == Animated(p.(frameDur := p.frameDur + 1), false)
    ensures Wraps(p) ==> r.player.frameDur == 0 && r.player.frameNum == Rem(p.frameNum + 1, p.sprite.frameLen - 1)
    // FrameNum stays a valid index below FrameLen - 1.
    ensures p.sprite.frameLen > 1 && 0 <= p.frameNum <= p.sprite.frameLen - 2 ==>
      0 <= r.player.frameNum <= p.sprite.frameLen - 2
    ensures Wraps(p) && 0 <= p.frameNum ==> 0 <= r.player.frameNum <= p.sprite.frameLen - 2
    // An animation ends exactly when the wrap lands on frame 0, and ending it disarms the weapon.
    ensures r.animEnd <==> Wraps(p) && p.animation && r.player.frameNum == 0
    ensures r.animEnd <==> p.animation && !r.player.animation
    ensures r.animEnd ==> !r.player.weapon.isAttacking && r.player.weapon.frameNum == 0
    ensures !r.animEnd ==> r.player.animation == p.animation && r.player.weapon == p.weapon
    ensures r.player.(frameNum := p.frameNum, frameDur := p.frameDur, animation := p.animation, weapon := p.weapon) == p
  {
    if p.sprite.frameLen > 1 then
      var p := p.(frameDur := p.frameDur + 1);
      if p.frameDur >= p.sprite.frameDur then
        var p := p.(frameDur := 0, frameNum := Rem(p.frameNum + 1, p.sprite.frameLen - 1));
        if p.animation && p.frameNum == 0 then
          Animated(p.(weapon := p.weapon.(isAttacking := false, frameNum := 0), animation := false), true)
        else
          Animated(p, false)
      else
        Animated(p, false)
    else
      Animated(p, false)
  }

  /** The compass name the sprite keys use for an arrow. */
  function Compass(k: Key): string
    requires IsArrow(k)
  {
    match k
    case KeyLeft => "West"
    case KeyRight => "East"
    case KeyUp => "North"
    case KeyDown => "South"
  }

  /** The one-pixel step an arrow asks for, in screen coordinates (y grows downward). */
  function Offset(k: Key): (d: Point)
    requires IsArrow(k)
    ensures AbsDiff(d.x, 0) + AbsDiff(d.y, 0) == 1
    ensures (k == KeyLeft || k == KeyRight) <==> d.y == 0
  {
    match k
    case KeyLeft => Point(-1, 0)
    case KeyRight => Point(1, 0)
    case KeyUp => Point(0, -1)
    case KeyDown => Point(0, 1)
  }

  /** A scan that stops at the first box the probe overlaps, as the source's
      `for ... { if overlaps { ...; break } }` loops do. */
  function FirstOverlap(probe: Rect, boxes: seq<Rect>): (r: Option<nat>)
    ensures r.Some? ==> r.value < |boxes| && Overlaps(probe, boxes[r.value])
    ensures r.Some? ==> forall j :: 0 <= j < r.value ==> !Overlaps(probe, boxes[j])
    ensures r.None? <==> forall j :: 0 <= j < |boxes| ==> !Overlaps(probe, boxes[j])
    decreases |boxes|
  {
    if |boxes| == 0 then None
    else if Overlaps(probe, boxes[0]) then Some(0)
    else
      match FirstOverlap(probe, boxes[1..])
      case None => None
      case Some(i) => Some(i + 1)
  }

  /** No enemy, tile, doodad or character overlaps `box`. */
  predicate Clear(g: Game, box: Rect)
  {
    && (forall i :: 0 <= i < |g.enemies| ==> !Overlaps(box, EnemyHitbox(g.enemies[i], 0, 0)))
    && (forall i :: 0 <= i < |g.tiles| ==> !Overlaps(box, TileHitbox(g.tiles[i], 0, 0)))
    && (forall i :: 0 <= i < |g.doodads| ==> !Overlaps(box, DoodadHitbox(g.doodads[i], 0, 0)))
    && (forall i :: 0 <= i < |g.characters| ==> !Overlaps(box, CharacterHitbox(g.characters[i], 0, 0)))
  }

  /** The walk animation restarts toward `k`: the key was just pressed, or
      another arrow was just released and `k` is the most recently pressed of
      those still held, or an attack animation just ended. */
  predicate Retargets(input: Input, k: Key, animEnd: bool)
  {
    JustPressed(input, k) || (IsOtherDirectionJustReleased(input, k) && IsLeastKeyPressDuration(input, k)) || animEnd
  }

  /** The box the player would have one step toward `k`. */
  function Probe(p: Player, k: Key): Rect
    requires IsArrow(k)
  {
    PlayerHitbox(p, Offset(k).x, Offset(k).y)
  }

  /** The turn that precedes the probe: restart the walk toward `k` when it retargets. */
  function Turn(g: Game, input: Input, k: Key, animEnd: bool): (p: Player)
    requires IsArrow(k)
    ensures Retargets(input, k, animEnd) ==>
      && p.lastDir == k && p.frameNum == 0 && p.frameDur == 0
      && p.sprite == SpriteNamed(g.sprites, "linkWalk" + Compass(k))
      && p.(lastDir := g.player.lastDir, frameNum := g.player.frameNum, frameDur := g.player.frameDur,
            sprite := g.player.sprite) == g.player
    ensures !Retargets(input, k, animEnd) ==> p == g.player
  {
    if Retargets(input, k, animEnd)
    then g.player.(lastDir := k, frameNum := 0, frameDur := 0,
                   sprite := SpriteNamed(g.sprites, "linkWalk" + Compass(k)))
    else g.player
  }

  /** The four obstacle scans of one arrow block: any of them finds an overlap. */
  function Blocked(g: Game, probe: Rect): (b: bool)
    ensures !b <==> Clear(g, probe)
  {
    || FirstOverlap(probe, EnemyBoxes(g.enemies)).Some?
    || FirstOverlap(probe, TileBoxes(g.tiles)).Some?
    || FirstOverlap(probe, DoodadBoxes(g.doodads)).Some?
    || FirstOverlap(probe, CharacterBoxes(g.characters)).Some?
  }

  /** The enemy recorded when the probe meets one: the first in slice order. */
  function Bumped(g: Game, probe: Rect): (r: Option<Enemy>)
    ensures (forall i :: 0 <= i < |g.enemies| ==> !Overlaps(probe, EnemyHitbox(g.enemies[i], 0, 0))) ==> r.None?
    ensures forall i :: 0 <= i < |g.enemies| && Overlaps(probe, EnemyHitbox(g.enemies[i], 0, 0)) &&
                        (forall j :: 0 <= j < i ==> !Overlaps(probe, EnemyHitbox(g.enemies[j], 0, 0)))
                     ==> r == Some(g.enemies[i])
  {
    var boxes := EnemyBoxes(g.enemies);
    match FirstOverlap(probe, boxes)
    case None => None
    case Some(i) =>
      assert forall j :: 0 <= j < |g.enemies| && j != i && Overlaps(probe, boxes[j]) ==> i < j;
      Some(g.enemies[i])
  }

  /** Probe one step toward `k` for player `p`; step unless an enemy, tile,
      doodad or character is in the way, and record the first enemy hit. */
  function TryStep(g: Game, p: Player, k: Key): (r: Game)
    requires IsArrow(k)
    ensures r == g.(player := r.player, enemyCollision := r.enemyCollision)
    // A step of exactly zero or one pixel along the key's direction ...
    ensures r.player == p || r.player == p.(x := p.x + Offset(k).x, y := p.y + Offset(k).y)
    // ... taken exactly when the probed box is clear.
    ensures r.player != p <==> Clear(g, Probe(p, k))
    ensures r.enemyCollision != g.enemyCollision ==> r.enemyCollision.Some? && r.enemyCollision.value in g.enemies
    // The first enemy the probe meets is recorded; otherwise the record is kept.
    ensures (forall i :: 0 <= i < |g.enemies| ==> !Overlaps(Probe(p, k), EnemyHitbox(g.enemies[i], 0, 0)))
      ==> r.enemyCollision == g.enemyCollision
    ensures forall i :: 0 <= i < |g.enemies| && Overlaps(Probe(p, k), EnemyHitbox(g.enemies[i], 0, 0)) &&
                        (forall j :: 0 <= j < i ==> !Overlaps(Probe(p, k), EnemyHitbox(g.enemies[j], 0, 0)))
                     ==> r.enemyCollision == Some(g.enemies[i])
  {
    var d := Offset(k);
    var probe := PlayerHitbox(p, d.x, d.y);
    var bumped := Bumped(g, probe);
    var moved := p.(x := p.x + d.x, y := p.y + d.y);
    assert moved != p by {
      assert moved.x != p.x || moved.y != p.y;
    }
    var p' := if Blocked(g, probe) then p else moved;
    g.(player := p', enemyCollision := if bumped.Some? then bumped else g.enemyCollision)
  }

  /** A step never ends inside an obstacle: the player's box after the step
      is the box that was probed, and the step is taken only when that is clear. */
  lemma StepLandsClear(g: Game, p: Player, k: Key)
    requires IsArrow(k)
    ensures var r := TryStep(g, p, k);
      r.player != p ==> Clear(r, PlayerHitbox(r.player, 0, 0))
  {
    var r := TryStep(g, p, k);
    if r.player != p {
      HitboxMovesWithProbe(p, Offset(k).x, Offset(k).y);
      assert r.player == p.(x := p.x + Offset(k).x, y := p.y + Offset(k).y);
      assert PlayerHitbox(r.player, 0, 0) == Probe(p, k);
      assert Clear(g, Probe(p, k));
      assert r.enemies == g.enemies && r.tiles == g.tiles && r.doodads == g.doodads && r.characters == g.characters;
    }
  }

  /** One arrow's block of UpdatePlayer (update.go:77-251 is this block four
      times): when the arrow is held, turn, then try the step. */
  function MoveAxis(g: Game, input: Input, k: Key, animEnd: bool): (r: Game)
    requires IsArrow(k)
    ensures !Held(input, k) ==> r == g
    ensures Held(input, k) ==> r == TryStep(g, Turn(g, input, k, animEnd), k)
    ensures r == g.(player := r.player, enemyCollision := r.enemyCollision)
    ensures r.player.health == g.player.health && r.player.animation == g.player.animation
    ensures r.player.x == g.player.x || r.player.x == g.player.x + Offset(k).x
    ensures r.player.y == g.player.y || r.player.y == g.player.y + Offset(k).y
    ensures r.enemyCollision != g.enemyCollision ==> r.enemyCollision.Some? && r.enemyCollision.value in g.enemies
  {
    if Held(input, k) then TryStep(g, Turn(g, input, k, animEnd), k) else g
  }

  /** The probed box is the box of the player after the step. */
  lemma HitboxMovesWithProbe(p: Player, dx: int, dy: int)
    ensures PlayerHitbox(p.(x := p.x + dx, y := p.y + dy), 0, 0) == PlayerHitbox(p, dx, dy)
  {
    FeetBoxTranslates(p.x, p.y, p.sprite.frameWidth, Half(p.sprite.frameHeight), dx, dy);
  }

  predicate NoArrowHeld(input: Input)
  {
    !Held(input, KeyLeft) && !Held(input, KeyRight) && !Held(input, KeyUp) && !Held(input, KeyDown)
  }

  /** Idle: with no arrow held and no animation, face `LastDir` standing still (update.go:254-266). */
  function Stand(g: Game, input: Input): (r: Game)
    ensures r == g.(player := r.player)
    ensures !(NoArrowHeld(input) && !g.player.animation) ==> r == g
    ensures NoArrowHeld(input) && !g.player.animation ==>
      && r.player.frameNum == 0 && r.player.frameDur == 0
      && r.player.sprite == (if IsArrow(g.player.lastDir)
                             then SpriteNamed(g.sprites, "linkStand" + Compass(g.player.lastDir))
                             else g.player.sprite)
      && r.player.(frameNum := g.player.frameNum, frameDur := g.player.frameDur, sprite := g.player.sprite) == g.player
  {
    if NoArrowHeld(input) && !g.player.animation then
      var p := g.player.(frameNum := 0, frameDur := 0);
      var p := if IsArrow(p.lastDir) then p.(sprite := SpriteNamed(g.sprites, "linkStand" + Compass(p.lastDir))) else p;
      g.(player := p)
    else
      g
  }

  /** Starting an attack with Space while not already animating (update.go:269-285). */
  function Attack(g: Game, input: Input): (r: Game)
    ensures r == g.(player := r.player)
    ensures !(Held(input, KeySpace) && !g.player.animation) ==> r == g
    ensures Held(input, KeySpace) && !g.player.animation ==>
      && r.player.animation && r.player.frameNum == 0 && r.player.frameDur == 0
      && r.player.weapon.isAttacking && r.player.weapon.frameNum == 0
      && r.player.weapon.wielder == WieldedByPlayer
      && r.player.weapon.sprite == g.player.weapon.sprite
      && r.player.sprite == (if IsArrow(g.player.lastDir)
                             then SpriteNamed(g.sprites, "linkAttack" + Compass(g.player.lastDir))
                             else g.player.sprite)
      && r.player.x == g.player.x && r.player.y == g.player.y
      && r.player.lastDir == g.player.lastDir && r.player.health == g.player.health
  {
    if !g.player.animation && Held(input, KeySpace) then
      var p := g.player.(animation := true, frameNum := 0, frameDur := 0,
                         weapon := g.player.weapon.(frameNum := 0, wielder := WieldedByPlayer, isAttacking := true));
      var p := if IsArrow(p.lastDir) then p.(sprite := SpriteNamed(g.sprites, "linkAttack" + Compass(p.lastDir))) else p;
      g.(player := p)
    else
      g
  }

  /** UpdatePlayer: the clock, the four arrows in order, idling, attacking. */
  function UpdatePlayer(g: Game, input: Input): (r: Game)
    ensures r == g.(player := r.player, enemyCollision := r.enemyCollision)
    ensures r.player.health == g.player.health
    // Opposite arrows can cancel, but the player never moves more than a pixel per axis.
    ensures AbsDiff(r.player.x, g.player.x) <= 1 && AbsDiff(r.player.y, g.player.y) <= 1
    // Once an attack animation runs, only an animation end can stop it.
    ensures g.player.animation && !Animate(g.player).animEnd ==> r.player.animation
    // An attack starts only from rest with Space held.
    ensures !g.player.animation && r.player.animation ==> Held(input, KeySpace)
    ensures r.enemyCollision != g.enemyCollision ==> r.enemyCollision.Some? && r.enemyCollision.value in g.enemies
  {
    var a := Animate(g.player);
    var g1 := g.(player := a.player);
    var g2 := MoveAxis(g1, input, KeyLeft, a.animEnd);
    var g3 := MoveAxis(g2, input, KeyRight, a.animEnd);
    var g4 := MoveAxis(g3, input, KeyUp, a.animEnd);
    var g5 := MoveAxis(g4, input, KeyDown, a.animEnd);
    Attack(Stand(g5, input), input)
  }
}
