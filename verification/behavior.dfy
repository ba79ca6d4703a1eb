/** Enemy behaviour (behavior.go): an enemy holds an attack for `pause` calls,
    then re-evaluates against the player's hitbox: fire along a shared hitbox
    edge, otherwise take a one-pixel step toward the player. */
module EnemyBehavior {
  import opened Util
  import opened Geometry
  import opened Entities
  import opened Collider

  const AttackCommands: seq<string> := ["attack_west", "attack_east", "attack_north", "attack_south"]

  /** The enemy after one call, and the projectile it appended, if any. */
  datatype Step = Step(enemy: Enemy, spawned: Option<Projectile>)

  /** The current command is an attack that has not yet been held `pause` times. */
  predicate Holding(e: Enemy)
  {
    Contains(AttackCommands, e.behavior.command) && e.behavior.paused < e.behavior.pause
  }

  /** The projectile an enemy appends: at its position, first frame, with
      `Speed` and `IsEnemy` left at their zero values. */
  function Fireball(sprites: map<string, Sprite>, e: Enemy, spriteName: string, dir: Key): Projectile
  {
    Projectile(e.x, e.y, SpriteNamed(sprites, spriteName), 0, 0, dir, false)
  }

  function Attack(sprites: map<string, Sprite>, e: Enemy, command: string, spriteName: string,
                  fireballName: string, dir: Key): Step
  {
    Step(e.(behavior := e.behavior.(command := command), sprite := SpriteNamed(sprites, spriteName)),
         Some(Fireball(sprites, e, fireballName, dir)))
  }

  function Walk(sprites: map<string, Sprite>, e: Enemy, command: string, spriteName: string,
                dx: int, dy: int): Step
  {
    Step(e.(behavior := e.behavior.(command := command), sprite := SpriteNamed(sprites, spriteName),
            x := e.x + dx, y := e.y + dy),
         None)
  }

  /** `r` fires: position kept, command and sprite switched, one projectile
      spawned at the enemy's position travelling in `dir`. */
  predicate Fires(sprites: map<string, Sprite>, e: Enemy, r: Step, command: string,
                  spriteName: string, fireballName: string, dir: Key)
  {
    && r.enemy.x == e.x && r.enemy.y == e.y
    && r.enemy.behavior.command == command
    && r.enemy.sprite == SpriteNamed(sprites, spriteName)
    && r.spawned.Some?
    && r.spawned.value.x == e.x && r.spawned.value.y == e.y
    && r.spawned.value.dir == dir
    && r.spawned.value.sprite == SpriteNamed(sprites, fireballName)
    && r.spawned.value.frameNum == 0
    && r.spawned.value.speed == 0 && !r.spawned.value.isEnemy
  }

  /** `r` walks: command and sprite switched to the walk, one pixel moved by
      (`dx`, `dy`), nothing spawned. */
  predicate Walks(sprites: map<string, Sprite>, e: Enemy, r: Step, command: string,
                  spriteName: string, dx: int, dy: int)
  {
    && r.spawned.None?
    && r.enemy.x == e.x + dx && r.enemy.y == e.y + dy
    && r.enemy.behavior.command == command
    && r.enemy.sprite == SpriteNamed(sprites, spriteName)
  }

  /** One call of AdvanceBehavior for enemy `e` against `player`. */
  function AdvanceBehavior(player: Player, sprites: map<string, Sprite>, e: Enemy): (r: Step)
    // Holding an attack: only the pause counter moves.
    ensures Holding(e) ==>
      && r.spawned.None?
      && r.enemy.behavior.paused == e.behavior.paused + 1
      && r.enemy.(behavior := e.behavior) == e
      && r.enemy.behavior.(paused := e.behavior.paused) == e.behavior
    ensures !Holding(e) ==> r.enemy.behavior.paused == 0
    ensures r.enemy.behavior.pause == e.behavior.pause && r.enemy.behavior.key == e.behavior.key
    ensures r.enemy.animation == e.animation && r.enemy.lastDir == e.lastDir && r.enemy.frameNum == e.frameNum
    // Aligned on the hitbox's left edge: fire south or north toward the player.
    ensures var pr := PlayerHitbox(player, 0, 0); var er := EnemyHitbox(e, 0, 0);
      !Holding(e) && er.min.x == pr.min.x && er.min.y < pr.min.y ==>
        Fires(sprites, e, r, "attack_south", "skeletonWizardAttackSouth", "fireballSouth", KeyDown)
    ensures var pr := PlayerHitbox(player, 0, 0); var er := EnemyHitbox(e, 0, 0);
      !Holding(e) && er.min.x == pr.min.x && er.min.y > pr.min.y ==>
        Fires(sprites, e, r, "attack_north", "skeletonWizardAttackNorth", "fireballNorth", KeyUp)
    // Aligned on the hitbox's top edge only: fire east or west toward the player.
    ensures var pr := PlayerHitbox(player, 0, 0); var er := EnemyHitbox(e, 0, 0);
      !Holding(e) && er.min.x < pr.min.x && er.min.y == pr.min.y ==>
        Fires(sprites, e, r, "attack_east", "skeletonWizardAttackEast", "fireballEast", KeyRight)
    ensures var pr := PlayerHitbox(player, 0, 0); var er := EnemyHitbox(e, 0, 0);
      !Holding(e) && er.min.x > pr.min.x && er.min.y == pr.min.y ==>
        Fires(sprites, e, r, "attack_west", "skeletonWizardAttackWest", "fireballWest", KeyLeft)
    // Both edges equal: nothing but the pause reset.
    ensures var pr := PlayerHitbox(player, 0, 0); var er := EnemyHitbox(e, 0, 0);
      !Holding(e) && er.min == pr.min ==>
        r.spawned.None? && r.enemy.(behavior := e.behavior) == e && r.enemy.behavior.command == e.behavior.command
    // Not aligned: one pixel toward the player on the axis with the smaller difference (ties go vertical).
    ensures var pr := PlayerHitbox(player, 0, 0); var er := EnemyHitbox(e, 0, 0);
      !Holding(e) && er.min.x != pr.min.x && er.min.y != pr.min.y ==>
        && (AbsDiff(er.min.x, pr.min.x) < AbsDiff(er.min.y, pr.min.y) ==>
              if er.min.x < pr.min.x then Walks(sprites, e, r, "walk_east", "skeletonWizardWalkEast", 1, 0)
              else Walks(sprites, e, r, "walk_west", "skeletonWizardWalkWest", -1, 0))
        && (AbsDiff(er.min.x, pr.min.x) >= AbsDiff(er.min.y, pr.min.y) ==>
              if er.min.y < pr.min.y then Walks(sprites, e, r, "walk_south", "skeletonWizardWalkSouth", 0, 1)
              else Walks(sprites, e, r, "walk_north", "skeletonWizardWalkNorth", 0, -1))
  {
    if Holding(e) then
      Step(e.(behavior := e.behavior.(paused := e.behavior.paused + 1)), None)
    else
      var e := e.(behavior := e.behavior.(paused := 0));
      var pr := PlayerHitbox(player, 0, 0);
      var er := EnemyHitbox(e, 0, 0);
      if er.min.x == pr.min.x then
        if er.min.y < pr.min.y then
          Attack(sprites, e, "attack_south", "skeletonWizardAttackSouth", "fireballSouth", KeyDown)
        else if er.min.y > pr.min.y then
          Attack(sprites, e, "attack_north", "skeletonWizardAttackNorth", "fireballNorth", KeyUp)
        else
          Step(e, None)
      else if er.min.y == pr.min.y then
        if er.min.x < pr.min.x then
          Attack(sprites, e, "attack_east", "skeletonWizardAttackEast", "fireballEast", KeyRight)
        else
          Attack(sprites, e, "attack_west", "skeletonWizardAttackWest", "fireballWest", KeyLeft)
      else
        var xDiff := AbsDiff(er.min.x, pr.min.x);
        var yDiff := AbsDiff(er.min.y, pr.min.y);
        if xDiff < yDiff then
          if er.min.x < pr.min.x then
            Walk(sprites, e, "walk_east", "skeletonWizardWalkEast", 1, 0)
          else
            Walk(sprites, e, "walk_west", "skeletonWizardWalkWest", -1, 0)
        else
          if er.min.y < pr.min.y then
            Walk(sprites, e, "walk_south", "skeletonWizardWalkSouth", 0, 1)
          else
            Walk(sprites, e, "walk_north", "skeletonWizardWalkNorth", 0, -1)
  }

  /** A step closes the gap: measured with the same sprite, the stepped axis's
      hitbox distance to the player shrinks by exactly one and the other is kept. */
  lemma PursuitStepClosesGap(player: Player, sprites: map<string, Sprite>, e: Enemy)
    requires !Holding(e)
    requires EnemyHitbox(e, 0, 0).min.x != PlayerHitbox(player, 0, 0).min.x
    requires EnemyHitbox(e, 0, 0).min.y != PlayerHitbox(player, 0, 0).min.y
    ensures var pr := PlayerHitbox(player, 0, 0);
      var er := EnemyHitbox(e, 0, 0);
      var moved := EnemyHitbox(e.(x := AdvanceBehavior(player, sprites, e).enemy.x,
                                  y := AdvanceBehavior(player, sprites, e).enemy.y), 0, 0);
      AbsDiff(moved.min.x, pr.min.x) + AbsDiff(moved.min.y, pr.min.y)
        == AbsDiff(er.min.x, pr.min.x) + AbsDiff(er.min.y, pr.min.y) - 1
  {
    var r := AdvanceBehavior(player, sprites, e);
    var pr, er := PlayerHitbox(player, 0, 0), EnemyHitbox(e, 0, 0);
    var dx, dy := r.enemy.x - e.x, r.enemy.y - e.y;
    StepAxis(player, sprites, e);
    FeetBoxTranslates(e.x, e.y, e.sprite.frameWidth, Half(e.sprite.frameHeight), dx, dy);
    var moved := EnemyHitbox(e.(x := r.enemy.x, y := r.enemy.y), 0, 0);
    assert moved.min == Point(er.min.x + dx, er.min.y + dy);
    GapShrinks(er.min, pr.min, dx, dy);
  }

  /** The unaligned step moves one pixel toward the player on the axis the
      step rule picks and leaves the other coordinate alone. */
  lemma StepAxis(player: Player, sprites: map<string, Sprite>, e: Enemy)
    requires !Holding(e)
    requires EnemyHitbox(e, 0, 0).min.x != PlayerHitbox(player, 0, 0).min.x
    requires EnemyHitbox(e, 0, 0).min.y != PlayerHitbox(player, 0, 0).min.y
    ensures var r := AdvanceBehavior(player, sprites, e);
      var pr, er := PlayerHitbox(player, 0, 0).min, EnemyHitbox(e, 0, 0).min;
      && (AbsDiff(er.x, pr.x) < AbsDiff(er.y, pr.y) ==>
            r.enemy.y == e.y && r.enemy.x == e.x + (if er.x < pr.x then 1 else -1))
      && (AbsDiff(er.x, pr.x) >= AbsDiff(er.y, pr.y) ==>
            r.enemy.x == e.x && r.enemy.y == e.y + (if er.y < pr.y then 1 else -1))
  {
  }

  /** Moving one pixel toward the target along the axis the step rule picks
      shortens the taxicab distance by one. */
  lemma GapShrinks(a: Point, b: Point, dx: int, dy: int)
    requires a.x != b.x && a.y != b.y
    requires AbsDiff(a.x, b.x) < AbsDiff(a.y, b.y) ==> dy == 0 && dx == (if a.x < b.x then 1 else -1)
    requires AbsDiff(a.x, b.x) >= AbsDiff(a.y, b.y) ==> dx == 0 && dy == (if a.y < b.y then 1 else -1)
    ensures AbsDiff(a.x + dx, b.x) + AbsDiff(a.y + dy, b.y) == AbsDiff(a.x, b.x) + AbsDiff(a.y, b.y) - 1
  {
  }

  /** `n` successive calls. */
  function Repeat(player: Player, sprites: map<string, Sprite>, e: Enemy, n: nat): Enemy
    decreases n
  {
    if n == 0 then e else Repeat(player, sprites, AdvanceBehavior(player, sprites, e).enemy, n - 1)
  }

  /** An attack with `paused` calls behind it is held for the remaining
      `pause - paused` calls: each only advances the counter. */
  lemma {:induction false} AttackHeldForPause(player: Player, sprites: map<string, Sprite>, e: Enemy, n: nat)
    requires e.behavior.command in AttackCommands
    requires e.behavior.paused + n <= e.behavior.pause
    ensures Repeat(player, sprites, e, n) == e.(behavior := e.behavior.(paused := e.behavior.paused + n))
    decreases n
  {
    if n > 0 {
      var e' := AdvanceBehavior(player, sprites, e).enemy;
      assert Holding(e);
      assert e' == e.(behavior := e.behavior.(paused := e.behavior.paused + 1));
      AttackHeldForPause(player, sprites, e', n - 1);
    }
  }

  /** The enemies after UpdateEnemies, and the projectiles they appended in order. */
  datatype Pass = Pass(enemies: seq<Enemy>, projectiles: seq<Projectile>)

  /** The step each enemy of `es` takes this frame, all against the same player. */
  function Steps(player: Player, sprites: map<string, Sprite>, es: seq<Enemy>): (r: seq<Step>)
    ensures |r| == |es| && forall i :: 0 <= i < |es| ==> r[i] == AdvanceBehavior(player, sprites, es[i])
  {
    seq(|es|, i requires 0 <= i < |es| => AdvanceBehavior(player, sprites, es[i]))
  }

  /** The projectiles a run of steps spawns, in step order. */
  function Spawned(steps: seq<Step>): (r: seq<Projectile>)
    ensures |r| <= |steps|
    ensures forall q :: q in r ==> exists i :: 0 <= i < |steps| && steps[i].spawned == Some(q)
    decreases |steps|
  {
    if |steps| == 0 then []
    else
      var n := |steps| - 1;
      var rest := Spawned(steps[..n]);
      assert forall i :: 0 <= i < n ==> steps[..n][i] == steps[i];
      rest + (if steps[n].spawned.Some? then [steps[n].spawned.value] else [])
  }

  /** The loop of UpdateEnemies over precomputed steps: each enemy is
      replaced by its stepped self and its projectile, if any, is appended. */
  function Gather(steps: seq<Step>, ps: seq<Projectile>): (r: Pass)
    ensures |r.enemies| == |steps|
    ensures forall i :: 0 <= i < |steps| ==> r.enemies[i] == steps[i].enemy
    ensures r.projectiles == ps + Spawned(steps)
    decreases |steps|
  {
    if |steps| == 0 then Pass([], ps)
    else
      var n := |steps| - 1;
      var rest := Gather(steps[..n], ps);
      var added := if steps[n].spawned.Some? then [steps[n].spawned.value] else [];
      assert Spawned(steps) == Spawned(steps[..n]) + added;
      assert forall i :: 0 <= i < n ==> steps[..n][i] == steps[i];
      Pass(rest.enemies + [steps[n].enemy], rest.projectiles + added)
  }

  /** The projectiles the enemies of `es` append, in enemy order. */
  function Spawns(player: Player, sprites: map<string, Sprite>, es: seq<Enemy>): (r: seq<Projectile>)
    ensures |r| <= |es|
    ensures forall q :: q in r ==> exists e :: e in es && AdvanceBehavior(player, sprites, e).spawned == Some(q)
  {
    var steps := Steps(player, sprites, es);
    var r := Spawned(steps);
    assert forall q :: q in r ==> exists e :: e in es && AdvanceBehavior(player, sprites, e).spawned == Some(q) by {
      forall q | q in r
        ensures exists e :: e in es && AdvanceBehavior(player, sprites, e).spawned == Some(q)
      {
        var i :| 0 <= i < |steps| && steps[i].spawned == Some(q);
        assert es[i] in es;
      }
    }
    r
  }

  /** Every enemy of `es` advances once, in order, appending to `ps`. */
  function AdvanceAll(player: Player, sprites: map<string, Sprite>, es: seq<Enemy>, ps: seq<Projectile>): (r: Pass)
    ensures |r.enemies| == |es|
    ensures forall i :: 0 <= i < |es| ==> r.enemies[i] == AdvanceBehavior(player, sprites, es[i]).enemy
    ensures r.projectiles == ps + Spawns(player, sprites, es)
  {
    Gather(Steps(player, sprites, es), ps)
  }

  /** UpdateEnemies: every enemy advances once against the same player; the
      projectile list only grows, by at most one per enemy. */
  function UpdateEnemies(g: Game): (r: Game)
    ensures r == g.(enemies := r.enemies, projectiles := r.projectiles)
    ensures |r.enemies| == |g.enemies|
    ensures forall i :: 0 <= i < |g.enemies| ==> r.enemies[i] == AdvanceBehavior(g.player, g.sprites, g.enemies[i]).enemy
    ensures g.projectiles <= r.projectiles && |r.projectiles| <= |g.projectiles| + |g.enemies|
    ensures forall q :: q in r.projectiles[|g.projectiles|..] ==>
      exists e :: e in g.enemies && AdvanceBehavior(g.player, g.sprites, e).spawned == Some(q)
  {
    var pass := AdvanceAll(g.player, g.sprites, g.enemies, g.projectiles);
    g.(enemies := pass.enemies, projectiles := pass.projectiles)
  }
}
