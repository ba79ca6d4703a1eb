/** One tick of the game loop (Game.Update in main.go): the interaction runs
    first; while a character is the interaction target the rest of the world
    stands still, otherwise the player, the enemies, the projectiles and the
    damage are updated in that order. Characters have no per-frame update. */
module Frame {
  import opened Util
  import opened Entities
  import opened Keys
  import opened Dialogue
  import opened Interaction
  import opened PlayerUpdate
  import opened EnemyBehavior
  import opened Projectiles

  /** What holds between frames: the collision records were consumed by the
      last damage step, the target names a character, and every character's
      dialogue data is well formed. */
  predicate Consistent(g: Game)
  {
    && g.projectileCollision.None?
    && g.enemyCollision.None?
    && (g.target.Some? ==> g.target.value < |g.characters|)
    && forall i :: 0 <= i < |g.characters| ==> WellFormed(g.characters[i])
  }

  /** A consistent game never makes the interaction step dereference nil. */
  lemma ConsistentIsReady(g: Game, input: Input)
    requires Consistent(g)
    ensures TargetReady(g, input)
  {
    if g.target.Some? {
      WellFormedIsReady(g.characters[g.target.value]);
    }
  }

  /** The world step after the interaction, on a game without a target. */
  function Simulate(g: Game, input: Input): (r: Game)
    requires g.projectileCollision.None?
    ensures r == g.(player := r.player, enemies := r.enemies, projectiles := r.projectiles,
                    enemyCollision := r.enemyCollision, projectileCollision := r.projectileCollision)
    ensures r.projectileCollision.None? && r.enemyCollision.None?
    ensures |r.enemies| == |g.enemies|
    ensures g.player.health - 1 <= r.player.health <= g.player.health
    ensures AbsDiff(r.player.x, g.player.x) <= 1 && AbsDiff(r.player.y, g.player.y) <= 1
  {
    var g1 := UpdatePlayer(g, input);
    var g2 := UpdateEnemies(g1);
    var g3 := UpdateProjectiles(g2);
    UpdateDamage(g3)
  }

  function Update(g: Game, input: Input): (r: Game)
    requires Consistent(g)
    ensures Consistent(r)
    ensures r.doodads == g.doodads && r.tiles == g.tiles && r.sprites == g.sprites
    ensures |r.characters| == |g.characters| && |r.enemies| == |g.enemies|
    // At most one point of damage per frame, and at most a pixel of movement per axis.
    ensures g.player.health - 1 <= r.player.health <= g.player.health
    ensures AbsDiff(r.player.x, g.player.x) <= 1 && AbsDiff(r.player.y, g.player.y) <= 1
    // While a conversation holds the player, nothing else in the world moves.
    ensures r.target.Some? ==>
      && r.player.x == g.player.x && r.player.y == g.player.y && r.player.health == g.player.health
      && r.enemies == g.enemies && r.projectiles == g.projectiles
    // The characters change only through the interaction, and only the target's dialogue.
    ensures g.target.None? ==> r.characters == g.characters
    ensures g.target.Some? ==>
      forall j :: 0 <= j < |g.characters| && j != g.target.value ==> r.characters[j] == g.characters[j]
  {
    ConsistentIsReady(g, input);
    var g1 := UpdateInteraction(g, input);
    assert forall i :: 0 <= i < |g1.characters| ==> WellFormed(g1.characters[i]) by {
      if g.target.Some? {
        var t := g.target.value;
        assert g1.characters[t] == Converse(g.characters[t], input).character;
      }
    }
    if g1.target.Some? then g1
    else Simulate(g1, input)
  }

  /** A frame that starts without a conversation and does not start one lets
      the world move: the step is exactly the player, enemy, projectile and
      damage updates on the unchanged game. */
  lemma NoConversationRunsTheWorld(g: Game, input: Input)
    requires Consistent(g) && g.target.None? && !MayStart(g, input)
    ensures Update(g, input) == Simulate(g, input)
  {
    ConsistentIsReady(g, input);
  }

  /** A frame that starts inside a conversation which continues advances only the dialogue. */
  lemma ConversationFreezesTheWorld(g: Game, input: Input)
    requires Consistent(g) && g.target.Some?
    requires Converse(g.characters[g.target.value], input).continues
    ensures Update(g, input).target == g.target
    ensures Update(g, input) == g.(characters := Update(g, input).characters)
  {
    ConsistentIsReady(g, input);
  }
}
