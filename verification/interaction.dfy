/** Dialogue interaction (UpdateInteraction in update.go): while a character
    is the interaction target, every frame reveals one more character and the
    arrows and Enter drive its dialogue; otherwise releasing Enter next to a
    character starts an interaction with it. The target is the character's
    index in `Game.characters`. */
module Interaction {
  import opened Util
  import opened Geometry
  import opened Entities
  import opened Collider
  import opened Keys
  import opened Dialogue
  import opened PlayerUpdate

  /** The player box's edge on `side` lies within one pixel of the
      character box's opposite edge, and the midpoint of that edge falls
      inside the character box's span (bounds inclusive). */
  predicate Touches(pr: Rect, cr: Rect, side: Key)
  {
    var midX := pr.min.x + Half(Dx(pr));
    var midY := pr.min.y + Half(Dy(pr));
    match side
    case KeyRight => AbsDiff(pr.max.x, cr.min.x) <= 1 && cr.min.y <= midY <= cr.max.y
    case KeyDown => AbsDiff(pr.max.y, cr.min.y) <= 1 && cr.min.x <= midX <= cr.max.x
    case KeyLeft => AbsDiff(pr.min.x, cr.max.x) <= 1 && cr.min.y <= midY <= cr.max.y
    case KeyUp => AbsDiff(pr.min.y, cr.max.y) <= 1 && cr.min.x <= midX <= cr.max.x
    case _ => false
  }

  /** The side the player faces the character from, checking east, south,
      west and north in that order (update.go:29-50). */
  function FacingSide(pr: Rect, cr: Rect): (r: Option<Key>)
    ensures r.Some? ==> IsArrow(r.value) && Touches(pr, cr, r.value)
    ensures r.None? <==> forall side :: IsArrow(side) ==> !Touches(pr, cr, side)
    ensures r == Some(KeyDown) ==> !Touches(pr, cr, KeyRight)
    ensures r == Some(KeyLeft) ==> !Touches(pr, cr, KeyRight) && !Touches(pr, cr, KeyDown)
    ensures r == Some(KeyUp) ==> !Touches(pr, cr, KeyRight) && !Touches(pr, cr, KeyDown) && !Touches(pr, cr, KeyLeft)
  {
    if Touches(pr, cr, KeyRight) then Some(KeyRight)
    else if Touches(pr, cr, KeyDown) then Some(KeyDown)
    else if Touches(pr, cr, KeyLeft) then Some(KeyLeft)
    else if Touches(pr, cr, KeyUp) then Some(KeyUp)
    else None
  }

  /** One iteration of the start loop: if the player, as it stands now, faces
      character `i`, that character becomes the target and the player turns to it. */
  function Face(g: Game, i: nat): (r: Game)
    requires i < |g.characters|
    ensures r == g.(target := r.target, player := r.player)
    ensures r.player.(frameNum := g.player.frameNum, frameDur := g.player.frameDur, sprite := g.player.sprite) == g.player
    ensures var side := FacingSide(PlayerHitbox(g.player, 0, 0), CharacterHitbox(g.characters[i], 0, 0));
      && (side.None? ==> r == g)
      && (side.Some? ==> r.target == Some(i) && r.player.frameNum == 0 && r.player.frameDur == 0
                         && r.player.sprite == SpriteNamed(g.sprites, "linkStand" + Compass(side.value)))
  {
    match FacingSide(PlayerHitbox(g.player, 0, 0), CharacterHitbox(g.characters[i], 0, 0))
    case None => g
    case Some(side) =>
      g.(target := Some(i),
         player := g.player.(frameNum := 0, frameDur := 0, sprite := SpriteNamed(g.sprites, "linkStand" + Compass(side))))
  }

  /** The player, as it stands in `g`, faces character `j` from some side. */
  predicate Faces(g: Game, j: nat)
    requires j < |g.characters|
  {
    FacingSide(PlayerHitbox(g.player, 0, 0), CharacterHitbox(g.characters[j], 0, 0)).Some?
  }

  /** The player holds the stand sprite for one of the four sides. */
  predicate StandsFacing(sprites: map<string, Sprite>, p: Player)
  {
    exists side :: IsArrow(side) && p.sprite == SpriteNamed(sprites, "linkStand" + Compass(side))
  }

  /** The loop over the characters from index `i` on; a later match overrides an earlier one. */
  function StartFrom(g: Game, i: nat): (r: Game)
    ensures r == g.(target := r.target, player := r.player)
    ensures r.player.(frameNum := g.player.frameNum, frameDur := g.player.frameDur, sprite := g.player.sprite) == g.player
    // Any match leaves a target at or after `i` and a player with its frame
    // counters reset, turned to the side of the last match.
    ensures r.target != g.target || r.player != g.player ==>
      && r.target.Some? && i <= r.target.value < |g.characters|
      && r.player.frameNum == 0 && r.player.frameDur == 0
      && StandsFacing(g.sprites, r.player)
    // A target once set is never cleared by the loop.
    ensures g.target.Some? ==> r.target.Some?
    decreases |g.characters| - i
  {
    if i >= |g.characters| then g
    else
      var g1 := Face(g, i);
      var r := StartFrom(g1, i + 1);
      assert r.target != g.target || r.player != g.player ==> StandsFacing(g.sprites, r.player) by {
        if r.target != g1.target || r.player != g1.player {
          assert StandsFacing(g1.sprites, r.player);
        } else if g1 != g {
          var side := FacingSide(PlayerHitbox(g.player, 0, 0), CharacterHitbox(g.characters[i], 0, 0)).value;
          assert IsArrow(side) && r.player.sprite == SpriteNamed(g.sprites, "linkStand" + Compass(side));
        }
      }
      r
  }

  /** A start needs a character the player faces as it stood before the loop:
      until the first match the player is unchanged. */
  lemma {:induction false} StartNeedsFacing(g: Game, i: nat)
    requires g.target.None?
    ensures StartFrom(g, i).target.Some? ==> exists j :: i <= j < |g.characters| && Faces(g, j)
    decreases |g.characters| - i
  {
    if i < |g.characters| {
      if Faces(g, i) {
        assert i <= i < |g.characters| && Faces(g, i);
      } else {
        assert Face(g, i) == g;
        StartNeedsFacing(g, i + 1);
      }
    }
  }

  /** A character the player faces at or after `i` makes the loop set a target. */
  lemma {:induction false} FacingStarts(g: Game, i: nat, j: nat)
    requires i <= j < |g.characters| && Faces(g, j)
    ensures StartFrom(g, i).target.Some?
    decreases j - i
  {
    if Faces(g, i) {
      assert Face(g, i).target.Some?;
      assert StartFrom(g, i) == StartFrom(Face(g, i), i + 1);
    } else {
      assert Face(g, i) == g;
      FacingStarts(g, i + 1, j);
    }
  }

  /** If the player faces none of the characters, starting changes nothing. */
  lemma {:induction false} NoNeighbourNoInteraction(g: Game, i: nat)
    requires forall j :: i <= j < |g.characters| ==>
      FacingSide(PlayerHitbox(g.player, 0, 0), CharacterHitbox(g.characters[j], 0, 0)).None?
    ensures StartFrom(g, i) == g
    decreases |g.characters| - i
  {
    if i < |g.characters| {
      assert Face(g, i) == g;
      NoNeighbourNoInteraction(g, i + 1);
    }
  }

  /** A new interaction may start: no target, no attack animation, Enter just released. */
  predicate MayStart(g: Game, input: Input)
  {
    g.target.None? && !g.player.animation && JustReleased(input, KeyEnter)
  }

  /** What the source dereferences during an active interaction: the target
      character has its active graph and current node, and on Enter (when
      neither arrow was released) the selected option names a target. */
  predicate TargetReady(g: Game, input: Input)
  {
    g.target.Some? ==>
      && g.target.value < |g.characters|
      && Ready(g.characters[g.target.value])
      && (JustReleased(input, KeyEnter) && !JustReleased(input, KeyLeft) && !JustReleased(input, KeyRight) ==>
            SelectionValid(CurrentNode(g.characters[g.target.value])))
  }

  /** The dialogue step of an active interaction for character `c`; the flag
      says whether the interaction continues. */
  datatype Talk = Talk(character: Character, continues: bool)

  function Converse(c: Character, input: Input): (r: Talk)
    requires Ready(c)
    requires JustReleased(input, KeyEnter) && !JustReleased(input, KeyLeft) && !JustReleased(input, KeyRight) ==>
               SelectionValid(CurrentNode(c))
    // Left outranks Right, which outranks Enter; the reveal always advances first.
    ensures JustReleased(input, KeyLeft) ==> r == Talk(SelectOption(AdvanceRune(c), -1), true)
    ensures !JustReleased(input, KeyLeft) && JustReleased(input, KeyRight) ==>
      r == Talk(SelectOption(AdvanceRune(c), 1), true)
    ensures !JustReleased(input, KeyLeft) && !JustReleased(input, KeyRight) && JustReleased(input, KeyEnter) ==>
      r.character == AdvancePhrase(AdvanceRune(c))
    ensures !JustReleased(input, KeyLeft) && !JustReleased(input, KeyRight) && !JustReleased(input, KeyEnter) ==>
      r == Talk(AdvanceRune(c), true)
    // The interaction ends exactly when Enter confirms a node marked as the end.
    ensures !r.continues <==>
      !JustReleased(input, KeyLeft) && !JustReleased(input, KeyRight) && JustReleased(input, KeyEnter) && IsExhausted(c)
    ensures WellFormed(c) ==> WellFormed(r.character)
  {
    var c1 := AdvanceRune(c);
    if JustReleased(input, KeyLeft) then Talk(SelectOption(c1, -1), true)
    else if JustReleased(input, KeyRight) then Talk(SelectOption(c1, 1), true)
    else if JustReleased(input, KeyEnter) then
      assert CurrentNode(c1) == CurrentNode(c).(runeNum := CurrentNode(c1).runeNum);
      if IsExhausted(c1) then Talk(AdvancePhrase(c1), false)
      else Talk(AdvancePhrase(c1), true)
    else Talk(c1, true)
  }

  function UpdateInteraction(g: Game, input: Input): (r: Game)
    requires TargetReady(g, input)
    ensures r == g.(characters := r.characters, target := r.target, player := r.player)
    // During an interaction only the target character's dialogue changes.
    ensures g.target.Some? ==>
      var t := g.target.value;
      && r.player == g.player
      && |r.characters| == |g.characters|
      && (forall j :: 0 <= j < |g.characters| && j != t ==> r.characters[j] == g.characters[j])
      && r.characters[t] == Converse(g.characters[t], input).character
      && (r.target.None? <==> !Converse(g.characters[t], input).continues)
      && (r.target.Some? ==> r.target == g.target)
    // Without one, nothing happens unless a new interaction may start ...
    ensures g.target.None? && !MayStart(g, input) ==> r == g
    // ... and starting one touches only the target and the player's sprite and frame counters.
    ensures MayStart(g, input) ==>
      && r.characters == g.characters
      && r.player.(frameNum := g.player.frameNum, frameDur := g.player.frameDur, sprite := g.player.sprite) == g.player
      && (r.target.Some? ==> r.target.value < |g.characters| && r.player.frameNum == 0 && r.player.frameDur == 0
                             && StandsFacing(g.sprites, r.player))
  {
    match g.target
    case Some(t) =>
      var talk := Converse(g.characters[t], input);
      g.(characters := g.characters[t := talk.character], target := if talk.continues then g.target else None)
    case None =>
      if MayStart(g, input) then StartFrom(g, 0) else g
  }

  /** An interaction starts exactly when the player, as it stands when Enter
      is released, faces at least one character. */
  lemma StartsIffFacing(g: Game, input: Input)
    requires MayStart(g, input)
    ensures UpdateInteraction(g, input).target.Some? <==> exists j :: 0 <= j < |g.characters| && Faces(g, j)
  {
    StartNeedsFacing(g, 0);
    if exists j :: 0 <= j < |g.characters| && Faces(g, j) {
      var j :| 0 <= j < |g.characters| && Faces(g, j);
      FacingStarts(g, 0, j);
    }
  }
}
