/** Rendering (render.go): what part of its image each drawable shows, where
    it is drawn, and the key Draw sorts drawables by. Everything is drawn from
    its "feet": the image's bottom edge sits on y and it is centred on x, so
    the picture lines up with the hitbox. Tiles sort below every entity,
    ground tiles below collider tiles, and entities sort by y so that lower
    entities are drawn over higher ones. */
module Render {
  import opened Util
  import opened Geometry
  import opened Entities
  import opened Collider

  /** Go's `math.MinInt` for the 64-bit `int` of the supported platforms. */
  const MinInt: int := -0x8000_0000_0000_0000

  /** Everything Draw collects into its render list. */
  datatype Drawable =
    | PlayerTarget(player: Player)
    | CharacterTarget(character: Character)
    | EnemyTarget(enemy: Enemy)
    | DoodadTarget(doodad: Doodad)
    | TileTarget(tile: Tile)
    | ProjectileTarget(projectile: Projectile)

  function X(d: Drawable): int
  {
    match d
    case PlayerTarget(p) => p.x
    case CharacterTarget(c) => c.x
    case EnemyTarget(e) => e.x
    case DoodadTarget(o) => o.x
    case TileTarget(t) => t.x
    case ProjectileTarget(q) => q.x
  }

  function Y(d: Drawable): int
  {
    match d
    case PlayerTarget(p) => p.y
    case CharacterTarget(c) => c.y
    case EnemyTarget(e) => e.y
    case DoodadTarget(o) => o.y
    case TileTarget(t) => t.y
    case ProjectileTarget(q) => q.y
  }

  function SpriteOf(d: Drawable): Sprite
  {
    match d
    case PlayerTarget(p) => p.sprite
    case CharacterTarget(c) => c.sprite
    case EnemyTarget(e) => e.sprite
    case DoodadTarget(o) => o.sprite
    case TileTarget(t) => t.sprite
    case ProjectileTarget(q) => q.sprite
  }

  /** The collision box of the drawable, as collider.go defines it. */
  function BoxOf(d: Drawable): Rect
  {
    match d
    case PlayerTarget(p) => PlayerHitbox(p, 0, 0)
    case CharacterTarget(c) => CharacterHitbox(c, 0, 0)
    case EnemyTarget(e) => EnemyHitbox(e, 0, 0)
    case DoodadTarget(o) => DoodadHitbox(o, 0, 0)
    case TileTarget(t) => TileHitbox(t, 0, 0)
    case ProjectileTarget(q) => ProjectileHitbox(q, 0, 0)
  }

  // ---------------------------------------------------------------------------
  // Render order.

  /** The sort key: y for entities; tiles sit at the bottom of the int range,
      ground tiles at `MinInt` and collider tiles at `MinInt / 2`. */
  function RenderOrder(d: Drawable): (r: int)
    ensures !d.TileTarget? ==> r == Y(d)
    ensures d.TileTarget? && d.tile.collider ==> r == MinInt / 2
    ensures d.TileTarget? && !d.tile.collider ==> r == MinInt
  {
    match d
    case TileTarget(t) => if t.collider then Half(MinInt) else MinInt
    case _ => Y(d)
  }

  /** Both tile keys are exact: `MinInt / 2` truncates nothing. */
  lemma TileKeys()
    ensures MinInt / 2 == -0x4000_0000_0000_0000
    ensures MinInt < MinInt / 2
  {
  }

  /** A ground tile sorts strictly before a collider tile, and a tile strictly
      before any entity whose y exceeds `MinInt / 2`. */
  lemma TilesSortFirst(a: Drawable, b: Drawable)
    requires a.TileTarget?
    ensures b.TileTarget? && !a.tile.collider && b.tile.collider ==> RenderOrder(a) < RenderOrder(b)
    ensures !b.TileTarget? && Y(b) > MinInt / 2 ==> RenderOrder(a) < RenderOrder(b)
  {
  }

  /** Any two entities sort by y. */
  lemma EntitiesSortByY(a: Drawable, b: Drawable)
    requires !a.TileTarget? && !b.TileTarget?
    ensures RenderOrder(a) < RenderOrder(b) <==> Y(a) < Y(b)
  {
  }

  predicate SortedByOrder(ds: seq<Drawable>)
  {
    forall i, j :: 0 <= i < j < |ds| ==> RenderOrder(ds[i]) <= RenderOrder(ds[j])
  }

  /** In a list sorted by the key, as Draw sorts its render list, every tile
      comes before every entity whose y exceeds `MinInt / 2`, ground tiles come before
      collider tiles, and an entity higher up comes before a lower one. */
  lemma SortedLayers(ds: seq<Drawable>, i: int, j: int)
    requires SortedByOrder(ds) && 0 <= i < |ds| && 0 <= j < |ds|
    ensures ds[i].TileTarget? && !ds[j].TileTarget? && Y(ds[j]) > MinInt / 2 ==> i < j
    ensures ds[i].TileTarget? && ds[j].TileTarget? && !ds[i].tile.collider && ds[j].tile.collider ==> i < j
    ensures !ds[i].TileTarget? && !ds[j].TileTarget? && Y(ds[i]) < Y(ds[j]) ==> i < j
  {
    if j <= i {
      assert RenderOrder(ds[j]) <= RenderOrder(ds[i]) by {
        if j < i {
          assert RenderOrder(ds[j]) <= RenderOrder(ds[i]);
        }
      }
    }
  }

  // ---------------------------------------------------------------------------
  // Sprite frames.

  /** The part of the image a drawable shows. */
  datatype Region = WholeImage | SubImage(rect: Rect)

  /** Frame `f` of a strip of `w` by `h` frames separated by one-pixel columns. */
  function FrameRect(w: int, h: int, f: int): (r: Rect)
    ensures w >= 0 && h >= 0 && f >= 0 ==>
      r.min == Point(f * (w + 1), 0) && r.max == Point(f * (w + 1) + w, h)
  {
    MakeRect(w * f + f, 0, w * f + f + w, h)
  }

  /** The player and characters show their current frame; the others show the whole image. */
  function RenderSprite(d: Drawable): (r: Region)
    ensures d.PlayerTarget? || d.CharacterTarget? <==> r.SubImage?
    ensures d.PlayerTarget? ==>
      r.rect == FrameRect(d.player.sprite.frameWidth, d.player.sprite.frameHeight, d.player.frameNum)
    ensures d.CharacterTarget? ==>
      r.rect == FrameRect(d.character.sprite.frameWidth, d.character.sprite.frameHeight, d.character.frameNum)
  {
    match d
    case PlayerTarget(p) => SubImage(FrameRect(p.sprite.frameWidth, p.sprite.frameHeight, p.frameNum))
    case CharacterTarget(c) => SubImage(FrameRect(c.sprite.frameWidth, c.sprite.frameHeight, c.frameNum))
    case _ => WholeImage
  }

  /** A frame is exactly one frame wide and the full height. */
  lemma FrameSize(w: int, h: int, f: int)
    requires w >= 0 && h >= 0 && f >= 0
    ensures Dx(FrameRect(w, h, f)) == w && Dy(FrameRect(w, h, f)) == h
  {
  }

  /** The column at a frame's (exclusive) right edge is the one-pixel gap:
      the next frame starts just after it. */
  lemma FramesLeaveGap(w: int, h: int, f: int)
    requires w >= 0 && h >= 0 && f >= 0
    ensures FrameRect(w, h, f + 1).min.x == FrameRect(w, h, f).max.x + 1
  {
    assert (f + 1) * (w + 1) == f * (w + 1) + w + 1;
  }

  /** Distinct frames share no pixel. */
  lemma {:induction false} FramesDisjoint(w: int, h: int, f: int, g: int)
    requires w >= 0 && h >= 0 && 0 <= f < g
    ensures FrameRect(w, h, f).max.x < FrameRect(w, h, g).min.x
    ensures !Overlaps(FrameRect(w, h, f), FrameRect(w, h, g))
    decreases g - f
  {
    FramesLeaveGap(w, h, f);
    if f + 1 < g {
      FramesDisjoint(w, h, f + 1, g);
    }
  }

  // ---------------------------------------------------------------------------
  // Draw position.

  /** Where the image's top-left corner goes: half a frame left of x and a
      full frame above y (integer division truncating like Go's). */
  function DrawOffset(d: Drawable): (r: Point)
    ensures r.y + SpriteOf(d).frameHeight == Y(d)
    ensures r.x == X(d) - Half(SpriteOf(d).frameWidth)
    ensures SpriteOf(d).frameWidth >= 0 ==> 0 <= X(d) - r.x <= SpriteOf(d).frameWidth
  {
    var s := SpriteOf(d);
    Point(X(d) - Half(s.frameWidth), Y(d) - s.frameHeight)
  }

  /** The rectangle the drawn frame covers on screen. */
  function DrawnRect(d: Drawable): Rect
  {
    var o := DrawOffset(d);
    Rect(o, Point(o.x + SpriteOf(d).frameWidth, o.y + SpriteOf(d).frameHeight))
  }

  /** The drawn frame and the hitbox share their bottom and left edges; the
      frame is at most one column wider on the right (odd widths) and the
      hitbox never reaches above it. A ground tile has no hitbox to line up. */
  lemma DrawnFrameFitsHitbox(d: Drawable)
    requires WellSized(SpriteOf(d))
    requires d.TileTarget? ==> d.tile.collider
    ensures DrawnRect(d).max.y == BoxOf(d).max.y == Y(d)
    ensures DrawnRect(d).min.x == BoxOf(d).min.x
    ensures 0 <= DrawnRect(d).max.x - BoxOf(d).max.x <= 1
    ensures DrawnRect(d).min.y <= BoxOf(d).min.y
  {
  }
}
