/** Hitboxes (collider.go). Every box is anchored at the entity's "feet": its
    width is the sprite's frame width centred on x, its bottom edge sits on y,
    and it reaches up half the frame height (player, characters, enemies,
    doodads) or the full frame height (collider tiles, projectiles). `dx`, `dy`
    probe a hypothetical position without moving the entity. */
module Collider {
  import opened Util
  import opened Geometry
  import opened Entities

  /** The box spanning x + dx ± width/2 horizontally and `lift` pixels above y + dy. */
  function FeetBox(x: int, y: int, width: int, lift: int, dx: int, dy: int): (r: Rect)
    ensures width >= 0 ==> r.min.x == x + dx - width / 2 && r.max.x == x + dx + width / 2
    ensures lift >= 0 ==> r.max.y == y + dy && r.min.y == y + dy - lift
  {
    MakeRect(x + dx - Half(width), y + dy - lift, x + dx + Half(width), y + dy)
  }

  /** The probed box is the box at the origin, translated. */
  lemma FeetBoxTranslates(x: int, y: int, width: int, lift: int, dx: int, dy: int)
    ensures FeetBox(x, y, width, lift, dx, dy) == Translate(FeetBox(x, y, width, lift, 0, 0), dx, dy)
    ensures FeetBox(x, y, width, lift, dx, dy) == FeetBox(x + dx, y + dy, width, lift, 0, 0)
  {
  }

  predicate WellSized(s: Sprite)
  {
    s.frameWidth >= 0 && s.frameHeight >= 0
  }

  function PlayerHitbox(p: Player, dx: int, dy: int): (r: Rect)
    ensures WellSized(p.sprite) ==> r.max.y == p.y + dy && Dy(r) == p.sprite.frameHeight / 2
    ensures WellSized(p.sprite) ==> r.min.x == p.x + dx - p.sprite.frameWidth / 2
    ensures WellSized(p.sprite) ==> r.max.x == p.x + dx + p.sprite.frameWidth / 2
  {
    FeetBox(p.x, p.y, p.sprite.frameWidth, Half(p.sprite.frameHeight), dx, dy)
  }

  function CharacterHitbox(c: Character, dx: int, dy: int): (r: Rect)
    ensures WellSized(c.sprite) ==> r.max.y == c.y + dy && Dy(r) == c.sprite.frameHeight / 2
    ensures WellSized(c.sprite) ==> r.min.x == c.x + dx - c.sprite.frameWidth / 2
    ensures WellSized(c.sprite) ==> r.max.x == c.x + dx + c.sprite.frameWidth / 2
  {
    FeetBox(c.x, c.y, c.sprite.frameWidth, Half(c.sprite.frameHeight), dx, dy)
  }

  function EnemyHitbox(e: Enemy, dx: int, dy: int): (r: Rect)
    ensures WellSized(e.sprite) ==> r.max.y == e.y + dy && Dy(r) == e.sprite.frameHeight / 2
    ensures WellSized(e.sprite) ==> r.min.x == e.x + dx - e.sprite.frameWidth / 2
    ensures WellSized(e.sprite) ==> r.max.x == e.x + dx + e.sprite.frameWidth / 2
  {
    FeetBox(e.x, e.y, e.sprite.frameWidth, Half(e.sprite.frameHeight), dx, dy)
  }

  function DoodadHitbox(d: Doodad, dx: int, dy: int): (r: Rect)
    ensures WellSized(d.sprite) ==> r.max.y == d.y + dy && Dy(r) == d.sprite.frameHeight / 2
    ensures WellSized(d.sprite) ==> r.min.x == d.x + dx - d.sprite.frameWidth / 2
    ensures WellSized(d.sprite) ==> r.max.x == d.x + dx + d.sprite.frameWidth / 2
  {
    FeetBox(d.x, d.y, d.sprite.frameWidth, Half(d.sprite.frameHeight), dx, dy)
  }

  /** A collider tile blocks its full frame; any other tile has the zero rectangle. */
  function TileHitbox(t: Tile, dx: int, dy: int): (r: Rect)
    ensures !t.collider ==> Empty(r)
    ensures t.collider && WellSized(t.sprite) ==> r.max.y == t.y + dy && Dy(r) == t.sprite.frameHeight
    ensures t.collider && WellSized(t.sprite) ==> r.min.x == t.x + dx - t.sprite.frameWidth / 2
    ensures t.collider && WellSized(t.sprite) ==> r.max.x == t.x + dx + t.sprite.frameWidth / 2
  {
    if t.collider then FeetBox(t.x, t.y, t.sprite.frameWidth, t.sprite.frameHeight, dx, dy)
    else ZeroRect
  }

  function ProjectileHitbox(p: Projectile, dx: int, dy: int): (r: Rect)
    ensures WellSized(p.sprite) ==> r.max.y == p.y + dy && Dy(r) == p.sprite.frameHeight
    ensures WellSized(p.sprite) ==> r.min.x == p.x + dx - p.sprite.frameWidth / 2
    ensures WellSized(p.sprite) ==> r.max.x == p.x + dx + p.sprite.frameWidth / 2
  {
    FeetBox(p.x, p.y, p.sprite.frameWidth, p.sprite.frameHeight, dx, dy)
  }

  // The hitboxes of a whole slice, in slice order, as the update loops scan them.

  function EnemyBoxes(es: seq<Enemy>): (r: seq<Rect>)
    ensures |r| == |es| && forall i :: 0 <= i < |es| ==> r[i] == EnemyHitbox(es[i], 0, 0)
  {
    seq(|es|, i requires 0 <= i < |es| => EnemyHitbox(es[i], 0, 0))
  }

  function TileBoxes(ts: seq<Tile>): (r: seq<Rect>)
    ensures |r| == |ts| && forall i :: 0 <= i < |ts| ==> r[i] == TileHitbox(ts[i], 0, 0)
  {
    seq(|ts|, i requires 0 <= i < |ts| => TileHitbox(ts[i], 0, 0))
  }

  function DoodadBoxes(ds: seq<Doodad>): (r: seq<Rect>)
    ensures |r| == |ds| && forall i :: 0 <= i < |ds| ==> r[i] == DoodadHitbox(ds[i], 0, 0)
  {
    seq(|ds|, i requires 0 <= i < |ds| => DoodadHitbox(ds[i], 0, 0))
  }

  function CharacterBoxes(cs: seq<Character>): (r: seq<Rect>)
    ensures |r| == |cs| && forall i :: 0 <= i < |cs| ==> r[i] == CharacterHitbox(cs[i], 0, 0)
  {
    seq(|cs|, i requires 0 <= i < |cs| => CharacterHitbox(cs[i], 0, 0))
  }

  /** Probing at (dx, dy) gives the box the entity would have after moving
      there, and the origin box translated; entities are values, so the probe
      leaves them as they were. A non-collider tile's box stays the zero box. */
  lemma HitboxesTranslate(p: Player, c: Character, e: Enemy, d: Doodad, t: Tile, q: Projectile, dx: int, dy: int)
    ensures PlayerHitbox(p, dx, dy) == Translate(PlayerHitbox(p, 0, 0), dx, dy)
    ensures PlayerHitbox(p, dx, dy) == PlayerHitbox(p.(x := p.x + dx, y := p.y + dy), 0, 0)
    ensures CharacterHitbox(c, dx, dy) == Translate(CharacterHitbox(c, 0, 0), dx, dy)
    ensures EnemyHitbox(e, dx, dy) == Translate(EnemyHitbox(e, 0, 0), dx, dy)
    ensures EnemyHitbox(e, dx, dy) == EnemyHitbox(e.(x := e.x + dx, y := e.y + dy), 0, 0)
    ensures DoodadHitbox(d, dx, dy) == Translate(DoodadHitbox(d, 0, 0), dx, dy)
    ensures t.collider ==> TileHitbox(t, dx, dy) == Translate(TileHitbox(t, 0, 0), dx, dy)
    ensures !t.collider ==> TileHitbox(t, dx, dy) == TileHitbox(t, 0, 0) == ZeroRect
    ensures ProjectileHitbox(q, dx, dy) == Translate(ProjectileHitbox(q, 0, 0), dx, dy)
  {
    FeetBoxTranslates(p.x, p.y, p.sprite.frameWidth, Half(p.sprite.frameHeight), dx, dy);
    FeetBoxTranslates(c.x, c.y, c.sprite.frameWidth, Half(c.sprite.frameHeight), dx, dy);
    FeetBoxTranslates(e.x, e.y, e.sprite.frameWidth, Half(e.sprite.frameHeight), dx, dy);
    FeetBoxTranslates(d.x, d.y, d.sprite.frameWidth, Half(d.sprite.frameHeight), dx, dy);
    FeetBoxTranslates(t.x, t.y, t.sprite.frameWidth, t.sprite.frameHeight, dx, dy);
    FeetBoxTranslates(q.x, q.y, q.sprite.frameWidth, q.sprite.frameHeight, dx, dy);
  }

  /** A box's horizontal span is symmetric about the anchor x, whatever the sprite. */
  lemma SpanIsSymmetric(x: int, y: int, width: int, lift: int, dx: int, dy: int)
    ensures var r := FeetBox(x, y, width, lift, dx, dy);
      (x + dx) - r.min.x == r.max.x - (x + dx)
  {
  }

  /** A non-collider tile overlaps nothing, so it can never block a move. */
  lemma NonColliderTileNeverOverlaps(t: Tile, r: Rect, dx: int, dy: int)
    requires !t.collider
    ensures !Overlaps(r, TileHitbox(t, dx, dy)) && !Overlaps(TileHitbox(t, dx, dy), r)
  {
  }
}
