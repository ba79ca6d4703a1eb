/** The game's records (main.go): player, non-player characters with their
    dialogue graphs, enemies, weapon, projectiles, doodads, tiles, the per-frame
    keyboard state, and the `Game` aggregate the update steps thread through. */
module Entities {
  import opened Geometry

  datatype Option<T> = None | Some(value: T)

  /** The keys the simulation reads; every other key is `KeyOther`. */
  datatype Key = KeyLeft | KeyRight | KeyUp | KeyDown | KeyEnter | KeySpace | KeyOther

  predicate IsArrow(k: Key)
  {
    k == KeyLeft || k == KeyRight || k == KeyUp || k == KeyDown
  }

  /** Sprite metadata. `image` is an opaque handle to the loaded image (0 is nil). */
  datatype Sprite = Sprite(
    frameWidth: int,
    frameHeight: int,
    frameLen: int,
    frameDur: int,
    handles: seq<Point>,
    image: nat)

  /** The zero Sprite a Go map read yields for a missing name. */
  const NoSprite := Sprite(0, 0, 0, 0, [], 0)

  /** `g.Sprites[name]`: the sprite stored under `name`, or the zero sprite. */
  function SpriteNamed(sprites: map<string, Sprite>, name: string): Sprite
  {
    if name in sprites then sprites[name] else NoSprite
  }

  /** The weapon's back-reference to whoever holds it. */
  datatype Wielder = NoWielder | WieldedByPlayer

  datatype Weapon = Weapon(sprite: Sprite, frameNum: int, wielder: Wielder, isAttacking: bool)

  datatype Player = Player(
    x: int,
    y: int,
    animation: bool,
    lastDir: Key,
    sprite: Sprite,
    frameNum: int,
    frameDur: int,
    health: int,
    weapon: Weapon)

  /** `runeNum` counts revealed characters of `phrase`; each option is a
      [label, target key] pair. */
  datatype DialogueNode = DialogueNode(
    phrase: string,
    options: seq<seq<string>>,
    runeNum: int,
    optionNum: int,
    end: bool)

  datatype DialogueGraph = DialogueGraph(
    nodes: map<string, DialogueNode>,
    edges: map<string, seq<string>>,
    nodeKey: string,
    rootKey: string)

  datatype Character = Character(
    x: int,
    y: int,
    animation: bool,
    lastDir: Key,
    sprite: Sprite,
    frameNum: int,
    graphs: map<string, DialogueGraph>,
    dialogueKey: string)

  datatype Behavior = Behavior(command: string, key: Key, pause: int, paused: int)

  datatype Enemy = Enemy(
    x: int,
    y: int,
    animation: bool,
    lastDir: Key,
    sprite: Sprite,
    frameNum: int,
    behavior: Behavior)

  datatype Projectile = Projectile(
    x: int,
    y: int,
    sprite: Sprite,
    frameNum: int,
    speed: int,
    dir: Key,
    isEnemy: bool)

  datatype Doodad = Doodad(x: int, y: int, sprite: Sprite, frameNum: int)

  datatype Tile = Tile(x: int, y: int, sprite: Sprite, frameNum: int, collider: bool)

  /** One frame's keyboard state: held keys, keys pressed and released this
      frame, and how many frames each key has been held. */
  datatype Input = Input(
    held: set<Key>,
    pressed: set<Key>,
    released: set<Key>,
    durations: map<Key, nat>)

  /** The world. `target` is the index of the character in a dialogue,
      `enemyCollision` a copy of the enemy the player bumped into, and
      `projectileCollision` the slot of the projectile that hit the player. */
  datatype Game = Game(
    player: Player,
    characters: seq<Character>,
    enemies: seq<Enemy>,
    projectiles: seq<Projectile>,
    doodads: seq<Doodad>,
    tiles: seq<Tile>,
    sprites: map<string, Sprite>,
    target: Option<nat>,
    enemyCollision: Option<Enemy>,
    projectileCollision: Option<nat>)
}
