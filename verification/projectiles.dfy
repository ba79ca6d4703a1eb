/** Projectiles (UpdateProjectiles and UpdateDamage in update.go). Each frame
    every projectile moves `speed` pixels along its direction and is then
    classified: culled when it left the play area, a hit on the player when
    it is an enemy projectile overlapping the player, or spent when it
    overlaps something it can hit (characters and doodads for enemy
    projectiles; enemies and doodads for the player's). Spent and culled
    projectiles leave the list; a hit is resolved by UpdateDamage.

    The source's batch removal is modelled twice: as written
    (`ScanAsWritten`, `RemoveAsWritten`, `UpdateProjectilesAsWritten`), with
    the inputs on which it goes wrong, and corrected (`Marked`,
    `RemoveFlagged`, `UpdateProjectiles`), which the frame update uses. */
module Projectiles {
  import opened Util
  import opened Geometry
  import opened Entities
  import opened Collider

  // ---------------------------------------------------------------------------
  // Movement and classification of one projectile.

  /** One frame of flight: `speed` pixels along `dir`; non-arrow directions do not move. */
  function Move(p: Projectile): (r: Projectile)
    ensures r.(x := p.x, y := p.y) == p
    ensures (p.dir == KeyLeft || p.dir == KeyRight) ==> r.y == p.y && AbsDiff(r.x, p.x) == AbsDiff(p.speed, 0)
    ensures (p.dir == KeyUp || p.dir == KeyDown) ==> r.x == p.x && AbsDiff(r.y, p.y) == AbsDiff(p.speed, 0)
    // The displacement is signed: a negative speed flies backwards.
    ensures p.dir == KeyLeft ==> r.x == p.x - p.speed
    ensures p.dir == KeyRight ==> r.x == p.x + p.speed
    ensures p.dir == KeyUp ==> r.y == p.y - p.speed
    ensures p.dir == KeyDown ==> r.y == p.y + p.speed
    ensures !IsArrow(p.dir) ==> r == p
  {
    match p.dir
    case KeyLeft => p.(x := p.x - p.speed)
    case KeyRight => p.(x := p.x + p.speed)
    case KeyUp => p.(y := p.y - p.speed)
    case KeyDown => p.(y := p.y + p.speed)
    case _ => p
  }

  /** The arrow pointing the other way; other keys are their own opposite. */
  function Reverse(k: Key): Key
  {
    match k
    case KeyLeft => KeyRight
    case KeyRight => KeyLeft
    case KeyUp => KeyDown
    case KeyDown => KeyUp
    case _ => k
  }

  /** A frame of flight is undone by a frame at the same speed the other way,
      and is the same as a frame the other way at the negated speed. */
  lemma MoveIsReversible(p: Projectile)
    ensures var back := Move(Move(p).(dir := Reverse(p.dir)));
      back.x == p.x && back.y == p.y
    ensures Move(p) == Move(p.(dir := Reverse(p.dir), speed := -p.speed)).(dir := p.dir, speed := p.speed)
  {
  }

  /** The fireballs enemies spawn keep the zero `Speed`, so they never move. */
  lemma SpawnedFireballsStayPut(p: Projectile)
    requires p.speed == 0
    ensures Move(p) == p
  {
  }

  /** Outside the play area: x in [-640, 1280] and y in [-480, 960] are kept. */
  predicate OutOfBounds(p: Projectile)
  {
    p.x < -640 || p.x > 1280 || p.y < -480 || p.y > 960
  }

  /** An enemy projectile inside the play area overlapping the player. */
  predicate HitsPlayer(g: Game, p: Projectile)
  {
    && !OutOfBounds(p)
    && p.isEnemy
    && Overlaps(ProjectileHitbox(p, 0, 0), PlayerHitbox(g.player, 0, 0))
  }

  predicate HitsAny(box: Rect, boxes: seq<Rect>)
  {
    exists j :: 0 <= j < |boxes| && Overlaps(box, boxes[j])
  }

  /** The projectile leaves the list this frame: culled, or spent on
      something it can hit. A hit on the player is not spent here. */
  predicate Marked(g: Game, p: Projectile)
  {
    var box := ProjectileHitbox(p, 0, 0);
    || OutOfBounds(p)
    || (p.isEnemy && !HitsPlayer(g, p) && (HitsAny(box, CharacterBoxes(g.characters)) || HitsAny(box, DoodadBoxes(g.doodads))))
    || (!p.isEnemy && (HitsAny(box, EnemyBoxes(g.enemies)) || HitsAny(box, DoodadBoxes(g.doodads))))
  }

  /** Boxes anchored at the same feet overlap once both are at least two
      pixels wide and have some height. */
  lemma SameFeetOverlap(q: Projectile, e: Enemy)
    requires q.x == e.x && q.y == e.y
    requires q.sprite.frameWidth >= 2 && q.sprite.frameHeight >= 1
    requires e.sprite.frameWidth >= 2 && e.sprite.frameHeight >= 2
    ensures Overlaps(ProjectileHitbox(q, 0, 0), EnemyHitbox(e, 0, 0))
  {
    var a := ProjectileHitbox(q, 0, 0);
    var b := EnemyHitbox(e, 0, 0);
    assert a.min.x < e.x < a.max.x && a.min.y < e.y == a.max.y;
    assert b.min.x < e.x < b.max.x && b.min.y < e.y == b.max.y;
  }

  /** A fireball as enemies spawn it (speed 0, not flagged as an enemy's)
      still sitting on an enemy is spent on that enemy in the very next
      projectile update: it never leaves its shooter. */
  lemma FireballOnItsEnemyIsSpent(g: Game, q: Projectile, i: nat)
    requires i < |g.enemies| && q.x == g.enemies[i].x && q.y == g.enemies[i].y
    requires q.speed == 0 && !q.isEnemy
    requires q.sprite.frameWidth >= 2 && q.sprite.frameHeight >= 1
    requires g.enemies[i].sprite.frameWidth >= 2 && g.enemies[i].sprite.frameHeight >= 2
    ensures Move(q) == q && Marked(g, q)
  {
    SameFeetOverlap(q, g.enemies[i]);
    var boxes := EnemyBoxes(g.enemies);
    assert Overlaps(ProjectileHitbox(q, 0, 0), boxes[i]);
  }

  /** A projectile that hits the player is never also marked for removal. */
  lemma HitIsNotMarked(g: Game, p: Projectile)
    requires HitsPlayer(g, p)
    ensures !Marked(g, p)
  {
  }

  // ---------------------------------------------------------------------------
  // The classification loop as written: one append per overlapped target.

  /** How many of `boxes` the box overlaps. */
  function CountOverlaps(box: Rect, boxes: seq<Rect>): (n: nat)
    ensures n <= |boxes|
    ensures n == 0 <==> !HitsAny(box, boxes)
    decreases |boxes|
  {
    if |boxes| == 0 then 0
    else
      var rest := CountOverlaps(box, boxes[1..]);
      assert HitsAny(box, boxes[1..]) ==> HitsAny(box, boxes) by {
        if HitsAny(box, boxes[1..]) {
          var j :| 0 <= j < |boxes| - 1 && Overlaps(box, boxes[1..][j]);
          assert Overlaps(box, boxes[j + 1]);
        }
      }
      (if Overlaps(box, boxes[0]) then 1 else 0) + rest
  }

  /** The number of times the source appends a projectile's index to its
      removal list: the inner `continue`s only end one inner iteration, so
      every overlapped character, enemy or doodad adds another copy. */
  function MarkCountAsWritten(g: Game, p: Projectile): nat
  {
    var box := ProjectileHitbox(p, 0, 0);
    if OutOfBounds(p) then 1
    else if p.isEnemy then
      if Overlaps(box, PlayerHitbox(g.player, 0, 0)) then 0
      else CountOverlaps(box, CharacterBoxes(g.characters)) + CountOverlaps(box, DoodadBoxes(g.doodads))
    else CountOverlaps(box, EnemyBoxes(g.enemies)) + CountOverlaps(box, DoodadBoxes(g.doodads))
  }

  /** The count is positive exactly for the marked projectiles. */
  lemma MarkedIffCounted(g: Game, p: Projectile)
    ensures Marked(g, p) <==> MarkCountAsWritten(g, p) > 0
  {
    var box := ProjectileHitbox(p, 0, 0);
    var _ := CountOverlaps(box, CharacterBoxes(g.characters));
    var _ := CountOverlaps(box, DoodadBoxes(g.doodads));
    var _ := CountOverlaps(box, EnemyBoxes(g.enemies));
  }

  function Copies(v: nat, n: nat): (r: seq<nat>)
    ensures |r| == n && forall k :: 0 <= k < n ==> r[k] == v
    ensures multiset(r)[v] == n
    ensures forall w :: w != v ==> multiset(r)[w] == 0
  {
    if n == 0 then [] else [v] + Copies(v, n - 1)
  }

  /** Prepending copies of `i` to a sorted list of larger positions keeps it
      sorted and in range, and adds exactly those copies to the count of `i`. */
  lemma PrependCopies(i: nat, n: nat, rest: seq<nat>, hi: nat)
    requires i < hi
    requires forall k :: 0 <= k < |rest| ==> i < rest[k] < hi
    requires forall a, b :: 0 <= a < b < |rest| ==> rest[a] <= rest[b]
    ensures forall k :: 0 <= k < |Copies(i, n) + rest| ==> i <= (Copies(i, n) + rest)[k] < hi
    ensures forall a, b :: 0 <= a < b < |Copies(i, n) + rest| ==>
      (Copies(i, n) + rest)[a] <= (Copies(i, n) + rest)[b]
    ensures multiset(Copies(i, n) + rest)[i] == n
    ensures forall j :: j != i ==> multiset(Copies(i, n) + rest)[j] == multiset(rest)[j]
  {
    var m := Copies(i, n) + rest;
    assert i !in rest;
    forall a, b | 0 <= a < b < |m|
      ensures m[a] <= m[b]
    {
      if b < n {
        assert m[a] == i && m[b] == i;
      } else if a < n {
        assert m[a] == i && m[b] == rest[b - n];
      } else {
        assert m[a] == rest[a - n] && m[b] == rest[b - n];
      }
    }
  }

  /** The removal list the source builds over the moved projectiles from index `i` on. */
  function ScanAsWritten(g: Game, ps: seq<Projectile>, i: nat): (marks: seq<nat>)
    ensures forall k :: 0 <= k < |marks| ==> i <= marks[k] < |ps|
    ensures forall a, b :: 0 <= a < b < |marks| ==> marks[a] <= marks[b]
    ensures forall j :: i <= j < |ps| ==> multiset(marks)[j] == MarkCountAsWritten(g, ps[j])
    decreases |ps| - i
  {
    if i >= |ps| then []
    else
      var rest := ScanAsWritten(g, ps, i + 1);
      PrependCopies(i, MarkCountAsWritten(g, ps[i]), rest, |ps|);
      Copies(i, MarkCountAsWritten(g, ps[i])) + rest
  }

  /** `for k, v := range remove { ps = Remove(ps, v+k) }`; `None` where
      `Remove` would index past the end and the program panics. */
  function RemoveAsWritten(ps: seq<Projectile>, marks: seq<nat>, k: nat): (r: Option<seq<Projectile>>)
    ensures r.Some? ==> |r.value| == |ps| - |marks|
    ensures |marks| == 0 ==> r == Some(ps)
    ensures |marks| == 1 ==> (r.Some? <==> marks[0] + k < |ps|)
    ensures |marks| == 1 && marks[0] + k < |ps| ==> r == Some(Remove(ps, marks[0] + k))
    decreases |marks|
  {
    if |marks| == 0 then Some(ps)
    else if marks[0] + k >= |ps| then None
    else RemoveAsWritten(Remove(ps, marks[0] + k), marks[1..], k + 1)
  }

  // ---------------------------------------------------------------------------
  // The corrected removal: drop every marked projectile, highest index first.

  /** The elements of `s` whose flag is clear, in order. */
  function Unflagged(s: seq<Projectile>, flags: seq<bool>): (r: seq<Projectile>)
    requires |flags| == |s|
    ensures |r| <= |s|
    decreases |s|
  {
    if |s| == 0 then []
    else
      var n := |s| - 1;
      var rest := Unflagged(s[..n], flags[..n]);
      rest + (if flags[n] then [] else [s[n]])
  }

  /** What is kept is exactly the elements at clear positions. */
  lemma {:induction false} UnflaggedMembers(s: seq<Projectile>, flags: seq<bool>)
    requires |flags| == |s|
    ensures forall q :: q in Unflagged(s, flags) ==> exists i :: 0 <= i < |s| && !flags[i] && s[i] == q
    ensures forall i :: 0 <= i < |s| && !flags[i] ==> s[i] in Unflagged(s, flags)
    decreases |s|
  {
    if |s| > 0 {
      var n := |s| - 1;
      var rest := Unflagged(s[..n], flags[..n]);
      UnflaggedMembers(s[..n], flags[..n]);
      assert Unflagged(s, flags) == rest + (if flags[n] then [] else [s[n]]);
      forall q | q in Unflagged(s, flags)
        ensures exists i :: 0 <= i < |s| && !flags[i] && s[i] == q
      {
        if q in rest {
          var i :| 0 <= i < n && !flags[..n][i] && s[..n][i] == q;
          assert !flags[i] && s[i] == q;
        } else {
          assert !flags[n] && s[n] == q;
        }
      }
      forall i | 0 <= i < |s| && !flags[i]
        ensures s[i] in Unflagged(s, flags)
      {
        if i < n {
          assert s[..n][i] == s[i] && flags[..n][i] == flags[i];
        }
      }
    }
  }

  /** The list after the removal, and the new slot of the projectile that hit the player. */
  datatype Kept = Kept(projectiles: seq<Projectile>, slot: Option<nat>)

  /** Swap-with-last removal leaves the prefix before `i` alone and only
      reorders what follows it. */
  lemma RemoveSplit(s: seq<Projectile>, i: nat)
    requires i < |s|
    ensures Remove(s, i)[..i] == s[..i]
    ensures multiset(Remove(s, i)[i..]) == multiset(s[i + 1..])
  {
    var r := Remove(s, i);
    var n := |s| - 1;
    if i < n {
      assert r[i..] == [s[n]] + s[i + 1..n];
      assert s[i + 1..] == s[i + 1..n] + [s[n]];
    }
  }

  /** Extending the prefix by one position adds that element unless it is flagged. */
  lemma UnflaggedStep(s: seq<Projectile>, flags: seq<bool>, j: nat)
    requires 0 < j <= |s| && j <= |flags|
    ensures Unflagged(s[..j], flags[..j])
         == Unflagged(s[..j - 1], flags[..j - 1]) + (if flags[j - 1] then [] else [s[j - 1]])
  {
    assert s[..j][..j - 1] == s[..j - 1] && flags[..j][..j - 1] == flags[..j - 1];
  }

  /** Where the hit projectile sits after `Remove(s, i)` of another slot. */
  function FollowSlot(s: seq<Projectile>, i: nat, c: Option<nat>): (c': Option<nat>)
    requires i < |s|
    ensures c.Some? && c.value < |s| && c.value != i ==>
      c'.Some? && c'.value < |s| - 1 && Remove(s, i)[c'.value] == s[c.value]
    ensures c.Some? && c.value < |s| && c.value != i && c.value != |s| - 1 ==> c' == c
  {
    if c == Some(|s| - 1) then Some(i) else c
  }

  /** Removes the flagged positions below `j`, from `j - 1` down to 0, with
      `Remove`, following the hit projectile `c` when it is the one swapped in. */
  function RemoveFrom(s: seq<Projectile>, flags: seq<bool>, j: nat, c: Option<nat>): (r: Kept)
    requires j <= |s| && j <= |flags|
    ensures c.Some? && c.value < |s| && (j <= c.value || !flags[c.value]) ==>
      r.slot.Some? && r.slot.value < |r.projectiles| && r.projectiles[r.slot.value] == s[c.value]
    decreases j
  {
    if j == 0 then Kept(s, c)
    else if flags[j - 1] then RemoveFrom(Remove(s, j - 1), flags, j - 1, FollowSlot(s, j - 1, c))
    else RemoveFrom(s, flags, j - 1, c)
  }

  /** What `RemoveFrom` keeps: the unflagged part of the first `j` elements,
      and everything from `j` on. */
  lemma {:induction false} RemoveFromKeeps(s: seq<Projectile>, flags: seq<bool>, j: nat, c: Option<nat>)
    requires j <= |s| && j <= |flags|
    ensures multiset(RemoveFrom(s, flags, j, c).projectiles)
         == multiset(Unflagged(s[..j], flags[..j])) + multiset(s[j..])
    decreases j, 1
  {
    if j == 0 {
      assert s[..0] == [] && flags[..0] == [] && s[0..] == s;
    } else if flags[j - 1] {
      FlaggedStepKeeps(s, flags, j, c);
    } else {
      UnflaggedStepKeeps(s, flags, j, c);
    }
  }

  /** Inductive step of `RemoveFromKeeps` when position `j - 1` is flagged. */
  lemma {:induction false} FlaggedStepKeeps(s: seq<Projectile>, flags: seq<bool>, j: nat, c: Option<nat>)
    requires 0 < j <= |s| && j <= |flags| && flags[j - 1]
    ensures multiset(RemoveFrom(s, flags, j, c).projectiles)
         == multiset(Unflagged(s[..j], flags[..j])) + multiset(s[j..])
    decreases j, 0
  {
    var s' := Remove(s, j - 1);
    var c' := FollowSlot(s, j - 1, c);
    RemoveFromKeeps(s', flags, j - 1, c');
    UnflaggedStep(s, flags, j);
    RemoveSplit(s, j - 1);
    assert RemoveFrom(s, flags, j, c) == RemoveFrom(s', flags, j - 1, c');
    assert s'[..j - 1] == s[..j - 1];
    assert Unflagged(s[..j], flags[..j]) == Unflagged(s[..j - 1], flags[..j - 1]);
    assert multiset(s'[j - 1..]) == multiset(s[j..]);
  }

  /** Inductive step of `RemoveFromKeeps` when position `j - 1` is clear. */
  lemma {:induction false} UnflaggedStepKeeps(s: seq<Projectile>, flags: seq<bool>, j: nat, c: Option<nat>)
    requires 0 < j <= |s| && j <= |flags| && !flags[j - 1]
    ensures multiset(RemoveFrom(s, flags, j, c).projectiles)
         == multiset(Unflagged(s[..j], flags[..j])) + multiset(s[j..])
    decreases j, 0
  {
    RemoveFromKeeps(s, flags, j - 1, c);
    UnflaggedStep(s, flags, j);
    var kept := RemoveFrom(s, flags, j - 1, c).projectiles;
    var before := Unflagged(s[..j - 1], flags[..j - 1]);
    assert multiset(kept) == multiset(before) + multiset(s[j - 1..]);
    assert RemoveFrom(s, flags, j, c).projectiles == kept;
    assert Unflagged(s[..j], flags[..j]) == before + [s[j - 1]];
    assert s[j - 1..] == [s[j - 1]] + s[j..];
    MoveAcross(before, s[j - 1], s[j..]);
  }

  /** Moving one element from the front of the rest to the end of the prefix
      leaves the combined multiset unchanged. */
  lemma MoveAcross<T>(before: seq<T>, x: T, rest: seq<T>)
    ensures multiset(before) + multiset([x] + rest) == multiset(before + [x]) + multiset(rest)
  {
    calc {
      multiset(before) + multiset([x] + rest);
      multiset(before) + (multiset{x} + multiset(rest));
      (multiset(before) + multiset{x}) + multiset(rest);
      multiset(before + [x]) + multiset(rest);
    }
  }

  /** Every unflagged element survives, every flagged one goes, and the
      projectile `c` (unflagged) keeps being found at the returned slot. */
  function RemoveFlagged(s: seq<Projectile>, flags: seq<bool>, c: Option<nat>): (r: Kept)
    requires |flags| == |s|
    ensures multiset(r.projectiles) == multiset(Unflagged(s, flags))
    ensures c.Some? && c.value < |s| && !flags[c.value] ==>
      r.slot.Some? && r.slot.value < |r.projectiles| && r.projectiles[r.slot.value] == s[c.value]
  {
    assert s[..|s|] == s && flags[..|s|] == flags && s[|s|..] == [];
    RemoveFromKeeps(s, flags, |s|, c);
    RemoveFrom(s, flags, |s|, c)
  }

  /** With no flag below `j`, nothing is removed. */
  lemma {:induction false} NoFlagsRemoveNothing(s: seq<Projectile>, flags: seq<bool>, j: nat, c: Option<nat>)
    requires j <= |s| && j <= |flags|
    requires forall i :: 0 <= i < j ==> !flags[i]
    ensures RemoveFrom(s, flags, j, c) == Kept(s, c)
    decreases j
  {
    if j > 0 {
      NoFlagsRemoveNothing(s, flags, j - 1, c);
    }
  }

  /** With exactly one flag, at `m`, the corrected removal is the single `Remove(s, m)`. */
  lemma {:induction false} OneFlagIsOneRemove(s: seq<Projectile>, flags: seq<bool>, j: nat, m: nat, c: Option<nat>)
    requires m < j <= |s| && j <= |flags|
    requires forall i :: 0 <= i < j ==> (flags[i] <==> i == m)
    ensures RemoveFrom(s, flags, j, c).projectiles == Remove(s, m)
    decreases j
  {
    if j - 1 == m {
      NoFlagsRemoveNothing(Remove(s, m), flags, m, FollowSlot(s, m, c));
    } else {
      OneFlagIsOneRemove(s, flags, j - 1, m, c);
    }
  }

  // ---------------------------------------------------------------------------
  // The whole step.

  function Moved(ps: seq<Projectile>): (r: seq<Projectile>)
    ensures |r| == |ps| && forall i :: 0 <= i < |ps| ==> r[i] == Move(ps[i])
  {
    seq(|ps|, i requires 0 <= i < |ps| => Move(ps[i]))
  }

  function Flags(g: Game, ps: seq<Projectile>): (r: seq<bool>)
    ensures |r| == |ps| && forall i :: 0 <= i < |ps| ==> (r[i] <==> Marked(g, ps[i]))
  {
    seq(|ps|, i requires 0 <= i < |ps| => Marked(g, ps[i]))
  }

  /** The last projectile below `n` that hits the player: the loop overwrites
      `ProjectileCollision` on each hit, so the last one wins. */
  function LastHit(g: Game, ps: seq<Projectile>, n: nat): (r: Option<nat>)
    requires n <= |ps|
    ensures r.Some? ==> r.value < n && HitsPlayer(g, ps[r.value])
    ensures r.Some? ==> forall j :: r.value < j < n ==> !HitsPlayer(g, ps[j])
    ensures r.None? <==> forall j :: 0 <= j < n ==> !HitsPlayer(g, ps[j])
    decreases n
  {
    if n == 0 then None
    else if HitsPlayer(g, ps[n - 1]) then Some(n - 1)
    else LastHit(g, ps, n - 1)
  }

  /** The projectiles that survive the frame: moved and not marked, in order. */
  function Survivors(g: Game): seq<Projectile>
  {
    var moved := Moved(g.projectiles);
    Unflagged(moved, Flags(g, moved))
  }

  /** A projectile survives exactly when its moved self is not marked. */
  lemma SurvivorsAreTheUnmarked(g: Game)
    ensures forall q :: q in Survivors(g) ==>
      !Marked(g, q) && exists i :: 0 <= i < |g.projectiles| && q == Move(g.projectiles[i])
    ensures forall i :: 0 <= i < |g.projectiles| && !Marked(g, Move(g.projectiles[i])) ==>
      Move(g.projectiles[i]) in Survivors(g)
  {
    var moved := Moved(g.projectiles);
    UnflaggedMembers(moved, Flags(g, moved));
  }

  /** UpdateProjectiles, corrected: move, classify, drop the marked ones, and
      record the slot where the projectile that hit the player now sits. */
  function UpdateProjectiles(g: Game): (r: Game)
    ensures r == g.(projectiles := r.projectiles, projectileCollision := r.projectileCollision)
    ensures multiset(r.projectiles) == multiset(Survivors(g))
    ensures (forall i :: 0 <= i < |g.projectiles| ==> !HitsPlayer(g, Move(g.projectiles[i]))) ==>
      r.projectileCollision == g.projectileCollision
    ensures forall i :: 0 <= i < |g.projectiles| && HitsPlayer(g, Move(g.projectiles[i])) ==>
      && r.projectileCollision.Some?
      && r.projectileCollision.value < |r.projectiles|
      && HitsPlayer(g, r.projectiles[r.projectileCollision.value])
  {
    var moved := Moved(g.projectiles);
    var hit := LastHit(g, moved, |moved|);
    assert hit.Some? ==> !Marked(g, moved[hit.value]) by {
      if hit.Some? {
        HitIsNotMarked(g, moved[hit.value]);
      }
    }
    var kept := RemoveFlagged(moved, Flags(g, moved), hit);
    g.(projectiles := kept.projectiles, projectileCollision := if hit.Some? then kept.slot else g.projectileCollision)
  }

  /** UpdateProjectiles as written; `None` where the batch removal panics. */
  function UpdateProjectilesAsWritten(g: Game): (r: Option<Game>)
    ensures r.Some? ==> r.value == g.(projectiles := r.value.projectiles, projectileCollision := r.value.projectileCollision)
    ensures r.Some? ==> var moved := Moved(g.projectiles);
      |r.value.projectiles| == |moved| - |ScanAsWritten(g, moved, 0)|
  {
    var moved := Moved(g.projectiles);
    var marks := ScanAsWritten(g, moved, 0);
    var hit := LastHit(g, moved, |moved|);
    match RemoveAsWritten(moved, marks, 0)
    case None => None
    case Some(ps) => Some(g.(projectiles := ps, projectileCollision := if hit.Some? then hit else g.projectileCollision))
  }

  /** With at most one index on the removal list, the batch removal as
      written removes exactly the marked projectile, like the corrected one. */
  lemma SingleMarkAgrees(g: Game)
    requires |ScanAsWritten(g, Moved(g.projectiles), 0)| <= 1
    ensures UpdateProjectilesAsWritten(g).Some?
    ensures UpdateProjectilesAsWritten(g).value.projectiles == UpdateProjectiles(g).projectiles
  {
    var moved := Moved(g.projectiles);
    var marks := ScanAsWritten(g, moved, 0);
    var flags := Flags(g, moved);
    var hit := LastHit(g, moved, |moved|);
    FlagsMatchMarks(g, moved);
    UnfoldUpdates(g);
    SingleMarkRemoval(moved, flags, marks, hit);
  }

  /** The list-level core of `SingleMarkAgrees`. */
  lemma SingleMarkRemoval(s: seq<Projectile>, flags: seq<bool>, marks: seq<nat>, c: Option<nat>)
    requires |flags| == |s| && |marks| <= 1
    requires forall k :: 0 <= k < |marks| ==> marks[k] < |s|
    requires forall i :: 0 <= i < |s| ==> (flags[i] <==> i in marks)
    ensures RemoveAsWritten(s, marks, 0) == Some(RemoveFrom(s, flags, |s|, c).projectiles)
  {
    if |marks| == 0 {
      NoFlagsRemoveNothing(s, flags, |s|, c);
    } else {
      var m := marks[0];
      assert forall i :: i in marks <==> i == m;
      OneFlagIsOneRemove(s, flags, |s|, m, c);
    }
  }

  /** A moved projectile is flagged exactly when the source lists its index. */
  lemma FlagsMatchMarks(g: Game, moved: seq<Projectile>)
    ensures forall i :: 0 <= i < |moved| ==> (Flags(g, moved)[i] <==> i in ScanAsWritten(g, moved, 0))
  {
    var marks: seq<nat> := ScanAsWritten(g, moved, 0);
    forall i: nat | i < |moved|
      ensures Flags(g, moved)[i] <==> i in marks
    {
      MarkedIffCounted(g, moved[i]);
      assert multiset(marks)[i] == MarkCountAsWritten(g, moved[i]);
    }
  }

  /** Both versions of the step in terms of their removals. */
  lemma UnfoldUpdates(g: Game)
    ensures var moved := Moved(g.projectiles);
      UpdateProjectiles(g).projectiles
      == RemoveFrom(moved, Flags(g, moved), |moved|, LastHit(g, moved, |moved|)).projectiles
    ensures var moved := Moved(g.projectiles);
      var removed := RemoveAsWritten(moved, ScanAsWritten(g, moved, 0), 0);
      && (UpdateProjectilesAsWritten(g).Some? <==> removed.Some?)
      && (removed.Some? ==> UpdateProjectilesAsWritten(g).value.projectiles == removed.value)
  {
    var moved := Moved(g.projectiles);
    FlaggedIsFromTheEnd(moved, Flags(g, moved), LastHit(g, moved, |moved|));
  }

  // ---------------------------------------------------------------------------
  // Damage.

  /** UpdateDamage: one point of damage when a projectile or an enemy hit the
      player this frame, the projectile is consumed, and both records clear.
      The source finds the projectile's slot by pointer identity; a slot past
      the end makes its `Remove` panic, so the slot must be in range. */
  function UpdateDamage(g: Game): (r: Game)
    requires g.projectileCollision.Some? ==> g.projectileCollision.value < |g.projectiles|
    ensures r == g.(player := r.player, projectiles := r.projectiles, projectileCollision := None, enemyCollision := None)
    ensures r.player == g.player.(health := r.player.health)
    ensures r.player.health == g.player.health - (if g.projectileCollision.Some? || g.enemyCollision.Some? then 1 else 0)
    ensures g.projectileCollision.None? ==> r.projectiles == g.projectiles
    ensures g.projectileCollision.Some? ==>
      && |r.projectiles| == |g.projectiles| - 1
      && multiset(r.projectiles) == multiset(g.projectiles) - multiset{g.projectiles[g.projectileCollision.value]}
  {
    match g.projectileCollision
    case Some(slot) =>
      RemoveMultiset(g.projectiles, slot);
      g.(player := g.player.(health := g.player.health - 1), projectiles := Remove(g.projectiles, slot),
         projectileCollision := None, enemyCollision := None)
    case None =>
      if g.enemyCollision.Some? then
        g.(player := g.player.(health := g.player.health - 1), projectileCollision := None, enemyCollision := None)
      else
        g
  }

  // ---------------------------------------------------------------------------
  // Inputs on which the code as written goes wrong. They use a 2x2
  // projectile sprite and a 2x4 player/doodad sprite placed at the origin,
  // where every box below works out to a few pixels around (0, 0).

  /** The box of a 2x2 projectile at the origin. */
  const ProbeBox := Rect(Point(-1, -2), Point(1, 0))

  lemma SmallProjectileBox(p: Projectile)
    requires p.x == 0 && p.y == 0 && p.sprite.frameWidth == 2 && p.sprite.frameHeight == 2
    ensures ProjectileHitbox(p, 0, 0) == ProbeBox
  {
  }

  lemma PlayerAtOriginBox(pl: Player)
    requires pl.x == 0 && pl.y == 0 && pl.sprite.frameWidth == 2 && pl.sprite.frameHeight == 4
    ensures PlayerHitbox(pl, 0, 0) == ProbeBox
  {
  }

  lemma TwoDoodadsBelowOverlap(d: Doodad)
    requires d.x == 0 && d.y == 1 && d.sprite.frameWidth == 2 && d.sprite.frameHeight == 4
    ensures CountOverlaps(ProbeBox, DoodadBoxes([d, d])) == 2
  {
    var b := DoodadHitbox(d, 0, 0);
    assert b == Rect(Point(-1, -1), Point(1, 1));
    assert DoodadBoxes([d, d]) == [b, b];
    assert CountOverlaps(ProbeBox, [b]) == 1;
  }

  /** A resting fireball of the player's side that overlaps two doodads is put
      on the removal list twice. */
  lemma TwoDoodadsMarkTwice(g: Game, p: Projectile, d: Doodad)
    requires p.x == 0 && p.y == 0 && p.sprite.frameWidth == 2 && p.sprite.frameHeight == 2
    requires p.speed == 0 && !p.isEnemy
    requires d.x == 0 && d.y == 1 && d.sprite.frameWidth == 2 && d.sprite.frameHeight == 4
    requires g.projectiles == [p] && g.enemies == [] && g.doodads == [d, d]
    ensures MarkCountAsWritten(g, p) == 2
    ensures ScanAsWritten(g, Moved(g.projectiles), 0) == [0, 0]
  {
    SmallProjectileBox(p);
    TwoDoodadsBelowOverlap(d);
    assert CountOverlaps(ProbeBox, EnemyBoxes(g.enemies)) == 0;
    assert Moved(g.projectiles) == [p];
    assert ScanAsWritten(g, [p], 1) == [];
    assert Copies(0, 2) == [0, 0];
  }

  /** A duplicated index makes the second removal take an unmarked bystander:
      marks [0, 0] over [a, b, c] remove a, then b, keeping only c. */
  lemma DuplicateMarkRemovesBystander(a: Projectile, b: Projectile, c: Projectile)
    ensures RemoveAsWritten([a, b, c], [0, 0], 0) == Some([c])
  {
    assert Remove([a, b, c], 0) == [c, b];
    assert Remove([c, b], 1) == [c];
  }

  /** Two distinct marks shift onto the wrong slots: marks [0, 1] over four
      projectiles remove p0 and the unmarked p2, keeping the marked p1; over
      three projectiles the second removal indexes past the end. */
  lemma ShiftedIndexRemovesBystander(p0: Projectile, p1: Projectile, p2: Projectile, p3: Projectile)
    ensures RemoveAsWritten([p0, p1, p2, p3], [0, 1], 0) == Some([p3, p1])
    ensures RemoveAsWritten([p0, p1, p2], [0, 1], 0).None?
  {
    assert Remove([p0, p1, p2, p3], 0) == [p3, p1, p2];
    assert Remove([p3, p1, p2], 2) == [p3, p1];
    assert Remove([p0, p1, p2], 0) == [p2, p1];
  }

  /** The frame of the stale-slot example: a resting projectile far outside the
      play area in slot 0 and a resting enemy projectile on the player in slot 1. */
  predicate CulledThenHit(g: Game)
  {
    && |g.projectiles| == 2
    && g.projectiles[0].x == 2000 && g.projectiles[0].speed == 0
    && var hit := g.projectiles[1];
    && hit.x == 0 && hit.y == 0 && hit.sprite.frameWidth == 2 && hit.sprite.frameHeight == 2
    && hit.speed == 0 && hit.isEnemy
    && g.player.x == 0 && g.player.y == 0 && g.player.sprite.frameWidth == 2 && g.player.sprite.frameHeight == 4
  }

  lemma CulledThenHitClassified(g: Game)
    requires CulledThenHit(g)
    ensures Moved(g.projectiles) == g.projectiles
    ensures Marked(g, g.projectiles[0]) && !Marked(g, g.projectiles[1])
    ensures LastHit(g, g.projectiles, 2) == Some(1)
  {
    var ps := g.projectiles;
    RestingStayPut(ps);
    assert OutOfBounds(ps[0]);
    HitOnOrigin(g, ps[1]);
    HitIsNotMarked(g, ps[1]);
  }

  /** Projectiles that do not move are their own moved list. */
  lemma RestingStayPut(ps: seq<Projectile>)
    requires forall i :: 0 <= i < |ps| ==> ps[i].speed == 0
    ensures Moved(ps) == ps
  {
  }

  /** A 2x2 enemy projectile at the origin hits a 2x4 player at the origin. */
  lemma HitOnOrigin(g: Game, hit: Projectile)
    requires hit.x == 0 && hit.y == 0 && hit.sprite.frameWidth == 2 && hit.sprite.frameHeight == 2 && hit.isEnemy
    requires g.player.x == 0 && g.player.y == 0 && g.player.sprite.frameWidth == 2 && g.player.sprite.frameHeight == 4
    ensures HitsPlayer(g, hit)
  {
    SmallProjectileBox(hit);
    PlayerAtOriginBox(g.player);
    assert Overlaps(ProbeBox, ProbeBox);
    assert !OutOfBounds(hit);
  }

  /** The removal moves the hit projectile out of its recorded slot 1, which
      is then past the end: UpdateDamage's search falls off the slice and its
      `Remove` panics. */
  lemma StaleSlotAfterRemoval(g: Game)
    requires CulledThenHit(g)
    ensures UpdateProjectilesAsWritten(g).Some?
    ensures UpdateProjectilesAsWritten(g).value.projectileCollision == Some(1)
    ensures |UpdateProjectilesAsWritten(g).value.projectiles| == 1
  {
    var ps := g.projectiles;
    CulledThenHitClassified(g);
    CulledThenHitScan(g);
    assert RemoveAsWritten(ps, [0], 0) == Some(Remove(ps, 0));
  }

  /** The source's removal list for the stale-slot frame holds slot 0 only. */
  lemma CulledThenHitScan(g: Game)
    requires CulledThenHit(g)
    ensures ScanAsWritten(g, g.projectiles, 0) == [0]
  {
    var ps := g.projectiles;
    HitOnOrigin(g, ps[1]);
    assert OutOfBounds(ps[0]);
    ScanOfOneMark(g, ps);
  }

  /** Over two projectiles, the first appended once and the second never. */
  lemma ScanOfOneMark(g: Game, ps: seq<Projectile>)
    requires |ps| == 2 && OutOfBounds(ps[0]) && HitsPlayer(g, ps[1])
    ensures ScanAsWritten(g, ps, 0) == [0]
  {
    assert MarkCountAsWritten(g, ps[0]) == 1;
    assert MarkCountAsWritten(g, ps[1]) == 0;
    assert ScanAsWritten(g, ps, 2) == [];
    assert ScanAsWritten(g, ps, 1) == [];
    assert Copies(0, 1) == [0];
  }

  /** The corrected step on the same frame keeps the hit projectile findable at its new slot. */
  lemma CorrectedSlotIsFound(g: Game)
    requires CulledThenHit(g)
    ensures UpdateProjectiles(g).projectiles == [g.projectiles[1]]
    ensures UpdateProjectiles(g).projectileCollision == Some(0)
  {
    var ps := g.projectiles;
    CulledThenHitClassified(g);
    var flags := Flags(g, ps);
    FlagsOfTwo(g, ps);
    RemoveFirstOfTwo(ps, flags);
    var kept := RemoveFlagged(ps, flags, Some(1));
    FlaggedIsFromTheEnd(ps, flags, Some(1));
    assert UpdateProjectiles(g) == g.(projectiles := kept.projectiles, projectileCollision := kept.slot);
  }

  lemma FlaggedIsFromTheEnd(s: seq<Projectile>, flags: seq<bool>, c: Option<nat>)
    requires |flags| == |s|
    ensures RemoveFlagged(s, flags, c) == RemoveFrom(s, flags, |s|, c)
  {
  }

  lemma FlagsOfTwo(g: Game, ps: seq<Projectile>)
    requires |ps| == 2 && Marked(g, ps[0]) && !Marked(g, ps[1])
    ensures Flags(g, ps) == [true, false]
  {
    var flags := Flags(g, ps);
    assert flags[0] && !flags[1];
  }

  /** Removing the first of two projectiles moves the second into slot 0. */
  lemma RemoveFirstOfTwo(s: seq<Projectile>, flags: seq<bool>)
    requires |s| == 2 && flags == [true, false]
    ensures RemoveFrom(s, flags, 2, Some(1)) == Kept([s[1]], Some(0))
  {
    assert RemoveFrom(s, flags, 2, Some(1)) == RemoveFrom(s, flags, 1, Some(1));
    assert Remove(s, 0) == [s[1]];
    assert FollowSlot(s, 0, Some(1)) == Some(0);
  }
}
