/** The keyboard queries the player controller uses to break ties between
    several held direction keys (main.go). */
module Keys {
  import opened Entities

  predicate Held(input: Input, k: Key)
  {
    k in input.held
  }

  predicate JustPressed(input: Input, k: Key)
  {
    k in input.pressed
  }

  predicate JustReleased(input: Input, k: Key)
  {
    k in input.released
  }

  /** inpututil.KeyPressDuration: frames the key has been held, 0 when it is up. */
  function Duration(input: Input, k: Key): nat
  {
    if k in input.durations then input.durations[k] else 0
  }

  /** One of the three arrow keys other than `key` was released this frame;
      false when `key` is not an arrow. */
  predicate IsOtherDirectionJustReleased(input: Input, key: Key)
  {
    match key
    case KeyLeft => JustReleased(input, KeyRight) || JustReleased(input, KeyUp) || JustReleased(input, KeyDown)
    case KeyRight => JustReleased(input, KeyLeft) || JustReleased(input, KeyUp) || JustReleased(input, KeyDown)
    case KeyUp => JustReleased(input, KeyLeft) || JustReleased(input, KeyRight) || JustReleased(input, KeyDown)
    case KeyDown => JustReleased(input, KeyLeft) || JustReleased(input, KeyRight) || JustReleased(input, KeyUp)
    case _ => false
  }

  /** `key` is held, and has been held for less time than every other held arrow. */
  predicate IsLeastKeyPressDuration(input: Input, key: Key)
  {
    var d := Duration(input, key);
    var up := Duration(input, KeyUp);
    var down := Duration(input, KeyDown);
    var left := Duration(input, KeyLeft);
    var right := Duration(input, KeyRight);
    && d > 0
    && (key == KeyUp || d < up || up == 0)
    && (key == KeyDown || d < down || down == 0)
    && (key == KeyLeft || d < left || left == 0)
    && (key == KeyRight || d < right || right == 0)
  }

  /** The switch over the four arrows says: some other arrow was released. */
  lemma OtherDirectionReleasedIff(input: Input, key: Key)
    ensures IsOtherDirectionJustReleased(input, key)
        <==> IsArrow(key) && exists d :: IsArrow(d) && d != key && JustReleased(input, d)
  {
    if IsOtherDirectionJustReleased(input, key) {
      var d :| d in [KeyLeft, KeyRight, KeyUp, KeyDown] && d != key && JustReleased(input, d);
      assert IsArrow(d);
    }
  }

  /** Stated over all arrows: held, and strictly shorter than every other held arrow. */
  lemma LeastKeyPressDurationIff(input: Input, key: Key)
    ensures IsLeastKeyPressDuration(input, key)
        <==> Duration(input, key) > 0
             && forall d :: IsArrow(d) && d != key ==>
                  Duration(input, d) == 0 || Duration(input, key) < Duration(input, d)
  {
  }

  /** At most one arrow can be the most recently pressed one. */
  lemma LeastKeyPressDurationIsUnique(input: Input, a: Key, b: Key)
    requires IsArrow(a) && IsArrow(b)
    requires IsLeastKeyPressDuration(input, a) && IsLeastKeyPressDuration(input, b)
    ensures a == b
  {
  }
}
