/** The game bookkeeping of scripts/GameState.js: the list of powerup positions, the countdown in
    seconds, the spawn point, the reset hook and the module-level singleton. */
module Game {
  import opened Wrappers

  /** A `THREE.Vector3`. Powerups are removed by reference (`!==`), so the model keeps the
      positions as objects and compares them by identity. */
  class Vector3 {
    const x: real
    const y: real
    const z: real

    constructor (x: real, y: real, z: real)
      ensures this.x == x && this.y == y && this.z == z
    {
      this.x, this.y, this.z := x, y, z;
    }
  }

  /** The function handed to the constructor; what it does is not part of this model. */
  datatype Callback = Callback(id: nat)

  /** How a call to `reset` ends: calling a `null` callback throws a `TypeError`. */
  datatype ResetOutcome = Completed | Threw

  /** The countdown: seconds left, whether the interval still fires, and how many times the
      game-over message was shown. */
  datatype Countdown = Countdown(remaining: int, running: bool, gameOvers: nat)

  /** The countdown that the constructor starts (lines 7, 10). */
  function StartCountdown(timer: int): Countdown
  {
    Countdown(timer, true, 0)
  }

  /** One firing of the interval callback (lines 37-47): one second less; at zero or below the
      interval is cleared and game over is shown, otherwise the countdown goes on. */
  function Tick(c: Countdown): (r: Countdown)
    requires c.running
    ensures r.remaining == c.remaining - 1
    ensures r.running <==> r.remaining > 0
    ensures r.gameOvers == c.gameOvers + (if r.running then 0 else 1)
  {
    var n := c.remaining - 1;
    if n <= 0 then Countdown(n, false, c.gameOvers + 1) else Countdown(n, true, c.gameOvers)
  }

  /** `k` seconds pass: the interval fires once a second for as long as it has not been cleared. */
  function Elapse(c: Countdown, k: nat): Countdown
    decreases k
  {
    if k == 0 || !c.running then c else Elapse(Tick(c), k - 1)
  }

  /** Starting from `n >= 1` seconds, the countdown runs for exactly `n` seconds: it is still
      running after fewer, and from the `n`-th second on it has stopped at zero with game over
      shown exactly once. */
  lemma {:induction false} CountdownLength(n: int, g: nat, k: nat)
    requires n >= 1
    ensures Elapse(Countdown(n, true, g), k) ==
      if k < n then Countdown(n - k, true, g) else Countdown(0, false, g + 1)
  {
    if k > 0 {
      if n == 1 {
        assert Tick(Countdown(n, true, g)) == Countdown(0, false, g + 1);
      } else {
        CountdownLength(n - 1, g, k - 1);
      }
    }
  }

  /** A countdown started at zero or below stops at the first second, one below where it started. */
  lemma CountdownAlreadyOut(n: int, g: nat, k: nat)
    requires n <= 0 && k >= 1
    ensures Elapse(Countdown(n, true, g), k) == Countdown(n - 1, false, g + 1)
  {
  }

  /** `reset` adds `timer` seconds (line 56) but does not start the interval again. */
  function Extend(c: Countdown, timer: int): (r: Countdown)
    ensures r.remaining == c.remaining + timer
    ensures r.running == c.running && r.gameOvers == c.gameOvers
  {
    c.(remaining := c.remaining + timer)
  }

  /** Once time is up, a reset adds seconds that never count down: no later tick fires. */
  lemma ResetAfterTimeUp(c: Countdown, timer: int, k: nat)
    requires !c.running
    ensures Elapse(Extend(c, timer), k) == Extend(c, timer)
  {
  }

  /** The list `filter((p) => p !== v)` builds (lines 69-71). */
  function Without(s: seq<Vector3>, v: Vector3): (r: seq<Vector3>)
    ensures v !in r
    ensures |r| <= |s|
  {
    if s == [] then [] else (if s[0] != v then [s[0]] else []) + Without(s[1..], v)
  }

  /** Removing a position that is not in the list changes nothing. */
  lemma {:induction false} WithoutAbsent(s: seq<Vector3>, v: Vector3)
    requires v !in s
    ensures Without(s, v) == s
  {
    if s != [] {
      WithoutAbsent(s[1..], v);
      assert s == [s[0]] + s[1..];
    }
  }

  /** One step of the filter: the head is kept unless it is the removed position. */
  lemma WithoutCons(x: Vector3, t: seq<Vector3>, v: Vector3)
    ensures Without([x] + t, v) == (if x != v then [x] else []) + Without(t, v)
  {
    assert ([x] + t)[0] == x && ([x] + t)[1..] == t;
  }

  /** The filter works piece by piece, so the entries it keeps stay in their order. */
  lemma {:induction false} WithoutConcat(a: seq<Vector3>, b: seq<Vector3>, v: Vector3)
    ensures Without(a + b, v) == Without(a, v) + Without(b, v)
  {
    if a == [] {
      assert a + b == b;
    } else {
      var x, rest := a[0], a[1..];
      assert a == [x] + rest;
      assert a + b == [x] + (rest + b);
      WithoutCons(x, rest + b, v);
      WithoutCons(x, rest, v);
      WithoutConcat(rest, b, v);
    }
  }

  /** Every occurrence of the position is dropped and every other entry is kept as often as it
      occurred. */
  lemma {:induction false} WithoutCounts(s: seq<Vector3>, v: Vector3)
    ensures multiset(Without(s, v)) == multiset(s)[v := 0]
  {
    if s != [] {
      WithoutCounts(s[1..], v);
      assert s == [s[0]] + s[1..];
      var head := if s[0] != v then [s[0]] else [];
      assert Without(s, v) == head + Without(s[1..], v);
      assert multiset(Without(s, v)) == multiset(head) + multiset(s[1..])[v := 0];
    }
  }

  /** The list that is left holds exactly the entries other than the removed position. */
  lemma WithoutMembers(s: seq<Vector3>, v: Vector3)
    ensures forall x :: x in Without(s, v) <==> x in s && x != v
  {
    WithoutCounts(s, v);
    forall x
      ensures x in Without(s, v) <==> x in s && x != v
    {
      assert x in Without(s, v) <==> x in multiset(Without(s, v));
      assert x in s <==> x in multiset(s);
    }
  }

  /** The game state object of lines 3-103. */
  class GameState {
    const resetCallback: Option<Callback>
    /** `Config.TIMER`. */
    const timer: int
    var powerupLocations: seq<Vector3>
    var countdown: Countdown
    var spawnpoint: Vector3?

    /** Lines 4-11. */
    constructor (resetCallback: Option<Callback>, timer: int)
      ensures this.resetCallback == resetCallback && this.timer == timer
      ensures powerupLocations == [] && spawnpoint == null
      ensures countdown == StartCountdown(timer)
    {
      this.resetCallback := resetCallback;
      this.timer := timer;
      powerupLocations := [];
      countdown := StartCountdown(timer);
      spawnpoint := null;
    }

    /** The `powerupLocations` getter (line 13). */
    function PowerupLocations(): seq<Vector3>
      reads this
    {
      powerupLocations
    }

    /** The `spawnpoint` getter (line 14). */
    function Spawnpoint(): Vector3?
      reads this
    {
      spawnpoint
    }

    /** The body of the interval callback (lines 37-47), run while the interval is set. */
    method OnTick()
      requires countdown.running
      modifies this
      ensures countdown == Tick(old(countdown))
      ensures powerupLocations == old(powerupLocations) && spawnpoint == old(spawnpoint)
    {
      countdown := countdown.(remaining := countdown.remaining - 1);
      if countdown.remaining <= 0 {
        countdown := countdown.(running := false, gameOvers := countdown.gameOvers + 1);
      }
    }

    /** `reset` (lines 50-58): the list is cleared first; with no callback the call throws before
        the timer is touched, otherwise `timer` seconds are added. The callback runs after the
        list is cleared (line 53); its effects are not modelled, so the list is taken to stay
        empty through it. */
    method Reset() returns (outcome: ResetOutcome)
      modifies this
      ensures powerupLocations == [] && spawnpoint == old(spawnpoint)
      ensures resetCallback.None? ==> outcome == Threw && countdown == old(countdown)
      ensures resetCallback.Some? ==> outcome == Completed && countdown == Extend(old(countdown), timer)
    {
      powerupLocations := [];
      if resetCallback.None? {
        return Threw;
      }
      countdown := countdown.(remaining := countdown.remaining + timer);
      return Completed;
    }

    /** `addPowerup` (lines 64-66). */
    method AddPowerup(position: Vector3)
      modifies this
      ensures powerupLocations == old(powerupLocations) + [position]
      ensures countdown == old(countdown) && spawnpoint == old(spawnpoint)
    {
      powerupLocations := powerupLocations + [position];
    }

    /** `removePowerup` (lines 68-72). */
    method RemovePowerup(oldPosition: Vector3)
      modifies this
      ensures powerupLocations == Without(old(powerupLocations), oldPosition)
      ensures countdown == old(countdown) && spawnpoint == old(spawnpoint)
    {
      powerupLocations := Without(powerupLocations, oldPosition);
    }

    /** `setSpawnpoint` (lines 74-76). */
    method SetSpawnpoint(vector: Vector3?)
      modifies this
      ensures Spawnpoint() == vector
      ensures powerupLocations == old(powerupLocations) && countdown == old(countdown)
    {
      spawnpoint := vector;
    }
  }

  /** The module-level `instance` and `getGameState` (lines 105-110); `timer` is `Config.TIMER`. */
  class Registry {
    const timer: int
    var instance: GameState?

    constructor (timer: int)
      ensures this.timer == timer && instance == null
    {
      this.timer := timer;
      instance := null;
    }

    /** The first call builds the game state with its callback; every later call returns that
        same object untouched and ignores its argument. */
    method GetGameState(resetCallback: Option<Callback>) returns (g: GameState)
      modifies this
      ensures instance == g
      ensures old(instance) != null ==> g == old(instance)
      ensures old(instance) == null ==>
        fresh(g) && g.resetCallback == resetCallback && g.timer == timer &&
        g.powerupLocations == [] && g.spawnpoint == null && g.countdown == StartCountdown(timer)
    {
      if instance == null {
        instance := new GameState(resetCallback, timer);
      }
      g := instance;
    }
  }

  /** A powerup collected right after it was added leaves the list as it was, provided the same
      object was not already in it. */
  method AddThenRemove(game: GameState, p: Vector3)
    requires p !in game.powerupLocations
    modifies game
    ensures game.powerupLocations == old(game.powerupLocations)
  {
    game.AddPowerup(p);
    game.RemovePowerup(p);
    WithoutConcat(old(game.powerupLocations), [p], p);
    WithoutAbsent(old(game.powerupLocations), p);
  }
}
