/** The game: its state, the input handlers, the stages of one animation frame,
    the reset, and the object that owns all of it.

    Each operation has two forms. A function on `State` says what the operation
    computes, and the lemmas below are about those functions. A method of `Game`
    performs the operation the way the game does, and its postcondition equates
    the new state with that function of the old one. Lengths are in tenths of a
    pixel; score and lives are plain counts; time is in milliseconds. */
module Invaders {
  import opened Geometry
  import opened Sequences
  import Formation
  import Combat

  const PlayerSpeed: int := 50
  const BulletSpeed: int := 60
  const BulletRadius: int := 40
  /** Minimum gap between two accepted shots, in milliseconds. */
  const Cooldown: int := 250
  /** Points per alien hit. */
  const Reward: int := 10
  /** A bullet is kept while its centre's y is greater than -10 pixels. */
  const TopMargin: int := -100
  const StartLives: int := 3

  /** The player's box on load: 40 x 20 pixels, centred, 40 pixels above the bottom. */
  const StartPlayer: Rect := Rect(Width / 2 - 200, Height - 400, 400, 200)

  datatype State = State(
    player: Rect,
    bullets: seq<Bullet>,
    aliens: seq<Rect>,
    dir: int,
    lastFire: int,
    leftHeld: bool,
    rightHeld: bool,
    score: int,
    lives: int,
    playing: bool)

  /** What holds in every state the game reaches: the player keeps its size and row
      and sits at a multiple of 5 pixels between the walls, the formation moves by
      one unit of direction, every alien is 30 x 20, every bullet has radius 4, the
      score is not negative and lives are between 0 and 3. */
  ghost predicate Inv(s: State) {
    && s.player.y == StartPlayer.y && s.player.w == StartPlayer.w && s.player.h == StartPlayer.h
    && 0 <= s.player.x <= Width - s.player.w && s.player.x % PlayerSpeed == 0
    && (s.dir == 1 || s.dir == -1)
    && (forall a :: a in s.aliens ==> a.w == Formation.AlienW && a.h == Formation.AlienH)
    && (forall b :: b in s.bullets ==> b.r == BulletRadius)
    && s.score >= 0
    && 0 <= s.lives <= StartLives
  }

  /** The state once the component has mounted: the grid is built, nothing is playing. */
  function Initial(): State {
    State(StartPlayer, [], Formation.Grid(), 1, 0, false, false, 0, StartLives, false)
  }

  lemma InitialInv()
    ensures Inv(Initial())
  {
    Formation.GridInside();
  }

  // ---------------------------------------------------------------- reset

  /** `startGame`. */
  function Started(s: State): State {
    s.(score := 0, lives := StartLives, player := s.player.(x := Width / 2 - 200),
       bullets := [], dir := 1, aliens := Formation.Grid(), playing := true)
  }

  /** A reset gives score 0, lives 3, the player back at x = 220 pixels on its own row,
      no bullets, direction right, the full fresh grid and a running game; the shot
      clock and the held keys are left as they were, and resetting twice is resetting once. */
  lemma StartedSpec(s: State)
    requires Inv(s)
    ensures var t := Started(s);
      && Inv(t)
      && t.score == 0 && t.lives == 3 && t.playing
      && t.player == s.player.(x := 2200) && t.player.y == 6000
      && t.bullets == [] && t.dir == 1
      && t.aliens == Formation.Grid() && |t.aliens| == 32
      && t.lastFire == s.lastFire && t.leftHeld == s.leftHeld && t.rightHeld == s.rightHeld
      && Started(t) == t
  {
    Formation.GridInside();
  }

  // ---------------------------------------------------------------- input

  /** The key-down handler, for a key identifier and the clock reading `now`. */
  function Pressed(s: State, key: string, now: int): State {
    var s1 := if key == "ArrowLeft" && s.playing then s.(leftHeld := true) else s;
    var s2 := if key == "ArrowRight" && s.playing then s1.(rightHeld := true) else s1;
    if key == " " && s.playing && now - s.lastFire > Cooldown then
      s2.(bullets := s2.bullets + [Bullet(s.player.x + s.player.w / 2, s.player.y, BulletRadius)],
          lastFire := now)
    else s2
  }

  /** The key-up handler. */
  function Released(s: State, key: string): State {
    var s1 := if key == "ArrowLeft" then s.(leftHeld := false) else s;
    if key == "ArrowRight" then s1.(rightHeld := false) else s1
  }

  /** The key handlers' effect cleanup, run whenever `playing` changes. */
  function Cleared(s: State): State {
    s.(leftHeld := false, rightHeld := false)
  }

  /** An arrow flag is set by a key-down only while playing; key-up and the cleanup
      clear flags whatever the game is doing. A key-down other than the space bar changes
      nothing but the flags, so any other key is ignored; key-up and the cleanup change
      nothing but the flags either. */
  lemma HeldKeys(s: State, key: string, now: int)
    ensures Pressed(s, key, now).leftHeld == (s.leftHeld || (key == "ArrowLeft" && s.playing))
    ensures Pressed(s, key, now).rightHeld == (s.rightHeld || (key == "ArrowRight" && s.playing))
    ensures key != " " ==>
      Pressed(s, key, now) == s.(leftHeld := Pressed(s, key, now).leftHeld, rightHeld := Pressed(s, key, now).rightHeld)
    ensures Released(s, key).leftHeld == (s.leftHeld && key != "ArrowLeft")
    ensures Released(s, key).rightHeld == (s.rightHeld && key != "ArrowRight")
    ensures !Cleared(s).leftHeld && !Cleared(s).rightHeld
    ensures Released(s, key) == s.(leftHeld := Released(s, key).leftHeld, rightHeld := Released(s, key).rightHeld)
    ensures Cleared(s) == s.(leftHeld := false, rightHeld := false)
  {
  }

  /** Fire: a press of the space bar appends exactly one bullet, last, at the player's
      centre and row with radius 4 and sets the shot clock to `now`, exactly when the
      game is playing and more than 250 ms have passed since the last accepted shot (a
      gap of exactly 250 ms is refused); otherwise the bullets and the clock stay. */
  lemma FireRule(s: State, now: int)
    requires Inv(s)
    ensures var t := Pressed(s, " ", now);
      && (s.playing && now - s.lastFire > Cooldown ==>
            t.bullets == s.bullets + [Bullet(s.player.x + 200, 6000, 40)] && t.lastFire == now)
      && (!(s.playing && now - s.lastFire > Cooldown) ==>
            t.bullets == s.bullets && t.lastFire == s.lastFire)
      && t == s.(bullets := t.bullets, lastFire := t.lastFire)
  {
  }

  /** Two presses of the space bar at most 250 ms apart add at most one bullet. */
  lemma CooldownSpacing(s: State, t1: int, t2: int)
    requires t1 <= t2 <= t1 + Cooldown
    ensures |Pressed(Pressed(s, " ", t1), " ", t2).bullets| <= |s.bullets| + 1
  {
  }

  /** After a game has ended and the cleanup has run, key-downs cannot leave a movement
      key held until the next game starts. */
  lemma NoStuckKeys(s: State, key: string, now: int)
    requires !s.playing
    ensures !Pressed(Cleared(s), key, now).leftHeld && !Pressed(Cleared(s), key, now).rightHeld
  {
  }

  lemma InputKeepsInv(s: State, key: string, now: int)
    requires Inv(s)
    ensures Inv(Pressed(s, key, now)) && Inv(Released(s, key)) && Inv(Cleared(s))
  {
  }

  // ---------------------------------------------------------------- one frame

  /** Stage 1: the player moves 5 pixels left if left is held and it is not at the left
      wall, then 5 pixels right if right is held and it is not at the right wall; only
      while playing. */
  function Moved(s: State): State {
    if !s.playing then s
    else
      var x1 := if s.leftHeld && s.player.x > 0 then s.player.x - PlayerSpeed else s.player.x;
      var x2 := if s.rightHeld && x1 < Width - s.player.w then x1 + PlayerSpeed else x1;
      s.(player := s.player.(x := x2))
  }

  /** Player movement never leaves [0, 440] pixels and keeps x on the 5-pixel grid;
      only x changes, by at most one speed, and not at all while the game is not playing. */
  lemma PlayerStaysInField(s: State)
    requires Inv(s)
    ensures var t := Moved(s);
      && Inv(t)
      && 0 <= t.player.x <= 4400 && t.player.x % 50 == 0
      && t == s.(player := s.player.(x := t.player.x))
      && -PlayerSpeed <= t.player.x - s.player.x <= PlayerSpeed
      && (!s.playing ==> t == s)
  {
  }

  /** While playing, a single held arrow moves the player one step that way unless it is
      already at that wall, where it stays; with both held it steps left then back right,
      so it stays put away from the walls and moves right off the left wall. */
  lemma PlayerMoves(s: State)
    requires Inv(s) && s.playing
    ensures s.leftHeld && !s.rightHeld ==>
      Moved(s).player.x == if s.player.x > 0 then s.player.x - 50 else 0
    ensures s.rightHeld && !s.leftHeld ==>
      Moved(s).player.x == if s.player.x < 4400 then s.player.x + 50 else 4400
    ensures s.leftHeld && s.rightHeld ==>
      Moved(s).player.x == if s.player.x > 0 then s.player.x else 50
    ensures !s.leftHeld && !s.rightHeld ==> Moved(s) == s
  {
  }

  /** Stage 2: the formation sweep, bounce and step down. */
  function Marched(s: State): State {
    var m := Formation.March(s.aliens, s.dir);
    s.(aliens := m.aliens, dir := m.dir)
  }

  /** Every bullet moved up by one bullet speed. */
  function Raised(bs: seq<Bullet>): (r: seq<Bullet>)
    ensures |r| == |bs|
  {
    seq(|bs|, i requires 0 <= i < |bs| => bs[i].(y := bs[i].y - BulletSpeed))
  }

  predicate InFlight(b: Bullet) {
    b.y > TopMargin
  }

  /** Stage 3: bullets move up, and those that left the top are dropped. */
  function Advanced(s: State): State {
    s.(bullets := Filter(Raised(s.bullets), InFlight))
  }

  /** Each bullet's y decreases by 6 pixels with x and r kept, and the bullets kept are
      exactly those whose new y is above -10 pixels, in their original order. */
  lemma AdvancedSpec(s: State)
    ensures forall i :: 0 <= i < |s.bullets| ==>
      Raised(s.bullets)[i] == Bullet(s.bullets[i].x, s.bullets[i].y - 60, s.bullets[i].r)
    ensures exists f ::
      Embeds(f, Advanced(s).bullets, Raised(s.bullets)) &&
      forall i :: 0 <= i < |s.bullets| ==> (Raised(s.bullets)[i].y > -100 <==> i in f)
    ensures Advanced(s) == s.(bullets := Advanced(s).bullets)
  {
    FilterSelects(Raised(s.bullets), InFlight);
    var f :| Embeds(f, Advanced(s).bullets, Raised(s.bullets)) &&
      forall i :: 0 <= i < |Raised(s.bullets)| ==> (InFlight(Raised(s.bullets)[i]) <==> i in f);
    assert forall i :: 0 <= i < |s.bullets| ==> (Raised(s.bullets)[i].y > -100 <==> i in f);
  }

  /** Stage 4: the bullet-alien pass, 10 points a hit. */
  function Shot(s: State): State {
    var v := Combat.HitPass(s.bullets, s.aliens);
    s.(bullets := v.bullets, aliens := v.aliens, score := s.score + Reward * v.hits)
  }

  /** Each hit removes exactly one alien and scores exactly 10; no more bullets go than
      there are hits; neither list grows; survivors keep their order; the score never drops. */
  lemma ShotSpec(s: State)
    ensures var t := Shot(s);
      && t.score - s.score == 10 * (|s.aliens| - |t.aliens|)
      && t.score >= s.score
      && |t.bullets| <= |s.bullets|
      && 10 * (|s.bullets| - |t.bullets|) <= t.score - s.score
      && IsSubseq(t.aliens, s.aliens) && IsSubseq(t.bullets, s.bullets)
      && t == s.(bullets := t.bullets, aliens := t.aliens, score := t.score)
  {
    Combat.HitPassCounts(s.bullets, s.aliens);
  }

  /** Stage 5: the alien-player and bottom pass. */
  function Crashed(s: State): State {
    var c := Combat.CrashPass(s.aliens, s.player, s.lives);
    s.(aliens := c.aliens, lives := c.lives)
  }

  predicate OnField(a: Rect) {
    a.y < Height
  }

  /** Stage 6: aliens below the bottom edge are dropped. */
  function Purged(s: State): State {
    s.(aliens := Filter(s.aliens, OnField))
  }

  /** The purge keeps exactly the aliens above y = 640 pixels, in their order. */
  lemma PurgedSpec(s: State)
    ensures exists f ::
      Embeds(f, Purged(s).aliens, s.aliens) &&
      forall i :: 0 <= i < |s.aliens| ==> (s.aliens[i].y < 6400 <==> i in f)
    ensures Purged(s) == s.(aliens := Purged(s).aliens)
  {
    FilterSelects(s.aliens, OnField);
    var f :| Embeds(f, Purged(s).aliens, s.aliens) &&
      forall i :: 0 <= i < |s.aliens| ==> (OnField(s.aliens[i]) <==> i in f);
    assert forall i :: 0 <= i < |s.aliens| ==> (s.aliens[i].y < 6400 <==> i in f);
  }

  /** Stage 7: the continuation test; a failed test ends the game. */
  function Settled(s: State): State {
    if s.lives > 0 && |s.aliens| > 0 then s else s.(playing := false)
  }

  /** One animation frame. */
  function Step(s: State): State {
    Settled(Purged(Crashed(Shot(Advanced(Marched(Moved(s)))))))
  }

  /** The state right before the alien-player pass of a frame. */
  function BeforeCrash(s: State): State {
    Shot(Advanced(Marched(Moved(s))))
  }

  lemma BeforeCrashSpec(s: State)
    requires Inv(s)
    ensures var u := BeforeCrash(s);
      && Inv(u)
      && u.lives == s.lives && u.player == Moved(s).player && u.playing == s.playing
      && u.score >= s.score
      && |u.aliens| <= |s.aliens|
  {
    PlayerStaysInField(s);
    var m := Marched(Moved(s));
    Formation.MarchSpec(Moved(s).aliens, Moved(s).dir);
    assert forall a :: a in m.aliens ==> a.w == Formation.AlienW && a.h == Formation.AlienH by {
      forall a | a in m.aliens
        ensures a.w == Formation.AlienW && a.h == Formation.AlienH
      {
        var i :| 0 <= i < |m.aliens| && m.aliens[i] == a;
        assert Moved(s).aliens[i] in Moved(s).aliens;
      }
    }
    var adv := Advanced(m);
    assert forall b :: b in Raised(m.bullets) ==> b.r == BulletRadius;
    var u := Shot(adv);
    ShotSpec(adv);
    SubseqMembers(u.aliens, adv.aliens);
    SubseqMembers(u.bullets, adv.bullets);
  }

  /** The alien-player pass and the purge keep every alien's size. */
  lemma CrashKeepsSizes(u: State)
    requires Inv(u)
    ensures forall a :: a in Purged(Crashed(u)).aliens ==> a.w == Formation.AlienW && a.h == Formation.AlienH
  {
    Combat.CrashPassSpec(u.aliens, u.player, u.lives);
    var c := Crashed(u);
    assert forall a :: a in c.aliens ==> a.w == Formation.AlienW && a.h == Formation.AlienH by {
      forall a | a in c.aliens
        ensures a.w == Formation.AlienW && a.h == Formation.AlienH
      {
        var i :| 0 <= i < |c.aliens| && c.aliens[i] == a;
        assert u.aliens[i] in u.aliens;
      }
    }
  }

  /** A frame keeps every invariant of the game. */
  lemma StepPreservesInv(s: State)
    requires Inv(s)
    ensures Inv(Step(s))
  {
    var u := BeforeCrash(s);
    BeforeCrashSpec(s);
    CrashKeepsSizes(u);
    Combat.CrashPassSpec(u.aliens, u.player, u.lives);
    assert Crashed(u).lives == u.lives || Crashed(u).lives == 0;
  }

  /** Lives in one frame: if, once the bullets have hit, no alien touches the player or
      reaches the bottom, lives do not change; otherwise lives end at exactly 0 and the
      game stops this frame, however many lives there were and however many aliens remain. */
  lemma StepLives(s: State)
    requires Inv(s)
    ensures var u := BeforeCrash(s);
      && ((forall k :: 0 <= k < |u.aliens| ==> !Combat.Fatal(u.aliens[k], u.player)) ==>
            Step(s).lives == s.lives)
      && ((exists k :: 0 <= k < |u.aliens| && Combat.Fatal(u.aliens[k], u.player)) ==>
            Step(s).lives == 0 && !Step(s).playing)
      && (Step(s).lives == s.lives || Step(s).lives == 0)
  {
    var u := BeforeCrash(s);
    BeforeCrashSpec(s);
    Combat.CrashPassSpec(u.aliens, u.player, u.lives);
  }

  /** With no alien touching the player or the bottom, no alien moves in the
      alien-player pass. */
  lemma CrashIdle(s: State)
    requires forall a :: a in s.aliens ==> a.h >= 0
    requires forall k :: 0 <= k < |s.aliens| ==> !Combat.Fatal(s.aliens[k], s.player)
    ensures Crashed(s) == s
  {
    Combat.CrashPassSpec(s.aliens, s.player, s.lives);
    assert Crashed(s).aliens == s.aliens;
  }

  /** The game goes on after a frame exactly when it was playing, lives remain and
      aliens remain. Score never drops and aliens never come back within a frame. */
  lemma StepSession(s: State)
    requires Inv(s)
    ensures Step(s).playing <==> s.playing && Step(s).lives > 0 && |Step(s).aliens| > 0
    ensures Step(s).score >= s.score
    ensures |Step(s).aliens| <= |s.aliens|
  {
    var u := BeforeCrash(s);
    BeforeCrashSpec(s);
    Combat.CrashPassSpec(u.aliens, u.player, u.lives);
  }

  /** A frame with no bullets, no held keys and every alien far enough above the player
      that one drop cannot reach it only moves the formation. */
  lemma QuietStep(s: State)
    requires Inv(s) && s.playing && !s.leftHeld && !s.rightHeld && s.bullets == []
    requires s.lives > 0 && s.aliens != []
    requires forall a :: a in s.aliens ==> a.y + a.h + Formation.Drop <= s.player.y
    ensures Step(s) == Marched(s)
  {
    assert Moved(s) == s;
    var m := Marched(s);
    Formation.MarchSpec(s.aliens, s.dir);
    assert forall k :: 0 <= k < |m.aliens| ==> s.aliens[k] in s.aliens;
    assert Advanced(m) == m;
    Combat.HitPassIdle(m.bullets, m.aliens);
    assert Shot(m) == m;
    assert forall a :: a in m.aliens ==> a.h >= 0;
    CrashIdle(m);
    FilterAll(m.aliens, OnField);
    assert Purged(m) == m;
  }

  /** A fresh game whose grid has moved d to the right, and nothing else has happened. */
  function Drifted(s: State, d: int): State {
    Started(s).(aliens := Formation.Shifted(Formation.Grid(), d))
  }

  /** One quiet frame of a drifted fresh game moves the grid 1.2 pixels further right,
      without a bounce while its right edge stays within the field. */
  lemma DriftStep(s: State, d: int)
    requires Inv(s) && !s.leftHeld && !s.rightHeld
    requires 0 <= d <= 1288
    ensures Step(Drifted(s, d)) == Drifted(s, d + 12)
  {
    var u := Drifted(s, d);
    StartedSpec(s);
    Formation.ShiftedGridRows(d);
    assert Inv(u);
    QuietStep(u);
    Formation.ShiftedTwice(Formation.Grid(), d, 12);
    Formation.GridBreach(d + 12);
  }

  lemma DriftStepTo(s: State, d: int, e: int)
    requires Inv(s) && !s.leftHeld && !s.rightHeld
    requires 0 <= d <= 1288 && e == d + 12
    ensures Step(Drifted(s, d)) == Drifted(s, e)
  {
    DriftStep(s, d);
  }

  /** The quiet frame that crosses the right wall: the grid drops 20 pixels and turns left. */
  lemma BounceStep(s: State)
    requires Inv(s) && !s.leftHeld && !s.rightHeld
    ensures Step(Drifted(s, 1296)) ==
      Started(s).(aliens := Formation.Lowered(Formation.Shifted(Formation.Grid(), 1308), 200), dir := -1)
  {
    var u := Drifted(s, 1296);
    StartedSpec(s);
    Formation.ShiftedGridRows(1296);
    assert Inv(u);
    QuietStep(u);
    Formation.ShiftedTwice(Formation.Grid(), 1296, 12);
    Formation.GridBreach(1308);
  }

  lemma DriftZero(s: State, d: int)
    requires d == 0
    ensures Drifted(s, d) == Started(s)
  {
    Formation.ShiftedZero(Formation.Grid());
  }

  // ---------------------------------------------------------------- the owned state

  /** The component's refs and state cells, owned by one object. */
  class Game {
    var player: Rect
    var bullets: seq<Bullet>
    var aliens: seq<Rect>
    var alienDir: int
    var lastFire: int
    var leftHeld: bool
    var rightHeld: bool
    var score: int
    var lives: int
    var playing: bool

    function Snapshot(): State
      reads this
    {
      State(player, bullets, aliens, alienDir, lastFire, leftHeld, rightHeld, score, lives, playing)
    }

    ghost predicate Valid()
      reads this
    {
      Inv(Snapshot())
    }

    /** The initial refs and state cells, then the mount effect that builds the grid. */
    constructor ()
      ensures Valid() && Snapshot() == Initial()
    {
      player := StartPlayer;
      bullets := [];
      alienDir := 1;
      lastFire := 0;
      leftHeld, rightHeld := false, false;
      score := 0;
      lives := StartLives;
      playing := false;
      var grid := Formation.Build();
      aliens := grid;
      new;
      InitialInv();
    }

    method KeyDown(key: string, now: int)
      requires Valid()
      modifies this
      ensures Valid()
      ensures Snapshot() == Pressed(old(Snapshot()), key, now)
    {
      if key == "ArrowLeft" && playing {
        leftHeld := true;
      }
      if key == "ArrowRight" && playing {
        rightHeld := true;
      }
      if key == " " && playing {
        if now - lastFire > Cooldown {
          bullets := bullets + [Bullet(player.x + player.w / 2, player.y, BulletRadius)];
          lastFire := now;
        }
      }
      InputKeepsInv(old(Snapshot()), key, now);
    }

    method KeyUp(key: string)
      requires Valid()
      modifies this
      ensures Valid()
      ensures Snapshot() == Released(old(Snapshot()), key)
    {
      if key == "ArrowLeft" {
        leftHeld := false;
      }
      if key == "ArrowRight" {
        rightHeld := false;
      }
    }

    method ReleaseKeys()
      requires Valid()
      modifies this
      ensures Valid()
      ensures Snapshot() == Cleared(old(Snapshot()))
    {
      leftHeld := false;
      rightHeld := false;
    }

    method StartGame()
      requires Valid()
      modifies this
      ensures Valid()
      ensures Snapshot() == Started(old(Snapshot()))
    {
      score := 0;
      lives := StartLives;
      player := player.(x := Width / 2 - 200);
      bullets := [];
      alienDir := 1;
      aliens := Formation.Build();
      playing := true;
      StartedSpec(old(Snapshot()));
    }

    /** One animation frame: the seven stages in order. Frames are only scheduled while
        a game is playing. `scheduled` tells whether the next frame is requested. */
    method Tick() returns (scheduled: bool)
      requires Valid() && playing
      modifies this
      ensures Valid()
      ensures Snapshot() == Step(old(Snapshot()))
      ensures scheduled <==> lives > 0 && |aliens| > 0
    {
      MovePlayer();
      MoveFormation();
      AdvanceBullets();
      ResolveHits();
      ResolveCrashes();
      Purge();
      scheduled := Continue();
      StepPreservesInv(old(Snapshot()));
    }

    method MovePlayer()
      modifies this
      ensures Snapshot() == Moved(old(Snapshot()))
    {
      if playing {
        if leftHeld && player.x > 0 {
          player := player.(x := player.x - PlayerSpeed);
        }
        if rightHeld && player.x < Width - player.w {
          player := player.(x := player.x + PlayerSpeed);
        }
      }
    }

    /** Stage 2: the sideways `forEach`, the bounce test, and the downward `forEach`. */
    method MoveFormation()
      modifies this
      ensures Snapshot() == Marched(old(Snapshot()))
    {
      ghost var dir := alienDir;
      ShiftFormation();
      ghost var moved := aliens;
      var moveDown := false;
      if Formation.Breaches(aliens) {
        alienDir := alienDir * -1;
        moveDown := true;
      }
      if moveDown {
        LowerFormation();
        assert Formation.March(old(aliens), dir) == Formation.Sweep(aliens, alienDir);
      } else {
        assert Formation.March(old(aliens), dir) == Formation.Sweep(aliens, alienDir);
      }
    }

    /** Every alien moves sideways by one step in the current direction. */
    method ShiftFormation()
      modifies this
      ensures aliens == Formation.Shifted(old(aliens), alienDir * Formation.Speed)
      ensures Snapshot() == old(Snapshot()).(aliens := aliens)
    {
      var i := 0;
      while i < |aliens|
        invariant 0 <= i <= |aliens| == |old(aliens)|
        invariant forall k :: 0 <= k < i ==> aliens[k] == old(aliens)[k].(x := old(aliens)[k].x + alienDir * Formation.Speed)
        invariant forall k :: i <= k < |aliens| ==> aliens[k] == old(aliens)[k]
        invariant Snapshot() == old(Snapshot()).(aliens := aliens)
      {
        aliens := aliens[i := aliens[i].(x := aliens[i].x + alienDir * Formation.Speed)];
        i := i + 1;
      }
    }

    /** Every alien steps down by the drop. */
    method LowerFormation()
      modifies this
      ensures aliens == Formation.Lowered(old(aliens), Formation.Drop)
      ensures Snapshot() == old(Snapshot()).(aliens := aliens)
    {
      var i := 0;
      while i < |aliens|
        invariant 0 <= i <= |aliens| == |old(aliens)|
        invariant forall k :: 0 <= k < i ==> aliens[k] == old(aliens)[k].(y := old(aliens)[k].y + Formation.Drop)
        invariant forall k :: i <= k < |aliens| ==> aliens[k] == old(aliens)[k]
        invariant Snapshot() == old(Snapshot()).(aliens := aliens)
      {
        aliens := aliens[i := aliens[i].(y := aliens[i].y + Formation.Drop)];
        i := i + 1;
      }
    }

    method AdvanceBullets()
      modifies this
      ensures Snapshot() == Advanced(old(Snapshot()))
    {
      ghost var start := bullets;
      var i := 0;
      while i < |bullets|
        invariant 0 <= i <= |bullets| == |start|
        invariant forall k :: 0 <= k < i ==> bullets[k] == start[k].(y := start[k].y - BulletSpeed)
        invariant forall k :: i <= k < |bullets| ==> bullets[k] == start[k]
        invariant Snapshot().(bullets := start) == old(Snapshot())
      {
        bullets := bullets[i := bullets[i].(y := bullets[i].y - BulletSpeed)];
        i := i + 1;
      }
      assert bullets == Raised(start);
      bullets := Filter(bullets, InFlight);
    }

    /** The bullet-alien pass as written: `splice` on both lists inside nested `forEach`. */
    method ResolveHits()
      modifies this
      ensures Snapshot() == Shot(old(Snapshot()))
    {
      ghost var hits: nat := 0;
      var lenB := |bullets|;
      var bi := 0;
      while bi < lenB
        invariant 0 <= bi <= lenB
        invariant Combat.BulletScan(bi, lenB, Combat.Volley(bullets, aliens, hits)) ==
                  Combat.HitPass(old(bullets), old(aliens))
        invariant score == old(score) + Reward * hits
        invariant Snapshot().(bullets := old(bullets), aliens := old(aliens), score := old(score)) == old(Snapshot())
      {
        if bi < |bullets| {
          var b := bullets[bi];
          ghost var entry := Combat.Volley(bullets, aliens, hits);
          var lenA := |aliens|;
          var ai := 0;
          while ai < lenA
            invariant 0 <= ai <= lenA
            invariant Combat.AlienScan(b, bi, ai, lenA, Combat.Volley(bullets, aliens, hits)) ==
                      Combat.AlienScan(b, bi, 0, lenA, entry)
            invariant score == old(score) + Reward * hits
            invariant Snapshot().(bullets := old(bullets), aliens := old(aliens), score := old(score)) == old(Snapshot())
          {
            if ai < |aliens| && Collide(Probe(b), aliens[ai]) {
              aliens := RemoveAt(aliens, ai);
              bullets := Splice(bullets, bi);
              score := score + Reward;
              hits := hits + 1;
            }
            ai := ai + 1;
          }
        }
        bi := bi + 1;
      }
    }

    /** The alien-player and bottom pass. */
    method ResolveCrashes()
      modifies this
      ensures Snapshot() == Crashed(old(Snapshot()))
    {
      var i := 0;
      while i < |aliens|
        invariant 0 <= i <= |aliens|
        invariant Combat.CrashScan(i, player, Combat.Crash(aliens, lives)) ==
                  Combat.CrashPass(old(aliens), old(player), old(lives))
        invariant Snapshot().(aliens := old(aliens), lives := old(lives)) == old(Snapshot())
      {
        ghost var entry := Combat.Crash(aliens, lives);
        var a := aliens[i];
        if Collide(Box(a), player) {
          lives := lives - 1;
          a := a.(y := Combat.Sunk);
          aliens := aliens[i := a];
        } else {
          assert aliens == aliens[i := a];
        }
        if a.y + a.h >= Height {
          lives := 0;
        }
        assert Combat.CrashScan(i, player, entry) == Combat.CrashScan(i + 1, player, Combat.Crash(aliens, lives));
        i := i + 1;
      }
    }

    method Purge()
      modifies this
      ensures Snapshot() == Purged(old(Snapshot()))
    {
      aliens := Filter(aliens, OnField);
    }

    method Continue() returns (scheduled: bool)
      modifies this
      ensures Snapshot() == Settled(old(Snapshot()))
      ensures scheduled <==> lives > 0 && |aliens| > 0
    {
      scheduled := lives > 0 && |aliens| > 0;
      if !scheduled {
        playing := false;
      }
    }
  }

  /** Space-bar presses in a new game at clock readings t, t + 100, t + 260, t + 400,
      t + 510 and t + 511 ms, counting the bullets after each. The clock is the wall clock,
      so t is far above the shot clock's initial 0 and the first press fires; the press
      100 ms later is too soon; 260 ms after the first shot fires again; 140 ms after
      that is too soon; exactly 250 ms after it is refused; 251 ms after it fires. */
  method FireScenario(t: int) returns (counts: seq<int>)
    requires t > Cooldown
    ensures counts == [1, 1, 2, 2, 2, 3]
  {
    var g := new Game();
    g.StartGame();
    counts := [];
    var times := [t, t + 100, t + 260, t + 400, t + 510, t + 511];
    for i := 0 to |times|
      invariant g.Valid() && g.playing && |counts| == i
      invariant i == 0 ==> g.bullets == [] && g.lastFire == 0 && counts == []
      invariant i == 1 ==> |g.bullets| == 1 && g.lastFire == t && counts == [1]
      invariant i == 2 ==> |g.bullets| == 1 && g.lastFire == t && counts == [1, 1]
      invariant i == 3 ==> |g.bullets| == 2 && g.lastFire == t + 260 && counts == [1, 1, 2]
      invariant i == 4 ==> |g.bullets| == 2 && g.lastFire == t + 260 && counts == [1, 1, 2, 2]
      invariant i == 5 ==> |g.bullets| == 2 && g.lastFire == t + 260 && counts == [1, 1, 2, 2, 2]
      invariant i == 6 ==> |g.bullets| == 3 && g.lastFire == t + 511 && counts == [1, 1, 2, 2, 2, 3]
    {
      g.KeyDown(" ", times[i]);
      counts := counts + [|g.bullets|];
    }
  }

  /** A new game with no keys held and no shots fired, run frame by frame: the formation
      sweeps right 1.2 pixels a frame for 108 frames without bouncing, every frame asking
      for the next; frame 109 carries it past the right wall, so it drops 20 pixels and
      turns left. Score, lives, the player and the session are untouched throughout. */
  method FirstSweep(g: Game)
    requires g.Valid() && !g.leftHeld && !g.rightHeld
    modifies g
    ensures g.Valid()
    ensures g.Snapshot() == Started(old(g.Snapshot())).(
      aliens := Formation.Lowered(Formation.Shifted(Formation.Grid(), 1308), 200), dir := -1)
  {
    ghost var s := g.Snapshot();
    g.StartGame();
    DriftZero(s, 0);
    var frame := 0;
    while frame < 108
      invariant 0 <= frame <= 108
      invariant g.Valid() && g.Snapshot() == Drifted(s, 12 * frame)
    {
      DriftStepTo(s, 12 * frame, 12 * (frame + 1));
      var scheduled := g.Tick();
      assert scheduled;
      frame := frame + 1;
    }
    BounceStep(s);
    var scheduled := g.Tick();
  }
}
