/**
 * The logic of acradio's `RootView`: periodic refresh of the clock and the
 * weather into a new `State`, the two-phase teardown of the player when the
 * chosen track changes, volume stepping, and reset. The wall clock, the
 * weather service and the audio player are inputs: `Clock` values, weather
 * strings and `SetPlayerTime`, through which the audio backend moves the
 * playback position between calls.
 */
module Root {
  import opened Wrappers
  import opened Music
  import opened Fading

  const TimeRefreshInterval: real := 1.0
  const WeatherRefreshInterval: real := 600.0
  const InitialVolume: real := 0.20
  const VolumeStep: real := 0.05

  /** What `arrow.now()` contributes to the state. */
  datatype Clock = Clock(month: int, day: int, hour: int, minute: int)

  /** The keys `on_key_press` distinguishes. */
  datatype KeyPress = KeyR | KeyGrave | KeyMinus | KeyEqual | OtherKey

  /** A playing sound: its file, its playback position and its volume. */
  datatype Player = Player(track: string, time: real, volume: real)

  /** What `update_track` can raise: an error of `choose_track`, or an attribute access on a missing player. */
  datatype RootError = TrackError(error: ChooseError) | NoPlayer

  /** The fields the two-phase teardown works on. */
  datatype Slot = Slot(currentTrack: Option<string>, player: Option<Player>, getReadyToDie: bool, gotReadyToDieTime: real)

  /**
   * One `update_track` after `choose_track` returned `chosen`: start a player
   * when there is none; otherwise arm the teardown on a change of track,
   * recording the player's position, and drop the player once it has played
   * past that position.
   */
  function TrackStep(slot: Slot, chosen: string, volume: real): (next: Slot)
    ensures next.currentTrack == Some(chosen)
    ensures slot.player.None? ==> next.player == Some(Player(chosen, 0.0, volume))
    ensures slot.player.Some? ==> next.player.None? || next.player == slot.player
    ensures slot.getReadyToDie ==> next.getReadyToDie
  {
    if slot.player.None? then
      slot.(currentTrack := Some(chosen), player := Some(Player(chosen, 0.0, volume)))
    else
      var p := slot.player.value;
      var changed := slot.currentTrack != Some(chosen);
      var armed := slot.getReadyToDie || changed;
      var recorded := if changed then p.time else slot.gotReadyToDieTime;
      Slot(Some(chosen), if armed && p.time > recorded then None else Some(p), armed, recorded)
  }

  /** Without a player, a player for the chosen track starts at position 0; the teardown fields are untouched. */
  lemma IdleSlotStartsPlayer(slot: Slot, chosen: string, volume: real)
    requires slot.player.None?
    ensures var next := TrackStep(slot, chosen, volume);
      next.currentTrack == Some(chosen) && next.player == Some(Player(chosen, 0.0, volume))
      && next.getReadyToDie == slot.getReadyToDie && next.gotReadyToDieTime == slot.gotReadyToDieTime
  {
  }

  /** A change of track arms the teardown at the player's position and keeps the player for this call. */
  lemma ChangeArmsTeardown(slot: Slot, chosen: string, volume: real)
    requires slot.player.Some? && slot.currentTrack != Some(chosen)
    ensures var next := TrackStep(slot, chosen, volume);
      next.getReadyToDie && next.gotReadyToDieTime == slot.player.value.time
      && next.player == slot.player && next.currentTrack == Some(chosen)
  {
  }

  /**
   * A player is dropped exactly when the teardown was already armed, the
   * track did not change in this call, and the player has moved past the
   * recorded position.
   */
  lemma ReleaseIffDrained(slot: Slot, chosen: string, volume: real)
    requires slot.player.Some?
    ensures TrackStep(slot, chosen, volume).player.None? <==>
      slot.getReadyToDie && slot.currentTrack == Some(chosen) && slot.player.value.time > slot.gotReadyToDieTime
    ensures TrackStep(slot, chosen, volume).player.Some? ==> TrackStep(slot, chosen, volume).player == slot.player
  {
  }

  /** Nothing in `update_track` clears the teardown flag. */
  lemma TeardownFlagIsSticky(slot: Slot, chosen: string, volume: real)
    requires slot.getReadyToDie
    ensures TrackStep(slot, chosen, volume).getReadyToDie
  {
  }

  /**
   * Because the flag stays set, the player started for the new track is
   * dropped again as soon as its position passes the position recorded for
   * the old one, and restarted from 0 on the next call, although the chosen
   * track never changes.
   */
  lemma {:induction false} StaleFlagCutsNewTrack(a: string, b: string, v: real)
    requires a != b
    ensures var s0 := Slot(Some(a), Some(Player(a, 30.0, v)), false, 0.0);
      var s1 := TrackStep(s0, b, v);
      var s2 := TrackStep(s1.(player := Some(Player(a, 30.5, v))), b, v);
      var s3 := TrackStep(s2, b, v);
      var s4 := TrackStep(s3.(player := Some(Player(b, 31.0, v))), b, v);
      s1.player == Some(Player(a, 30.0, v)) && s2.player.None?
      && s3.player == Some(Player(b, 0.0, v)) && s4.player.None? && s4.currentTrack == Some(b)
  {
  }

  /** MINUS: one step down, never below 0. */
  function Lowered(v: real): (r: real)
    ensures 0.0 <= r
    ensures 0.0 <= v ==> r <= v
    ensures VolumeStep <= v ==> r == v - VolumeStep
  {
    var w := v - VolumeStep;
    if w < 0.0 then 0.0 else w
  }

  /** EQUAL: one step up, never above 1. */
  function Raised(v: real): (r: real)
    ensures r <= 1.0
    ensures v <= 1.0 ==> v <= r
    ensures v <= 1.0 - VolumeStep ==> r == v + VolumeStep
  {
    var w := v + VolumeStep;
    if w > 1.0 then 1.0 else w
  }

  /** Both steps keep the volume in [0, 1]. */
  lemma VolumeStaysInRange(v: real)
    requires 0.0 <= v <= 1.0
    ensures 0.0 <= Lowered(v) <= 1.0 && 0.0 <= Raised(v) <= 1.0
  {
  }

  /** Away from the limits a step down is undone by a step up, and the other way round. */
  lemma VolumeStepsUndo(v: real)
    ensures VolumeStep <= v <= 1.0 ==> Raised(Lowered(v)) == v
    ensures 0.0 <= v <= 1.0 - VolumeStep ==> Lowered(Raised(v)) == v
  {
  }

  /** `int` as the volume fader's `wrap`. */
  function IntWrap(x: real): real
  {
    Truncate(x) as real
  }

  /** The volume fader is `Fader(0, 255, 0, 1, 1, int)`. */
  ghost predicate IsVolumeFader(f: Fader)
  {
    f.minVal == 0.0 && f.maxVal == 255.0 && f.fadeIn == 0.0 && f.hold == 1.0 && f.fadeOut == 1.0
    && f.wrap.Some? && forall x :: f.wrap.value(x) == IntWrap(x)
  }

  /** The volume overlay's alpha is a whole number from 0 to 255. */
  lemma VolumeAlphaIsByte(f: Fader)
    requires IsVolumeFader(f)
    ensures 0.0 <= f.Value() <= 255.0 && f.Value() == (f.Value().Floor) as real
  {
    assert f.Value() == IntWrap(f.ValueAt(f.localTime));
  }

  /** Right after an activation at the fader's own time the overlay is fully opaque. */
  lemma VolumeOverlayShowsOnPress(f: Fader)
    requires IsVolumeFader(f) && f.lastActivation == At(f.localTime)
    ensures f.Value() == 255.0
  {
    InstantFadeInStartsAtMax(f);
    assert f.Value() == IntWrap(255.0);
  }

  /**
   * An activation two or more seconds behind the fader's own clock shows
   * nothing. `setup` sets the view's `local_time` back to 0 but not the
   * fader's, so after a reset the volume keys activate the fader that far in
   * its past and the overlay stays transparent.
   */
  lemma VolumeOverlayHiddenWhenBehind(f: Fader, a: real)
    requires IsVolumeFader(f) && f.lastActivation == At(a) && a + 2.0 <= f.localTime
    ensures f.Value() == 0.0
  {
    RestsAtMinOutsideWindow(f, f.localTime);
    assert f.Value() == IntWrap(0.0);
  }

  /** The state after `get_time`: the clock's date and time, the weather kept. */
  function WithClock(s: State, now: Clock): (w: State)
    ensures w == s.(month := now.month, day := now.day, hour := now.hour, minute := now.minute)
  {
    State(now.month, now.day, now.hour, now.minute, s.weather)
  }

  /** `update_track`'s outcome: an error leaves the slot as it was; a chosen file steps it. */
  predicate TrackOutcome(before: Slot, after: Slot, chosen: Result<string, ChooseError>, volume: real, err: Option<RootError>)
  {
    match chosen
    case Err(e) => err == Some(TrackError(e)) && after == before
    case Ok(path) => err.None? && after == TrackStep(before, path, volume)
  }

  class RootView {
    var state: State
    var localTime: real
    var lastTimeRefresh: real
    var lastWeatherRefresh: real
    var currentTrack: Option<string>
    var player: Option<Player>
    var getReadyToDie: bool
    var gotReadyToDieTime: real
    var volume: real
    var debug: bool
    const volumeFader: Fader
    /** The rule table, loaded once; the view only reads it. */
    const tracks: array<Rule>
    const musicPath: string

    ghost predicate Valid()
      reads this
    {
      0.0 <= volume <= 1.0 && IsVolumeFader(volumeFader)
    }

    function TrackSlot(): Slot
      reads this
    {
      Slot(currentTrack, player, getReadyToDie, gotReadyToDieTime)
    }

    /** `__init__` up to its call of `setup`. */
    constructor (tracks: array<Rule>, musicPath: string)
      ensures Valid() && fresh(volumeFader)
      ensures this.tracks == tracks && this.musicPath == musicPath
      ensures state == State(0, 0, 0, 0, "none")
      ensures localTime == 0.0 && lastTimeRefresh == 0.0 && lastWeatherRefresh == 0.0
      ensures TrackSlot() == Slot(None, None, false, 0.0)
      ensures volume == InitialVolume && !debug
      ensures volumeFader.localTime == 0.0 && volumeFader.lastActivation == NegInf
    {
      state := State(0, 0, 0, 0, "none");
      localTime := 0.0;
      lastTimeRefresh := 0.0;
      lastWeatherRefresh := 0.0;
      currentTrack := None;
      player := None;
      getReadyToDie := false;
      gotReadyToDieTime := 0.0;
      volume := InitialVolume;
      debug := false;
      volumeFader := new Fader(0.0, 255.0, 0.0, 1.0, 1.0, Some(IntWrap));
      this.tracks := tracks;
      this.musicPath := musicPath;
    }

    /** `__init__` in full: construction followed by `setup`, whose error propagates. */
    static method Open(tracks: array<Rule>, musicPath: string, now: Clock, weather: string)
      returns (view: RootView, err: Option<RootError>)
      ensures fresh(view) && fresh(view.volumeFader) && view.Valid()
      ensures view.tracks == tracks && view.musicPath == musicPath
      ensures view.state == State(now.month, now.day, now.hour, now.minute, weather)
      ensures view.localTime == 0.0 && view.lastTimeRefresh == 0.0 && view.lastWeatherRefresh == 0.0
      ensures view.volume == InitialVolume && !view.debug
      ensures view.volumeFader.localTime == 0.0 && view.volumeFader.lastActivation == NegInf
      ensures TrackOutcome(Slot(None, None, false, 0.0), view.TrackSlot(),
                           Choose(view.state, tracks[..], musicPath), view.volume, err)
    {
      view := new RootView(tracks, musicPath);
      err := view.Setup(now, weather);
    }

    /** The audio backend moves the playback position; there is nothing to move without a player. */
    method SetPlayerTime(position: real)
      modifies this`player
      ensures player == if old(player).Some? then Some(old(player).value.(time := position)) else None
    {
      if player.Some? {
        player := Some(player.value.(time := position));
      }
    }

    /**
     * The part of `update_track` after `choose_track` returned `path`: start a
     * player when there is none, otherwise arm the teardown on a change of
     * track and drop the player once it has played past the recorded position.
     */
    method SwitchTo(path: string)
      modifies this`currentTrack, this`player, this`getReadyToDie, this`gotReadyToDieTime
      ensures TrackSlot() == TrackStep(old(TrackSlot()), path, volume)
    {
      var previous := currentTrack;
      currentTrack := Some(path);

      if player.None? {
        player := Some(Player(path, 0.0, volume));
        return;
      }

      if previous != currentTrack {
        getReadyToDie := true;
        gotReadyToDieTime := player.value.time;
      }

      if getReadyToDie && player.value.time > gotReadyToDieTime {
        player := None;
      }
    }

    /** `update_track`: choose a track for the current state; an error propagates before any field changes. */
    method UpdateTrack() returns (err: Option<RootError>)
      modifies this`currentTrack, this`player, this`getReadyToDie, this`gotReadyToDieTime
      ensures TrackOutcome(old(TrackSlot()), TrackSlot(), Choose(state, tracks[..], musicPath), volume, err)
    {
      var chosen := ChooseTrack(state, tracks, musicPath);
      if chosen.Err? {
        return Some(TrackError(chosen.error));
      }
      SwitchTo(chosen.value);
      err := None;
    }

    /** `get_weather` with the service's answer: a new state that keeps date and time. */
    method GetWeather(weather: string)
      modifies this`state, this`lastWeatherRefresh
      ensures state == old(state).(weather := weather)
      ensures lastWeatherRefresh == localTime
    {
      state := State(state.month, state.day, state.hour, state.minute, weather);
      lastWeatherRefresh := localTime;
    }

    /** `get_time` with the clock's reading: a new state that keeps the weather. */
    method GetTime(now: Clock)
      modifies this`state, this`lastTimeRefresh
      ensures state == WithClock(old(state), now)
      ensures lastTimeRefresh == localTime
    {
      state := State(now.month, now.day, now.hour, now.minute, state.weather);
      lastTimeRefresh := localTime;
    }

    /** `setup`: restart the local clock, refresh time and weather, choose a track. */
    method Setup(now: Clock, weather: string) returns (err: Option<RootError>)
      modifies this`localTime, this`state, this`lastTimeRefresh, this`lastWeatherRefresh
      modifies this`currentTrack, this`player, this`getReadyToDie, this`gotReadyToDieTime
      ensures localTime == 0.0 && lastTimeRefresh == 0.0 && lastWeatherRefresh == 0.0
      ensures state == State(now.month, now.day, now.hour, now.minute, weather)
      ensures TrackOutcome(old(TrackSlot()), TrackSlot(), Choose(state, tracks[..], musicPath), volume, err)
    {
      localTime := 0.0;
      GetTime(now);
      GetWeather(weather);
      err := UpdateTrack();
    }

    /**
     * The clock part of `on_update`: advance both clocks, refresh the time
     * when a second has passed since the last refresh and the weather when
     * 600 have. Afterwards neither refresh is overdue.
     */
    method Refresh(deltaTime: real, now: Clock, weather: string)
      requires Valid()
      modifies this`localTime, this`state, this`lastTimeRefresh, this`lastWeatherRefresh
      modifies volumeFader`localTime
      ensures Valid()
      ensures localTime == old(localTime) + deltaTime
      ensures volumeFader.localTime == old(volumeFader.localTime) + deltaTime
      ensures var timeDue := localTime >= old(lastTimeRefresh) + TimeRefreshInterval;
        var weatherDue := localTime >= old(lastWeatherRefresh) + WeatherRefreshInterval;
        var clocked := if timeDue then WithClock(old(state), now) else old(state);
        state == (if weatherDue then clocked.(weather := weather) else clocked)
        && lastTimeRefresh == (if timeDue then localTime else old(lastTimeRefresh))
        && lastWeatherRefresh == (if weatherDue then localTime else old(lastWeatherRefresh))
      ensures localTime < lastTimeRefresh + TimeRefreshInterval
      ensures localTime < lastWeatherRefresh + WeatherRefreshInterval
    {
      localTime := localTime + deltaTime;
      volumeFader.Update(deltaTime);

      if localTime >= lastTimeRefresh + TimeRefreshInterval {
        GetTime(now);
      }

      if localTime >= lastWeatherRefresh + WeatherRefreshInterval {
        GetWeather(weather);
      }
    }

    /** `on_update`: the clock part, then `update_track` on the refreshed state. */
    method OnUpdate(deltaTime: real, now: Clock, weather: string) returns (err: Option<RootError>)
      requires Valid()
      modifies this`localTime, this`state, this`lastTimeRefresh, this`lastWeatherRefresh
      modifies this`currentTrack, this`player, this`getReadyToDie, this`gotReadyToDieTime
      modifies volumeFader`localTime
      ensures Valid()
      ensures localTime == old(localTime) + deltaTime
      ensures volumeFader.localTime == old(volumeFader.localTime) + deltaTime
      ensures var timeDue := localTime >= old(lastTimeRefresh) + TimeRefreshInterval;
        var weatherDue := localTime >= old(lastWeatherRefresh) + WeatherRefreshInterval;
        var clocked := if timeDue then WithClock(old(state), now) else old(state);
        state == (if weatherDue then clocked.(weather := weather) else clocked)
        && lastTimeRefresh == (if timeDue then localTime else old(lastTimeRefresh))
        && lastWeatherRefresh == (if weatherDue then localTime else old(lastWeatherRefresh))
      ensures localTime < lastTimeRefresh + TimeRefreshInterval
      ensures localTime < lastWeatherRefresh + WeatherRefreshInterval
      ensures TrackOutcome(old(TrackSlot()), TrackSlot(), Choose(state, tracks[..], musicPath), volume, err)
    {
      Refresh(deltaTime, now, weather);
      err := UpdateTrack();
    }

    /**
     * `reset`: drop the player (an attribute error when there is none), set
     * the state back to its initial value and run `setup`, which starts a
     * player again. The teardown flag survives.
     */
    method Reset(now: Clock, weather: string) returns (err: Option<RootError>)
      modifies this`localTime, this`state, this`lastTimeRefresh, this`lastWeatherRefresh
      modifies this`currentTrack, this`player, this`getReadyToDie, this`gotReadyToDieTime
      ensures old(player).None? ==> err == Some(NoPlayer) && unchanged(this)
      ensures old(player).Some? ==>
        (localTime == 0.0 && lastTimeRefresh == 0.0 && lastWeatherRefresh == 0.0
         && state == State(now.month, now.day, now.hour, now.minute, weather)
         && TrackOutcome(old(TrackSlot()).(player := None), TrackSlot(), Choose(state, tracks[..], musicPath), volume, err))
    {
      if player.None? {
        return Some(NoPlayer);
      }
      player := None;
      state := State(0, 0, 0, 0, "none");
      err := Setup(now, weather);
    }

    /**
     * `on_key_press`: R resets, GRAVE toggles the debug overlay, MINUS and
     * EQUAL step the volume, pass it to the player and show the volume
     * overlay. Without a player the volume has already changed when the
     * attribute error is raised, and the overlay is not shown.
     */
    method OnKeyPress(key: KeyPress, now: Clock, weather: string) returns (err: Option<RootError>)
      requires Valid()
      modifies this, volumeFader`lastActivation
      ensures Valid()
      ensures key == KeyR && old(player).None? ==> err == Some(NoPlayer) && unchanged(this) && unchanged(volumeFader)
      ensures key == KeyR && old(player).Some? ==>
        (localTime == 0.0 && lastTimeRefresh == 0.0 && lastWeatherRefresh == 0.0
         && state == State(now.month, now.day, now.hour, now.minute, weather)
         && volume == old(volume) && debug == old(debug) && unchanged(volumeFader)
         && TrackOutcome(old(TrackSlot()).(player := None), TrackSlot(), Choose(state, tracks[..], musicPath), volume, err))
      ensures key == KeyGrave ==>
        (err.None? && debug == !old(debug) && volume == old(volume)
         && TrackSlot() == old(TrackSlot()) && state == old(state) && localTime == old(localTime)
         && lastTimeRefresh == old(lastTimeRefresh) && lastWeatherRefresh == old(lastWeatherRefresh)
         && unchanged(volumeFader))
      ensures key == OtherKey ==> err.None? && unchanged(this) && unchanged(volumeFader)
      ensures key == KeyMinus || key == KeyEqual ==>
        (volume == (if key == KeyMinus then Lowered(old(volume)) else Raised(old(volume)))
         && state == old(state) && localTime == old(localTime) && debug == old(debug)
         && lastTimeRefresh == old(lastTimeRefresh) && lastWeatherRefresh == old(lastWeatherRefresh)
         && currentTrack == old(currentTrack) && getReadyToDie == old(getReadyToDie)
         && gotReadyToDieTime == old(gotReadyToDieTime)
         && (old(player).None? ==> err == Some(NoPlayer) && player.None? && unchanged(volumeFader))
         && (old(player).Some? ==> err.None? && player == Some(old(player).value.(volume := volume))
                                   && volumeFader.lastActivation == At(localTime)))
      ensures key != KeyR ==> unchanged(volumeFader`localTime)
    {
      err := None;
      match key
      case KeyR =>
        err := Reset(now, weather);
      case KeyGrave =>
        debug := !debug;
      case KeyMinus =>
        volume := Lowered(volume);
        if player.None? {
          return Some(NoPlayer);
        }
        player := Some(player.value.(volume := volume));
        volumeFader.Activate(localTime);
      case KeyEqual =>
        volume := Raised(volume);
        if player.None? {
          return Some(NoPlayer);
        }
        player := Some(player.value.(volume := volume));
        volumeFader.Activate(localTime);
      case OtherKey =>
    }
  }
}
