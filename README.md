# acradio core in Dafny

acradio is an ambient desktop radio. It picks a background track from a
rule table, based on the date, the time of day and the weather, and keeps
that choice up to date while the window runs. This project models its
sequential logic and proves properties of it:

- **Track selector** (`music.dfy`, module `Music`). It models
  `acradio/core/music.py`:
  - the context `State` and its HHMM `time`;
  - priority defaulting in `load_tracks`, as an in-place loop over an array of rules;
  - `choose_track`, as written. The candidate scan is the nested loop of the
    source, over an array it only reads. The cull, the stable `sorted` by
    `(time, priority)` and "take the last" are functions. `Choose` is the
    specification; the lemmas beside it prove what the result means.
- **Fader** (`fading.dfy`, module `Fading`). It models
  `acradio/lib/fader.py`: a class with the two mutable fields `localTime`
  and `lastActivation`. The initial `-inf` activation is the instant `NegInf`.
  The piecewise envelope `ValueAt` and the optional `wrap` are both modelled.
- **Root controller** (`root.dfy`, module `Root`). It models the logic of
  `RootView` in `acradio/views/root.py`:
  - the two-phase teardown of the player in `update_track`;
  - refresh scheduling in `on_update`;
  - the `State` rebuilds in `get_time` and `get_weather`;
  - `setup` and `reset`;
  - the key handler, including volume stepping and clamping.

  The wall clock, the weather service and the audio player's moving playback
  position are inputs: a `Clock` value, a weather string, and
  `SetPlayerTime`. The player is an optional record holding a track, a
  playback time and a volume.
- **Background gradients** (`background.dfy`, module `Background`). It models
  `acradio/core/background.py`:
  - the constant hour → colour-stop table, with its well-formedness proved for every hour;
  - the strip layout that `GradientRect.draw` computes, as a function returning the strips.
- `wrappers.dfy` holds the `Option` and `Result` types.

Python errors become values:
- **`choose_track`:** `ValueError` becomes `NoValidTrack`, and a `KeyError`
  from the sort key becomes `MissingKey`.
- **A missing player:** using `player` when it is `None` raises an
  `AttributeError` in the source (in `reset` and in the volume keys). This
  becomes `NoPlayer`.
- **Methods that can fail** return `Option<RootError>`.

Behaviour of the code as written that the model makes explicit:
- **The candidate filter is an OR.** One matching month, day or weather field
  is enough. A rule without `time` is compared as 2500, so on a real clock
  reading it never survives the cull. A rule with only `time`/`priority`
  keys is never a candidate. `ThreeRuleTableRaises` shows the effect: a
  table in which no rule has both a matching field and a time raises
  `ValueError`.
- **The teardown flag is never cleared** (`TeardownFlagIsSticky`). After one
  change of track, the player started for the new track is dropped as soon
  as it plays past the position recorded for the old one. It is then
  restarted from 0 on the next update, although the chosen track no longer
  changes (`StaleFlagCutsNewTrack`).
- **`setup` resets the view's `local_time` but not the volume fader's.**
  After a reset, the volume keys activate the fader at a time that lies in
  the fader's past. Once the view is 2 s or more behind, the volume overlay
  stays transparent (`VolumeOverlayHiddenWhenBehind`).

## Model

| member | source | states |
|---|---|---|
| `Music.State.Time` | acradio/core/music.py:27-29 | on a clock reading the time lies in 0..2359 and decodes back to the hour (`/ 100`) and the minute (`% 100`) |
| `Music.TimeOrdersClock` | acradio/core/music.py:27-29 | on clock readings, comparing HHMM times is comparing (hour, minute) lexicographically, both directions |
| `Music.WithDefaultPriority` | acradio/core/music.py:34-36 | the result always has a priority; a missing one becomes 0, an existing one is kept, and no other key changes |
| `Music.LoadTracks` | acradio/core/music.py:31-37 | every rule of the table, in place, becomes its priority-defaulted version; afterwards every rule has a priority |
| `Music.CandidateByKeys` | acradio/core/music.py:45-51 | scanning all keys of a rule and skipping `time`/`priority` finds a matching key iff one of month, day, weather equals the state's field |
| `Music.TimeOnlyRuleNeverCandidate` | acradio/core/music.py:45-51 | a rule with no month, day or weather key is never a candidate |
| `Music.Candidates` | acradio/core/music.py:42-51 | the candidates are exactly the table's rules that match on at least one field, none added |
| `Music.NoTimeNeverSurvives` | acradio/core/music.py:54 | on a clock reading, a rule without `time` (default 2500) never survives the cull |
| `Music.Cull` | acradio/core/music.py:54 | keeps exactly the candidates whose time, defaulting to 2500, is not later than the state's time |
| `Music.EligibleIndices` | acradio/core/music.py:45-54 | the table positions of the rules passing both filters, strictly increasing, with every such position present |
| `Music.CullAppend` | acradio/core/music.py:54 | the cull keeps or drops each rule on its own, so it distributes over concatenation and keeps order |
| `Music.SurvivorsSnoc` | acradio/core/music.py:45-54 | one more rule at the end of the table adds it at the end of the survivors exactly when it passes both filters |
| `Music.SurvivorsFollowTable` | acradio/core/music.py:45-54 | the survivors keep table order: the k-th survivor is the rule at the k-th eligible table position |
| `Music.Survivors` | acradio/core/music.py:45-54 | a rule survives both filters iff it is in the table, is a candidate and passes the cull |
| `Music.KeyOf` | acradio/core/music.py:57 | the key exists iff the rule has both `time` and `priority`; a missing `time` is reported before a missing `priority`; the key's first part is the rule's time |
| `Music.KeyAll` | acradio/core/music.py:57 | all sort keys are computed before any comparison; it succeeds iff every survivor has `time` and `priority`, and then keys each one in order; an error names `time` or `priority` |
| `Music.Insert` | acradio/core/music.py:57 | insertion adds exactly the one element: the result is a permutation of the input plus `x` |
| `Music.InsertKeepsSorted` | acradio/core/music.py:57 | inserting into a sorted sequence keeps it sorted by (time, priority) |
| `Music.StableSort` | acradio/core/music.py:57 | the sort returns a permutation of its input of the same length |
| `Music.StableSortIsSortedPermutation` | acradio/core/music.py:57 | the sort's result is ordered by (time, priority) and is a permutation of the input |
| `Music.LastMaxIndex` | acradio/core/music.py:57-62 | the reference choice is the last position holding a maximal key: no key beats it, every later key is strictly smaller |
| `Music.LastMaxIsUnique` | acradio/core/music.py:57-62 | at most one position is the last maximal one |
| `Music.LastOfInsert` | acradio/core/music.py:57 | inserting below a top last element ends with `x` unless `x`'s key is strictly below that element's |
| `Music.LastOfStableSort` | acradio/core/music.py:57-62 | the last element of the stable sort is the element at the reference position of its input: on equal keys the one latest in the input wins |
| `Music.TrackPath` | acradio/core/music.py:64 | the path is `music_path`, then `/`, then exactly the name, then `.mp3` |
| `Music.TrackPathInjective` | acradio/core/music.py:64 | different track names resolve to different `.mp3` paths |
| `Music.Choose` | acradio/core/music.py:41-64 | `choose_track` fails only with `ValueError` or with `KeyError` for `time` or `priority`, and with `ValueError` whenever no rule survives |
| `Music.NoValidTrackIffNoSurvivor` | acradio/core/music.py:59-60 | `ValueError` is raised iff no rule passes both filters |
| `Music.ChoiceIsReferenceChoice` | acradio/core/music.py:57-64 | a successful choice is the path of the name at the reference position among the keyed survivors |
| `Music.ChoiceSatisfiesItsRule` | acradio/core/music.py:41-64 | a chosen path is `music_path/<name>.mp3` for a rule of the table that passes both filters |
| `Music.ChoiceIsLastMaximal` | acradio/core/music.py:57-62 | the chosen survivor has the lexicographically greatest (time, priority), and every later survivor has a strictly smaller key |
| `Music.TieBreakInTable` | acradio/core/music.py:45-62 | a last-maximal survivor sits at a table position where no eligible rule has a greater key and every later eligible rule a strictly smaller one |
| `Music.LastEligibleWitness` | acradio/core/music.py:45-64 | a path naming a last-maximal survivor names a last-maximal eligible rule of the table |
| `Music.ChoiceIsLastEligibleInTable` | acradio/core/music.py:41-64 | the chosen file belongs to a table rule passing both filters whose key no such rule beats, and every such rule later in table order has a strictly smaller key: on equal keys the last in the table wins |
| `Music.LoadedTableNeverMissesKeys` | acradio/core/music.py:34-57 | once every rule has a priority, on a clock reading `choose_track` returns a path or raises `ValueError`, never `KeyError` |
| `Music.ChooseTrack` | acradio/core/music.py:41-64 | the nested candidate loop, cull, sort and last item return exactly the specification's result; the table is only read |
| `Music.ThreeRuleTableRaises` | acradio/core/music.py:45-60 | for {A: priority 0, B: time 1200, C: time 1800 and rainy} at 13:00 in sunny weather, `ValueError` is raised |
| `Fading.MapRange` | acradio/lib/fader.py:38-42 | for `x` inside the source interval, the interpolated value lies between the two target ends |
| `Fading.MapRangeEnds` | acradio/lib/fader.py:38-42 | the interpolation hits its first target at the interval's start and its second at its end |
| `Fading.MapRangeMonotone` | acradio/lib/fader.py:38-42 | the interpolation moves monotonically from the first target end towards the second |
| `Fading.Truncate` | acradio/views/root.py:46 | Python's `int` on a float: the integer towards zero that is within 1 of the input |
| `Fading.Fader.constructor` | acradio/lib/fader.py:5-16 | stores the configuration and starts at local time 0, never activated |
| `Fading.Fader.Update` | acradio/lib/fader.py:18-19 | `local_time` grows by exactly `delta_time`; nothing else changes |
| `Fading.Fader.Activate` | acradio/lib/fader.py:48-49 | the activation time becomes `time`; local time and configuration are unchanged |
| `Fading.Fader.FadeInEnd` | acradio/lib/fader.py:21-23 | with a non-negative fade-in it is not before the activation; it is `-inf` iff the activation is |
| `Fading.Fader.HoldEnd` | acradio/lib/fader.py:25-27 | with a non-negative hold it is not before the fade-in end; it is `-inf` iff the activation is |
| `Fading.Fader.FadeOutEnd` | acradio/lib/fader.py:29-31 | with a non-negative fade-out it is not before the hold end; it is `-inf` iff the activation is |
| `Fading.Fader.ValueAt` | acradio/lib/fader.py:33-44 | the envelope before `wrap` always lies between min and max; each interpolating branch has a non-empty interval |
| `Fading.Fader.Value` | acradio/lib/fader.py:33-46 | `value` is the envelope at the local time, passed through `wrap` exactly when one is set |
| `Fading.NeverActivatedRestsAtMin` | acradio/lib/fader.py:16-36 | a fader still at its `-inf` activation reports `min_val` at every time |
| `Fading.RestsAtMinOutsideWindow` | acradio/lib/fader.py:35-44 | before the activation, and at or after `fade_out_end`, the value is `min_val` |
| `Fading.HoldsAtMax` | acradio/lib/fader.py:39-40 | between `fade_in_end` and `hold_end` the value is `max_val` |
| `Fading.EnvelopeCorners` | acradio/lib/fader.py:33-44 | the envelope is `min` at the activation (with a fade-in), `max` at `fade_in_end` (with a hold), and `min` at `fade_out_end` |
| `Fading.InstantFadeInStartsAtMax` | acradio/lib/fader.py:37-40 | with no fade-in and some hold, the value at the activation instant is `max_val` |
| `Fading.RampsAreMonotone` | acradio/lib/fader.py:37-42 | the fade-in ramp is non-decreasing and the fade-out ramp non-increasing in time |
| `Background.IncreasingEverywhere` | acradio/core/background.py:10-33 | positions that increase between neighbours increase between every pair of stops |
| `Background.ColoursFitEverywhere` | acradio/core/background.py:10-33 | a gradient whose colours fit 24 bits has every single colour within 24 bits |
| `Background.HoursWellFormed0To2` | acradio/core/background.py:10-12 | hours 0 to 2: stops from 0.0 to 1.0, strictly increasing, with 24-bit colours |
| `Background.HoursWellFormed3To5` | acradio/core/background.py:13-15 | hours 3 to 5 are well formed in the same sense |
| `Background.HoursWellFormed6To8` | acradio/core/background.py:16-18 | hours 6 to 8 are well formed |
| `Background.HoursWellFormed9To11` | acradio/core/background.py:19-21 | hours 9 to 11 are well formed |
| `Background.HoursWellFormed12To14` | acradio/core/background.py:22-24 | hours 12 to 14 are well formed |
| `Background.HoursWellFormed15To17` | acradio/core/background.py:25-27 | hours 15 to 17 are well formed |
| `Background.HoursWellFormed18To20` | acradio/core/background.py:28-30 | hours 18 to 20 are well formed |
| `Background.HoursWellFormed21To23` | acradio/core/background.py:31-33 | hours 21 to 23 are well formed |
| `Background.GradientTableWellFormed` | acradio/core/background.py:9-34 | the table has an entry for exactly the hours 0..23, and every entry is well formed |
| `Background.FromUint24` | acradio/core/background.py:49 | a colour is produced iff the value fits 24 bits, with byte channels and an opaque alpha |
| `Background.FromUint24RoundTrip` | acradio/core/background.py:49 | packing the produced red, green and blue bytes back gives the original value |
| `Background.Strips` | acradio/core/background.py:43-50 | drawing succeeds iff every colour fits 24 bits; it then gives `len(gradient) - 1` strips, the strip of each consecutive pair of stops in order |
| `Background.TableStripsDraw` | acradio/core/background.py:9-50 | every hour's gradient draws without error, as `len - 1` strips |
| `Background.Level` | acradio/core/background.py:46-48 | position 0.0 is the rectangle's top and position 1.0 its bottom |
| `Background.LevelInside` | acradio/core/background.py:46-48 | on a rectangle of non-negative height, a position in [0, 1] lies between its bottom and top |
| `Background.StripOf` | acradio/core/background.py:45-49 | the band spans the rectangle's width, is upright when the first stop is not after the second, and carries the two stops' colours |
| `Background.LevelAntitone` | acradio/core/background.py:46-48 | on a rectangle of non-negative height, a later stop position lies lower |
| `Background.StripsStack` | acradio/core/background.py:44-48 | strips run from the rectangle's top to its bottom; each is upright, shares its bottom edge with the next one's top, and a later one lies below an earlier one |
| `Background.StackCovers` | acradio/core/background.py:44-48 | strips stacked edge to edge from top to bottom cover every height in between |
| `Background.StripsTile` | acradio/core/background.py:44-48 | the strips tile the rectangle's height: every height lies in a strip, and no two strips overlap in their interiors |
| `Root.TrackStep` | acradio/views/root.py:80-95 | the current track becomes the chosen one; an empty slot gets a player for it at position 0; an existing player is kept or dropped, never replaced; a set teardown flag stays set |
| `Root.WithClock` | acradio/views/root.py:110 | only month, day, hour and minute are replaced from the clock; the weather is kept |
| `Root.IdleSlotStartsPlayer` | acradio/views/root.py:84-87 | without a player, one starts for the chosen track at position 0, and the teardown fields are untouched |
| `Root.ChangeArmsTeardown` | acradio/views/root.py:89-91 | a change of track arms the teardown at the player's position, and the player survives that call |
| `Root.ReleaseIffDrained` | acradio/views/root.py:89-95 | a player is dropped iff the teardown was already armed, the track did not change now, and the position has passed the recorded one; otherwise it is kept as is |
| `Root.TeardownFlagIsSticky` | acradio/views/root.py:89-95 | a set teardown flag stays set after `update_track` |
| `Root.StaleFlagCutsNewTrack` | acradio/views/root.py:80-95 | after one change of track, the new track's player is dropped and restarted from 0 although the chosen track stays the same |
| `Root.Lowered` | acradio/views/root.py:149-151 | MINUS never goes below 0, never raises the volume, and is an exact step of 0.05 away from the limit |
| `Root.Raised` | acradio/views/root.py:155-157 | EQUAL never goes above 1, never lowers the volume, and is an exact step of 0.05 away from the limit |
| `Root.VolumeStaysInRange` | acradio/views/root.py:149-157 | both steps keep a volume in [0, 1] within it |
| `Root.VolumeStepsUndo` | acradio/views/root.py:149-157 | away from the limits a step down is undone by a step up, and the other way round |
| `Root.VolumeAlphaIsByte` | acradio/views/root.py:171-172 | the volume fader `Fader(0, 255, 0, 1, 1, int)` always yields a whole alpha from 0 to 255 |
| `Root.VolumeOverlayShowsOnPress` | acradio/views/root.py:171-174 | right after an activation at the fader's own time the overlay alpha is 255, so it is drawn |
| `Root.VolumeOverlayHiddenWhenBehind` | acradio/views/root.py:171-174 | an activation 2 s or more behind the fader's clock gives alpha 0, so the overlay is not drawn |
| `Root.RootView.constructor` | acradio/views/root.py:21-46 | the initial state `State(0,0,0,0,"none")`, zero clocks, no track or player, flag off, volume 0.20, a fresh never-activated volume fader |
| `Root.RootView.Open` | acradio/views/root.py:21-78 | construction then `setup`: state from the clock and weather, clocks at 0, volume at its initial value, debug off, the overlay fader at local time 0 and never activated, and the track slot stepped from empty by the choice or left empty on its error |
| `Root.RootView.SwitchTo` | acradio/views/root.py:81-95 | with a chosen path, the slot fields become exactly the teardown step of the old ones |
| `Root.RootView.UpdateTrack` | acradio/views/root.py:80-95 | an error of `choose_track` propagates and changes nothing; a chosen path steps the slot by the teardown rules |
| `Root.RootView.GetWeather` | acradio/views/root.py:97-101 | only the weather of the state changes; the refresh time becomes the local time |
| `Root.RootView.GetTime` | acradio/views/root.py:103-113 | month, day, hour and minute come from the clock, the weather is kept; the refresh time becomes the local time |
| `Root.RootView.Setup` | acradio/views/root.py:115-120 | local time and both refresh times are 0, the state is the clock plus the weather, then the track is updated |
| `Root.RootView.Refresh` | acradio/views/root.py:122-130 | both clocks advance by `delta_time`; time and weather refresh exactly when their interval is due; afterwards neither is overdue and the volume fader stays valid |
| `Root.RootView.OnUpdate` | acradio/views/root.py:122-133 | the refresh as above, with each refresh stamp set to the new local time exactly when its interval was due and kept otherwise, then the track update on the refreshed state |
| `Root.RootView.Reset` | acradio/views/root.py:135-142 | without a player it fails with nothing changed; otherwise the player is dropped and `setup` runs; the teardown flag is not cleared |
| `Root.RootView.OnKeyPress` | acradio/views/root.py:144-160 | R resets the refresh stamps to 0 and leaves volume, debug and overlay fader alone; GRAVE toggles debug and changes nothing else; MINUS/EQUAL step and clamp the volume, pass it to the player and activate the overlay at the local time, keeping the refresh stamps, or fail with the volume already changed when there is no player |

## Left out

- Floating point: times, positions, volumes and stops are exact reals, so rounding (for example of `0.20 - 0.05` steps) is not modelled.
- `acradio/core/weather.py` (the network client, asyncio and the mapping of forecast kinds): the weather is an input string.
- The settings file: JSON reading in `load_tracks` and `RootView.__init__`. The rule table is an input array in table order; it is loaded once and never re-read. `reset` re-reads only `location`, which is not modelled.
- `acradio/lib/paths.py` and `acradio/main.py`: `music_path` is an opaque string prefix, and `Path` joining is string concatenation with `/`.
- Text widgets, fonts, `on_draw` apart from the volume overlay's alpha test, `update_debug_text`, the weekday name and the percentage formatting.
- Sound and player internals: starting playback and `player.delete()` are not modelled. The backend's advance of the playback position is the method `SetPlayerTime`. The player's volume is a field of the player record.
- The playback position is fixed within one call of `update_track`: `TrackStep` reads `player.time` once, where the source reads it twice, so an advance between those two reads is not modelled.
- Requirement keys outside the declared ones (for example `hour`, which `getattr` would also accept) and values of the wrong type are not modelled.
- `map_range` lives in `acradio/lib/utils.py`, which is not part of this model; it is taken to be linear interpolation on reals.
- `Color.from_uint24` belongs to the graphics library; it is taken to split 0xRRGGBB into bytes with alpha 255 and to reject values outside 24 bits.
- `Background.Strips`: a colour error is returned as the offending value; the strips the source draws before reaching that stop are not returned.
- `acradio/lib/draw_grad_rect.py` (shaders, OpenGL and Oklab colour blending) is not part of this model.
- `Fader[float](...)` subscripts a class that is not generic; it is modelled as plain construction with `(0, 255, 0, 1, 1, int)`.
