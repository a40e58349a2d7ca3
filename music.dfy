/**
 * The track selector of acradio: the context `State`, the rule table
 * (track name -> requirements), priority defaulting on load, and
 * `choose_track`, modelled as the code is written: a rule is a candidate
 * when ANY of its month/day/weather keys matches, a missing `time` counts
 * as 2500, the survivors are stably sorted by (time, priority) and the last
 * one wins.
 */
module Music {
  import opened Wrappers

  /** The context a track is chosen for. */
  datatype State = State(month: int, day: int, hour: int, minute: int, weather: string)
  {
    /** What a 24-hour wall clock can show. */
    predicate IsClockReading()
    {
      0 <= hour <= 23 && 0 <= minute <= 59
    }

    /** The HHMM encoding of the clock; on a clock reading it decodes back to hour and minute. */
    function Time(): (t: int)
      ensures IsClockReading() ==> 0 <= t <= 2359 && t / 100 == hour && t % 100 == minute
    {
      DecodeHhmm(hour, minute);
      hour * 100 + minute
    }
  }

  lemma DecodeHhmm(hour: int, minute: int)
    ensures 0 <= minute <= 99 ==> (hour * 100 + minute) / 100 == hour && (hour * 100 + minute) % 100 == minute
  {
    if 0 <= minute <= 99 {
      var t := hour * 100 + minute;
      assert t == 100 * hour + minute;
      assert t / 100 == hour by {
        assert 100 * (t / 100) + t % 100 == t;
        assert 0 <= t % 100 < 100;
      }
    }
  }

  /** On clock readings the HHMM order is the order of (hour, minute). */
  lemma {:induction false} TimeOrdersClock(a: State, b: State)
    requires a.IsClockReading() && b.IsClockReading()
    ensures a.Time() <= b.Time() <==> a.hour < b.hour || (a.hour == b.hour && a.minute <= b.minute)
  {
    if a.hour < b.hour {
      assert a.Time() <= a.hour * 100 + 99 < (a.hour + 1) * 100 <= b.Time();
    } else if a.hour > b.hour {
      assert b.Time() <= b.hour * 100 + 99 < (b.hour + 1) * 100 <= a.Time();
    }
  }

  /** A rule's keys; each one may be absent, as in the settings file. */
  datatype Requirements = Requirements(
    month: Option<int>,
    day: Option<int>,
    time: Option<int>,
    weather: Option<string>,
    priority: Option<int>)

  /** One entry of the rule table: a track name and its requirements. */
  datatype Rule = Rule(name: string, req: Requirements)

  /** The key names a requirements dictionary can hold. */
  datatype Key = MonthKey | DayKey | TimeKey | WeatherKey | PriorityKey

  const AllKeys: seq<Key> := [MonthKey, DayKey, TimeKey, WeatherKey, PriorityKey]

  /** `getattr(state, key) == value` for a key the rule holds; `time` and `priority` are never compared. */
  predicate FieldMatches(s: State, r: Requirements, k: Key)
  {
    match k
    case MonthKey => r.month == Some(s.month)
    case DayKey => r.day == Some(s.day)
    case WeatherKey => r.weather == Some(s.weather)
    case TimeKey => false
    case PriorityKey => false
  }

  /** A rule is a candidate when at least one of its month, day and weather keys equals the state's field. */
  predicate IsCandidate(s: State, r: Requirements)
  {
    r.month == Some(s.month) || r.day == Some(s.day) || r.weather == Some(s.weather)
  }

  /** Scanning all keys finds a matching one exactly when the rule is a candidate. */
  lemma CandidateByKeys(s: State, r: Requirements)
    ensures (exists j :: 0 <= j < |AllKeys| && FieldMatches(s, r, AllKeys[j])) <==> IsCandidate(s, r)
  {
    if r.month == Some(s.month) {
      assert FieldMatches(s, r, AllKeys[0]);
    } else if r.day == Some(s.day) {
      assert FieldMatches(s, r, AllKeys[1]);
    } else if r.weather == Some(s.weather) {
      assert FieldMatches(s, r, AllKeys[3]);
    }
  }

  /** A rule holding only `time` and `priority` is never a candidate, whatever the state. */
  lemma TimeOnlyRuleNeverCandidate(s: State, r: Requirements)
    requires r.month.None? && r.day.None? && r.weather.None?
    ensures !IsCandidate(s, r)
  {
  }

  /** The candidates, in table order. */
  function Candidates(s: State, t: seq<Rule>): (c: seq<Rule>)
    ensures |c| <= |t|
    ensures forall x :: x in c <==> x in t && IsCandidate(s, x.req)
  {
    if t == [] then []
    else
      var last := t[|t| - 1];
      assert t == t[..|t| - 1] + [last];
      Candidates(s, t[..|t| - 1]) + (if IsCandidate(s, last.req) then [last] else [])
  }

  /** The `time` a rule is compared with: its own, or 2500 when it has none. */
  const DefaultTime := 2500

  function Threshold(r: Requirements): int
  {
    r.time.GetOr(DefaultTime)
  }

  /** A candidate survives when its threshold is not later than now. */
  predicate Survives(s: State, r: Requirements)
  {
    Threshold(r) <= s.Time()
  }

  /** On a clock reading a rule without `time` never survives. */
  lemma NoTimeNeverSurvives(s: State, r: Requirements)
    requires s.IsClockReading() && r.time.None?
    ensures !Survives(s, r)
  {
  }

  /** The comprehension that keeps the candidates whose threshold is not later than now. */
  function Cull(s: State, c: seq<Rule>): (u: seq<Rule>)
    ensures |u| <= |c|
    ensures forall x :: x in u <==> x in c && Survives(s, x.req)
  {
    if c == [] then []
    else (if Survives(s, c[0].req) then [c[0]] else []) + Cull(s, c[1..])
  }

  /** The rules left after both filters, in table order. */
  function Survivors(s: State, t: seq<Rule>): (u: seq<Rule>)
    ensures forall x :: x in u <==> x in t && IsCandidate(s, x.req) && Survives(s, x.req)
  {
    Cull(s, Candidates(s, t))
  }

  /** A rule that passes both filters. */
  predicate Eligible(s: State, r: Requirements)
  {
    IsCandidate(s, r) && Survives(s, r)
  }

  /** The table positions of the rules that pass both filters, in increasing order. */
  function EligibleIndices(s: State, t: seq<Rule>): (ix: seq<int>)
    ensures forall k :: 0 <= k < |ix| ==> 0 <= ix[k] < |t| && Eligible(s, t[ix[k]].req)
    ensures forall k, l :: 0 <= k < l < |ix| ==> ix[k] < ix[l]
    ensures forall i :: 0 <= i < |t| && Eligible(s, t[i].req) ==> i in ix
  {
    if t == [] then []
    else
      var n := |t| - 1;
      var front := EligibleIndices(s, t[..n]);
      assert forall i :: 0 <= i < n ==> t[..n][i] == t[i];
      front + (if Eligible(s, t[n].req) then [n] else [])
  }

  /** The cull works element by element, so it distributes over concatenation. */
  lemma {:induction false} CullAppend(s: State, a: seq<Rule>, b: seq<Rule>)
    ensures Cull(s, a + b) == Cull(s, a) + Cull(s, b)
  {
    if a == [] {
      assert a + b == b;
    } else {
      assert (a + b)[0] == a[0];
      assert (a + b)[1..] == a[1..] + b;
      CullAppend(s, a[1..], b);
    }
  }

  /** Extending the table by one rule extends the survivors by that rule exactly when it is eligible. */
  lemma SurvivorsSnoc(s: State, t: seq<Rule>)
    requires t != []
    ensures Survivors(s, t) == Survivors(s, t[..|t| - 1]) + (if Eligible(s, t[|t| - 1].req) then [t[|t| - 1]] else [])
  {
    var p := t[..|t| - 1];
    var last := t[|t| - 1];
    var tail: seq<Rule> := if IsCandidate(s, last.req) then [last] else [];
    assert Candidates(s, t) == Candidates(s, p) + tail;
    CullAppend(s, Candidates(s, p), tail);
    if tail != [] {
      assert tail[1..] == [];
    }
  }

  /** The survivors are the eligible rules in table order: the k-th survivor is the rule at the k-th eligible position. */
  lemma {:induction false} SurvivorsFollowTable(s: State, t: seq<Rule>)
    ensures |Survivors(s, t)| == |EligibleIndices(s, t)|
    ensures forall k :: 0 <= k < |Survivors(s, t)| ==> Survivors(s, t)[k] == t[EligibleIndices(s, t)[k]]
  {
    if t != [] {
      var n := |t| - 1;
      var p := t[..n];
      var sv, svp := Survivors(s, t), Survivors(s, p);
      var ix, ixp := EligibleIndices(s, t), EligibleIndices(s, p);
      SurvivorsFollowTable(s, p);
      SurvivorsSnoc(s, t);
      assert ix == ixp + (if Eligible(s, t[n].req) then [n] else []);
      forall k | 0 <= k < |sv|
        ensures sv[k] == t[ix[k]]
      {
        if k < |svp| {
          assert sv[k] == svp[k] && ix[k] == ixp[k];
          assert p[ixp[k]] == t[ixp[k]];
        } else {
          assert sv[k] == t[n] && ix[k] == n;
        }
      }
    }
  }

  /** The sort key (time, priority); a missing key raises KeyError, named here by the key. */
  type SortKey = (int, int)

  datatype Keyed = Keyed(key: SortKey, name: string)

  function KeyOf(r: Requirements): (k: Result<SortKey, string>)
    ensures k.Ok? <==> r.time.Some? && r.priority.Some?
    ensures k.Err? ==> (k.error == "time" <==> r.time.None?) && (k.error == "time" || k.error == "priority")
    ensures k.Ok? ==> k.value.0 == Threshold(r)
  {
    if r.time.None? then Err("time")
    else if r.priority.None? then Err("priority")
    else Ok((r.time.value, r.priority.value))
  }

  /** `sorted` computes the key of every item, in order, before it compares any; the first failure propagates. */
  function KeyAll(rs: seq<Rule>): (r: Result<seq<Keyed>, string>)
    ensures r.Err? ==> r.error == "time" || r.error == "priority"
    ensures r.Ok? <==> forall i :: 0 <= i < |rs| ==> KeyOf(rs[i].req).Ok?
    ensures r.Ok? ==> |r.value| == |rs|
    ensures r.Ok? ==> forall i :: 0 <= i < |rs| ==>
      r.value[i] == Keyed(KeyOf(rs[i].req).value, rs[i].name)
  {
    if rs == [] then Ok([])
    else match KeyOf(rs[0].req)
      case Err(k) => Err(k)
      case Ok(k0) =>
        match KeyAll(rs[1..])
        case Err(k) => Err(k)
        case Ok(rest) => Ok([Keyed(k0, rs[0].name)] + rest)
  }

  /** Python's tuple order on (time, priority). */
  predicate KeyLt(a: SortKey, b: SortKey)
  {
    a.0 < b.0 || (a.0 == b.0 && a.1 < b.1)
  }

  predicate KeyLe(a: SortKey, b: SortKey)
  {
    !KeyLt(b, a)
  }

  predicate IsSorted(s: seq<Keyed>)
  {
    forall i, j :: 0 <= i < j < |s| ==> KeyLe(s[i].key, s[j].key)
  }

  /** Places `x` after every element whose key is not greater than its own. */
  function Insert(x: Keyed, s: seq<Keyed>): (r: seq<Keyed>)
    ensures multiset(r) == multiset(s) + multiset{x}
    ensures |r| == |s| + 1
  {
    if s == [] then [x]
    else if KeyLt(x.key, s[0].key) then [x] + s
    else
      assert s == [s[0]] + s[1..];
      [s[0]] + Insert(x, s[1..])
  }

  /** A stable sort: elements are inserted in input order, each after its equals. */
  function StableSort(s: seq<Keyed>): (r: seq<Keyed>)
    ensures multiset(r) == multiset(s)
    ensures |r| == |s|
  {
    if s == [] then []
    else
      assert s == s[..|s| - 1] + [s[|s| - 1]];
      var r := Insert(s[|s| - 1], StableSort(s[..|s| - 1]));
      assert |r| == |multiset(r)|;
      r
  }

  lemma {:induction false} InsertKeepsSorted(x: Keyed, s: seq<Keyed>)
    requires IsSorted(s)
    ensures IsSorted(Insert(x, s))
  {
    if s == [] {
    } else if KeyLt(x.key, s[0].key) {
    } else {
      InsertKeepsSorted(x, s[1..]);
      var r := Insert(x, s[1..]);
      forall y | y in r
        ensures KeyLe(s[0].key, y.key)
      {
        assert y in multiset(r);
        assert y in multiset(s[1..]) || y == x;
        if y != x {
          var j :| 1 <= j < |s| && s[j] == y;
        }
      }
      forall i, j | 0 <= i < j < |[s[0]] + r|
        ensures KeyLe(([s[0]] + r)[i].key, ([s[0]] + r)[j].key)
      {
        if i == 0 {
          assert ([s[0]] + r)[j] == r[j - 1];
          assert r[j - 1] in r;
        }
      }
    }
  }

  /** `sorted` returns the input reordered into non-decreasing key order. */
  lemma {:induction false} StableSortIsSortedPermutation(s: seq<Keyed>)
    ensures IsSorted(StableSort(s)) && multiset(StableSort(s)) == multiset(s)
  {
    if s != [] {
      StableSortIsSortedPermutation(s[..|s| - 1]);
      InsertKeepsSorted(s[|s| - 1], StableSort(s[..|s| - 1]));
    }
  }

  /** `k` is the last position holding a maximal key: nothing beats it, and everything after it is smaller. */
  predicate IsLastMax(s: seq<Keyed>, k: int)
  {
    0 <= k < |s| &&
    (forall j :: 0 <= j < |s| ==> KeyLe(s[j].key, s[k].key)) &&
    (forall j :: k < j < |s| ==> KeyLt(s[j].key, s[k].key))
  }

  /** The reference choice: scan left to right, a later key that is not smaller takes over. */
  function LastMaxIndex(s: seq<Keyed>): (k: nat)
    requires s != []
    ensures IsLastMax(s, k)
  {
    if |s| == 1 then 0
    else
      var k' := LastMaxIndex(s[..|s| - 1]);
      if KeyLt(s[|s| - 1].key, s[k'].key) then k' else |s| - 1
  }

  /** At most one position is the last maximal one. */
  lemma LastMaxIsUnique(s: seq<Keyed>, k1: int, k2: int)
    requires IsLastMax(s, k1) && IsLastMax(s, k2)
    ensures k1 == k2
  {
    assert KeyLe(s[k1].key, s[k2].key) && KeyLe(s[k2].key, s[k1].key);
  }

  /** No key in `t` is above its last one (a consequence of `IsSorted`). */
  predicate LastIsTop(t: seq<Keyed>)
  {
    t != [] && forall i :: 0 <= i < |t| ==> KeyLe(t[i].key, t[|t| - 1].key)
  }

  /** Inserting below a top last element ends with `x` unless `x` is below that element. */
  lemma {:induction false} LastOfInsert(x: Keyed, t: seq<Keyed>)
    requires LastIsTop(t)
    ensures Insert(x, t)[|t|] == if KeyLt(x.key, t[|t| - 1].key) then t[|t| - 1] else x
  {
    var r := Insert(x, t);
    var last := t[|t| - 1];
    if KeyLt(x.key, t[0].key) {
      assert KeyLe(t[0].key, last.key);
      assert r == [x] + t;
    } else if |t| == 1 {
      assert t[1..] == [];
      assert r == [t[0]] + Insert(x, []);
    } else {
      var tail := t[1..];
      assert tail[|tail| - 1] == last;
      assert LastIsTop(tail) by {
        forall i | 0 <= i < |tail|
          ensures KeyLe(tail[i].key, last.key)
        {
          assert tail[i] == t[i + 1];
        }
      }
      LastOfInsert(x, tail);
      assert r == [t[0]] + Insert(x, tail);
    }
  }

  /** The last element `sorted` returns is the one the reference scan picks. */
  lemma {:induction false} LastOfStableSort(s: seq<Keyed>)
    requires s != []
    ensures StableSort(s)[|s| - 1] == s[LastMaxIndex(s)]
  {
    var n := |s|;
    if n > 1 {
      var p := s[..n - 1];
      var t := StableSort(p);
      var k' := LastMaxIndex(p);
      LastOfStableSort(p);
      StableSortIsSortedPermutation(p);
      assert LastIsTop(t);
      LastOfInsert(s[n - 1], t);
      assert StableSort(s) == Insert(s[n - 1], t);
      assert t[n - 2] == s[k'];
    }
  }

  /** The file a track name resolves to: `music_path / (name + ".mp3")`. */
  function TrackPath(musicPath: string, name: string): (p: string)
    ensures |p| == |musicPath| + |name| + 5
    ensures p[..|musicPath| + 1] == musicPath + "/" && p[|p| - 4..] == ".mp3"
    ensures p[|musicPath| + 1..|p| - 4] == name
  {
    musicPath + "/" + name + ".mp3"
  }

  /** Different track names resolve to different files. */
  lemma TrackPathInjective(musicPath: string, a: string, b: string)
    requires TrackPath(musicPath, a) == TrackPath(musicPath, b)
    ensures a == b
  {
    var pa, pb := TrackPath(musicPath, a), TrackPath(musicPath, b);
    var n := |musicPath| + 1;
    assert |a| == |b|;
    assert a == pa[n..n + |a|];
    assert b == pb[n..n + |b|];
  }

  /** What `choose_track` raises: ValueError when nothing survives, KeyError when a survivor lacks a sort key. */
  datatype ChooseError = NoValidTrack | MissingKey(key: string)

  /** `choose_track` as a value: filter, cull, sort by (time, priority), take the last. */
  function Choose(s: State, t: seq<Rule>, musicPath: string): (r: Result<string, ChooseError>)
    ensures r.Err? ==> r.error == NoValidTrack || r.error == MissingKey("time") || r.error == MissingKey("priority")
    ensures Survivors(s, t) == [] ==> r == Err(NoValidTrack)
  {
    match KeyAll(Survivors(s, t))
    case Err(k) => Err(MissingKey(k))
    case Ok(keyed) =>
      var sorted := StableSort(keyed);
      if sorted == [] then Err(NoValidTrack)
      else Ok(TrackPath(musicPath, sorted[|sorted| - 1].name))
  }

  /** ValueError is raised exactly when no rule passes both filters. */
  lemma NoValidTrackIffNoSurvivor(s: State, t: seq<Rule>, musicPath: string)
    ensures Choose(s, t, musicPath) == Err(NoValidTrack) <==> Survivors(s, t) == []
  {
  }

  /** A successful choice is the name at the reference position among the keyed survivors. */
  lemma ChoiceIsReferenceChoice(s: State, t: seq<Rule>, musicPath: string)
    requires Choose(s, t, musicPath).Ok?
    ensures KeyAll(Survivors(s, t)).Ok? && KeyAll(Survivors(s, t)).value != []
    ensures Choose(s, t, musicPath).value
      == TrackPath(musicPath, KeyAll(Survivors(s, t)).value[LastMaxIndex(KeyAll(Survivors(s, t)).value)].name)
  {
    var keyed := KeyAll(Survivors(s, t)).value;
    assert StableSort(keyed) != [];
    LastOfStableSort(keyed);
  }

  /** A chosen file belongs to a rule of the table that passes both filters. */
  lemma ChoiceSatisfiesItsRule(s: State, t: seq<Rule>, musicPath: string)
    requires Choose(s, t, musicPath).Ok?
    ensures exists i :: (0 <= i < |t| && IsCandidate(s, t[i].req) && Survives(s, t[i].req)
      && Choose(s, t, musicPath).value == TrackPath(musicPath, t[i].name))
  {
    var sv := Survivors(s, t);
    var keyed := KeyAll(sv).value;
    ChoiceIsReferenceChoice(s, t, musicPath);
    var k := LastMaxIndex(keyed);
    assert keyed[k].name == sv[k].name;
    assert sv[k] in sv;
    var i :| 0 <= i < |t| && t[i] == sv[k];
  }

  /**
   * Position `k` of `rs` holds a rule with a key that no rule of `rs` beats,
   * and every rule after it has a strictly smaller key.
   */
  predicate IsLastMaxRule(rs: seq<Rule>, k: int)
  {
    0 <= k < |rs| && KeyOf(rs[k].req).Ok?
    && (forall j :: 0 <= j < |rs| ==> KeyOf(rs[j].req).Ok? && KeyLe(KeyOf(rs[j].req).value, KeyOf(rs[k].req).value))
    && (forall j :: k < j < |rs| ==> KeyLt(KeyOf(rs[j].req).value, KeyOf(rs[k].req).value))
  }

  /**
   * The chosen rule has the greatest (time, priority) among the survivors,
   * and every survivor after it in table order has a strictly smaller key:
   * among equal keys the last one wins.
   */
  lemma ChoiceIsLastMaximal(s: State, t: seq<Rule>, musicPath: string)
    requires Choose(s, t, musicPath).Ok?
    ensures var sv := Survivors(s, t);
      exists k :: IsLastMaxRule(sv, k) && Choose(s, t, musicPath).value == TrackPath(musicPath, sv[k].name)
  {
    var sv := Survivors(s, t);
    var keyed := KeyAll(sv).value;
    ChoiceIsReferenceChoice(s, t, musicPath);
    var k := LastMaxIndex(keyed);
    assert keyed[k] == Keyed(KeyOf(sv[k].req).value, sv[k].name);
    forall j | 0 <= j < |sv|
      ensures KeyOf(sv[j].req).Ok? && KeyLe(KeyOf(sv[j].req).value, KeyOf(sv[k].req).value)
      ensures k < j ==> KeyLt(KeyOf(sv[j].req).value, KeyOf(sv[k].req).value)
    {
      assert keyed[j] == Keyed(KeyOf(sv[j].req).value, sv[j].name);
    }
  }

  /**
   * Position `i` of the table holds an eligible rule whose key no eligible
   * rule beats, and every eligible rule after it has a strictly smaller key.
   */
  predicate IsLastEligibleMax(s: State, t: seq<Rule>, i: int)
  {
    0 <= i < |t| && Eligible(s, t[i].req) && KeyOf(t[i].req).Ok?
    && (forall j :: 0 <= j < |t| && Eligible(s, t[j].req) ==>
          KeyOf(t[j].req).Ok? && KeyLe(KeyOf(t[j].req).value, KeyOf(t[i].req).value))
    && (forall j :: i < j < |t| && Eligible(s, t[j].req) ==>
          KeyLt(KeyOf(t[j].req).value, KeyOf(t[i].req).value))
  }

  /** A last-maximal survivor, carried back to the table through the positions the survivors come from. */
  lemma TieBreakInTable(s: State, t: seq<Rule>, sv: seq<Rule>, ix: seq<int>, k: int)
    requires |sv| == |ix| && IsLastMaxRule(sv, k)
    requires forall m :: 0 <= m < |ix| ==> 0 <= ix[m] < |t| && Eligible(s, t[ix[m]].req) && sv[m] == t[ix[m]]
    requires forall m, l :: 0 <= m < l < |ix| ==> ix[m] < ix[l]
    requires forall i :: 0 <= i < |t| && Eligible(s, t[i].req) ==> i in ix
    ensures IsLastEligibleMax(s, t, ix[k]) && t[ix[k]] == sv[k]
  {
    var i := ix[k];
    assert sv[k] == t[i];
    forall j | 0 <= j < |t| && Eligible(s, t[j].req)
      ensures KeyOf(t[j].req).Ok? && KeyLe(KeyOf(t[j].req).value, KeyOf(t[i].req).value)
      ensures i < j ==> KeyLt(KeyOf(t[j].req).value, KeyOf(t[i].req).value)
    {
      var l :| 0 <= l < |ix| && ix[l] == j;
      assert sv[l] == t[j];
      if i < j {
        assert k < l;
      }
    }
  }

  /** A path that names a last-maximal survivor names a last-maximal eligible rule of the table. */
  lemma LastEligibleWitness(s: State, t: seq<Rule>, musicPath: string, path: string)
    requires var sv := Survivors(s, t);
      exists k :: IsLastMaxRule(sv, k) && path == TrackPath(musicPath, sv[k].name)
    ensures exists i :: IsLastEligibleMax(s, t, i) && path == TrackPath(musicPath, t[i].name)
  {
    var sv := Survivors(s, t);
    var ix := EligibleIndices(s, t);
    SurvivorsFollowTable(s, t);
    var k :| IsLastMaxRule(sv, k) && path == TrackPath(musicPath, sv[k].name);
    TieBreakInTable(s, t, sv, ix, k);
  }

  /**
   * The tie-break stated on the table itself: the chosen file belongs to an
   * eligible rule whose key no eligible rule beats, and every eligible rule
   * after it in table order has a strictly smaller key.
   */
  lemma ChoiceIsLastEligibleInTable(s: State, t: seq<Rule>, musicPath: string)
    requires Choose(s, t, musicPath).Ok?
    ensures exists i :: IsLastEligibleMax(s, t, i) && Choose(s, t, musicPath).value == TrackPath(musicPath, t[i].name)
  {
    ChoiceIsLastMaximal(s, t, musicPath);
    LastEligibleWitness(s, t, musicPath, Choose(s, t, musicPath).value);
  }

  /** Once every rule has a priority, a clock reading never makes `choose_track` raise KeyError. */
  lemma LoadedTableNeverMissesKeys(s: State, t: seq<Rule>, musicPath: string)
    requires s.IsClockReading()
    requires forall i :: 0 <= i < |t| ==> t[i].req.priority.Some?
    ensures Choose(s, t, musicPath).Ok? || Choose(s, t, musicPath) == Err(NoValidTrack)
  {
    var sv := Survivors(s, t);
    forall i | 0 <= i < |sv|
      ensures KeyOf(sv[i].req).Ok?
    {
      assert sv[i] in sv;
      var j :| 0 <= j < |t| && t[j] == sv[i];
    }
  }

  /** A priority defaults to 0; every other key, and an existing priority, is kept. */
  function WithDefaultPriority(r: Requirements): (d: Requirements)
    ensures d.priority.Some?
    ensures r.priority.Some? ==> d == r
    ensures d.(priority := r.priority) == r
    ensures r.priority.None? ==> d.priority == Some(0)
  {
    if r.priority.None? then r.(priority := Some(0)) else r
  }

  /** `load_tracks`: gives every rule of the table, in place, a priority. */
  method LoadTracks(tracks: array<Rule>)
    modifies tracks
    ensures forall i :: 0 <= i < tracks.Length ==>
      tracks[i] == old(tracks[i]).(req := WithDefaultPriority(old(tracks[i]).req))
    ensures forall i :: 0 <= i < tracks.Length ==> tracks[i].req.priority.Some?
  {
    var i := 0;
    while i < tracks.Length
      invariant 0 <= i <= tracks.Length
      invariant forall j :: 0 <= j < i ==>
        tracks[j] == old(tracks[j]).(req := WithDefaultPriority(old(tracks[j]).req))
      invariant forall j :: i <= j < tracks.Length ==> tracks[j] == old(tracks[j])
    {
      if tracks[i].req.priority.None? {
        tracks[i] := tracks[i].(req := tracks[i].req.(priority := Some(0)));
      }
      i := i + 1;
    }
  }

  /**
   * `choose_track`: the nested loops that fill the candidate dictionary,
   * then the cull, the sort and the last item. It only reads the table.
   */
  method ChooseTrack(s: State, tracks: array<Rule>, musicPath: string) returns (r: Result<string, ChooseError>)
    ensures r == Choose(s, tracks[..], musicPath)
  {
    var possible: seq<Rule> := [];
    var i := 0;
    while i < tracks.Length
      invariant 0 <= i <= tracks.Length
      invariant possible == Candidates(s, tracks[..i])
    {
      var rule := tracks[i];
      var matched := false;
      var j := 0;
      while j < |AllKeys|
        invariant 0 <= j <= |AllKeys|
        invariant matched <==> exists m :: 0 <= m < j && FieldMatches(s, rule.req, AllKeys[m])
      {
        var key := AllKeys[j];
        if key == TimeKey || key == PriorityKey {
          // time and priority are not compared with the state
        } else if FieldMatches(s, rule.req, key) {
          matched := true;
        }
        j := j + 1;
      }
      CandidateByKeys(s, rule.req);
      if matched {
        possible := possible + [rule];
      }
      assert tracks[..i + 1][..i] == tracks[..i];
      i := i + 1;
    }
    assert tracks[..i] == tracks[..];
    match KeyAll(Cull(s, possible))
    case Err(k) =>
      r := Err(MissingKey(k));
    case Ok(keyed) =>
      var sorted := StableSort(keyed);
      if sorted == [] {
        r := Err(NoValidTrack);
      } else {
        r := Ok(TrackPath(musicPath, sorted[|sorted| - 1].name));
      }
  }

  /**
   * With the OR filter, a rule without month, day or weather is never chosen:
   * in the table {A: {priority 0}, B: {time 1200}, C: {time 1800, weather rainy}}
   * at 13:00 in sunny weather nothing is left and ValueError is raised.
   */
  lemma ThreeRuleTableRaises()
    ensures Choose(State(5, 1, 13, 0, "sunny"),
                   [Rule("A", Requirements(None, None, None, None, Some(0))),
                    Rule("B", Requirements(None, None, Some(1200), None, Some(0))),
                    Rule("C", Requirements(None, None, Some(1800), Some("rainy"), Some(1)))],
                   "music") == Err(NoValidTrack)
  {
    var s := State(5, 1, 13, 0, "sunny");
    var t := [Rule("A", Requirements(None, None, None, None, Some(0))),
              Rule("B", Requirements(None, None, Some(1200), None, Some(0))),
              Rule("C", Requirements(None, None, Some(1800), Some("rainy"), Some(1)))];
    assert !IsCandidate(s, t[0].req) && !IsCandidate(s, t[1].req) && !IsCandidate(s, t[2].req);
    assert Candidates(s, t) == [];
    assert Survivors(s, t) == [];
  }
}
