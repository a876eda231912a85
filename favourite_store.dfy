/**
 * The favourites store: the list of favourite cities, each with its own
 * weather status. Every emission of the favourites list replaces the items
 * and starts one weather fetch per city; the fetches run concurrently and
 * their Msgs reach the reducer in any interleaving.
 */
module FavouriteStore {
  import opened Domain
  import opened Mvi

  datatype WeatherState = Initial | Loading | Error | Success(tempC: real, iconUrl: string)
  datatype CityItem = CityItem(city: City, weatherState: WeatherState)
  datatype State = State(cityItems: seq<CityItem>)

  datatype Intent = ClickSearch | ClickToFavourite | CityItemClicked(city: City)
  datatype Label = ClickSearch | ClickToFavourite | CityItemClicked(city: City)

  /** The one Action: the bootstrapper's favourites subscription emitted a list. */
  datatype Action = FavouriteCitiesSuccess(cities: seq<City>)

  datatype Msg =
    | FavouriteCitiesSuccess(cities: seq<City>)
    | WeatherSuccess(cityId: int, tempC: real, conditionIconUrl: string)
    | WeatherError(cityId: int)
    | WeatherLoading(cityId: int)

  /** Calls into collaborators: the current-weather use case. */
  datatype Call = GetCurrentWeather(cityId: int)

  type Effect = Event<Msg, Label, Call>

  function InitialState(): State
  {
    State([])
  }

  // ---------------------------------------------------------------- reducer

  /** One item per city, in the list's order, each with status Initial. */
  function InitialItems(cities: seq<City>): (items: seq<CityItem>)
    ensures |items| == |cities|
    ensures forall i :: 0 <= i < |cities| ==> items[i] == CityItem(cities[i], Initial)
    decreases |cities|
  {
    if |cities| == 0 then [] else [CityItem(cities[0], Initial)] + InitialItems(cities[1..])
  }

  /**
   * The items with `ws` as the status of every item whose city has id
   * `cityId`; every other item is left as it was.
   */
  function WithWeather(items: seq<CityItem>, cityId: int, ws: WeatherState): (r: seq<CityItem>)
    ensures |r| == |items|
    ensures forall i :: 0 <= i < |items| ==> r[i].city == items[i].city
    ensures forall i :: 0 <= i < |items| ==>
              r[i].weatherState == if items[i].city.id == cityId then ws else items[i].weatherState
    decreases |items|
  {
    if |items| == 0 then []
    else
      var head := if items[0].city.id == cityId then items[0].(weatherState := ws) else items[0];
      [head] + WithWeather(items[1..], cityId, ws)
  }

  predicate IsWeather(m: Msg)
  {
    !m.FavouriteCitiesSuccess?
  }

  /** The status a weather Msg gives its city. */
  function StatusOf(m: Msg): WeatherState
    requires IsWeather(m)
  {
    match m
    case WeatherSuccess(_, tempC, url) => Success(tempC, url)
    case WeatherError(_) => Error
    case WeatherLoading(_) => Loading
  }

  function Reduce(s: State, msg: Msg): State
  {
    match msg
    case FavouriteCitiesSuccess(cities) => State(InitialItems(cities))
    case WeatherError(id) => State(WithWeather(s.cityItems, id, Error))
    case WeatherLoading(id) => State(WithWeather(s.cityItems, id, Loading))
    case WeatherSuccess(id, tempC, url) => State(WithWeather(s.cityItems, id, Success(tempC, url)))
  }

  function ReduceAll(s: State, ms: seq<Msg>): State
  {
    Fold(Reduce, s, ms)
  }

  predicate AllWeather(ms: seq<Msg>)
  {
    forall k :: 0 <= k < |ms| ==> IsWeather(ms[k])
  }

  /** Applying any Msg a second time changes nothing. */
  lemma ReduceIdempotent(s: State, m: Msg)
    ensures Reduce(Reduce(s, m), m) == Reduce(s, m)
  {
    if IsWeather(m) {
      var once := Reduce(s, m).cityItems;
      var twice := Reduce(Reduce(s, m), m).cityItems;
      assert |twice| == |once|;
      forall i | 0 <= i < |once| ensures twice[i] == once[i] {
        assert twice[i].city == once[i].city;
      }
    }
  }

  /** A weather Msg sets its status on the items of its city id. */
  lemma ReduceWeather(s: State, m: Msg)
    requires IsWeather(m)
    ensures Reduce(s, m) == State(WithWeather(s.cityItems, m.cityId, StatusOf(m)))
  {
  }

  lemma WithWeatherCommutes(items: seq<CityItem>, id1: int, ws1: WeatherState, id2: int, ws2: WeatherState)
    requires id1 != id2
    ensures WithWeather(WithWeather(items, id1, ws1), id2, ws2) == WithWeather(WithWeather(items, id2, ws2), id1, ws1)
  {
    var a := WithWeather(WithWeather(items, id1, ws1), id2, ws2);
    var b := WithWeather(WithWeather(items, id2, ws2), id1, ws1);
    forall i | 0 <= i < |items| ensures a[i] == b[i] {
      assert a[i].city == b[i].city == items[i].city;
    }
  }

  /** Weather Msgs for different cities commute. */
  lemma WeatherMsgsCommute(s: State, m1: Msg, m2: Msg)
    requires IsWeather(m1) && IsWeather(m2) && m1.cityId != m2.cityId
    ensures Reduce(Reduce(s, m1), m2) == Reduce(Reduce(s, m2), m1)
  {
    ReduceWeather(s, m1);
    ReduceWeather(s, m2);
    ReduceWeather(Reduce(s, m1), m2);
    ReduceWeather(Reduce(s, m2), m1);
    WithWeatherCommutes(s.cityItems, m1.cityId, StatusOf(m1), m2.cityId, StatusOf(m2));
  }

  /** Before the first favourites list arrives, weather Msgs leave the initial (empty) state as it is. */
  lemma {:induction false} InitialIgnoresWeather(ms: seq<Msg>)
    requires AllWeather(ms)
    ensures ReduceAll(InitialState(), ms) == InitialState()
    decreases |ms|
  {
    if |ms| > 0 {
      InitialIgnoresWeather(ms[..|ms| - 1]);
    }
  }

  // ------------------------------------------- per-city independence

  /** The weather Msgs of `ms` that target city id `id`, in order. */
  function Own(ms: seq<Msg>, id: int): (r: seq<Msg>)
    ensures forall k :: 0 <= k < |r| ==> IsWeather(r[k]) && r[k].cityId == id
    decreases |ms|
  {
    if |ms| == 0 then []
    else
      var last := ms[|ms| - 1];
      Own(ms[..|ms| - 1], id) + (if IsWeather(last) && last.cityId == id then [last] else [])
  }

  /** The status set by the last of the Msgs `own`, or `ws` if there is none. */
  function LastStatus(ws: WeatherState, own: seq<Msg>): WeatherState
    requires AllWeather(own)
  {
    if |own| == 0 then ws else StatusOf(own[|own| - 1])
  }

  /**
   * Under any sequence of weather Msgs, the list keeps its length and its
   * cities, and each item's status is set by the last Msg for its own city
   * id: Msgs for other cities never touch it.
   */
  lemma {:induction false} WeatherOnlyIndependence(s: State, ms: seq<Msg>)
    requires AllWeather(ms)
    ensures |ReduceAll(s, ms).cityItems| == |s.cityItems|
    ensures forall i :: 0 <= i < |s.cityItems| ==>
              var item := s.cityItems[i];
              ReduceAll(s, ms).cityItems[i] == CityItem(item.city, LastStatus(item.weatherState, Own(ms, item.city.id)))
    decreases |ms|
  {
    if |ms| > 0 {
      var prefix := ms[..|ms| - 1];
      var m := ms[|ms| - 1];
      WeatherOnlyIndependence(s, prefix);
      var before := ReduceAll(s, prefix).cityItems;
      var after := ReduceAll(s, ms).cityItems;
      assert after == WithWeather(before, m.cityId, StatusOf(m));
      forall i | 0 <= i < |s.cityItems|
        ensures after[i] == CityItem(s.cityItems[i].city, LastStatus(s.cityItems[i].weatherState, Own(ms, s.cityItems[i].city.id)))
      {
        var id := s.cityItems[i].city.id;
        if id == m.cityId {
          assert Own(ms, id) == Own(prefix, id) + [m];
        } else {
          assert Own(ms, id) == Own(prefix, id);
        }
      }
    }
  }

  /** Filtering twice by the same city id is filtering once. */
  lemma {:induction false} OwnIdempotent(ms: seq<Msg>, id: int)
    ensures Own(Own(ms, id), id) == Own(ms, id)
    decreases |ms|
  {
    if |ms| > 0 {
      var prefix := ms[..|ms| - 1];
      var last := ms[|ms| - 1];
      OwnIdempotent(prefix, id);
      var o := Own(ms, id);
      if IsWeather(last) && last.cityId == id {
        assert o[..|o| - 1] == Own(prefix, id);
      } else {
        assert o == Own(prefix, id);
      }
    }
  }

  /** Each city's final item depends only on the Msgs for its own id. */
  lemma OwnMsgsSuffice(s: State, ms: seq<Msg>, i: int)
    requires AllWeather(ms) && 0 <= i < |s.cityItems|
    ensures var own := Own(ms, s.cityItems[i].city.id);
            |ReduceAll(s, ms).cityItems| == |ReduceAll(s, own).cityItems| == |s.cityItems| &&
            ReduceAll(s, ms).cityItems[i] == ReduceAll(s, own).cityItems[i]
  {
    var own := Own(ms, s.cityItems[i].city.id);
    WeatherOnlyIndependence(s, ms);
    WeatherOnlyIndependence(s, own);
    OwnIdempotent(ms, s.cityItems[i].city.id);
  }

  /**
   * After any Msg sequence, the cities on screen are exactly those of the
   * most recent favourites list, in its order.
   */
  lemma OrderFollowsLastList(s: State, ms: seq<Msg>, k: int)
    requires 0 <= k < |ms| && ms[k].FavouriteCitiesSuccess?
    requires AllWeather(ms[k + 1..])
    ensures |ReduceAll(s, ms).cityItems| == |ms[k].cities|
    ensures forall i :: 0 <= i < |ms[k].cities| ==> ReduceAll(s, ms).cityItems[i].city == ms[k].cities[i]
  {
    assert ms == ms[..k + 1] + ms[k + 1..];
    FoldAppend(Reduce, s, ms[..k + 1], ms[k + 1..]);
    assert ms[..k + 1][..k] == ms[..k];
    var listed := ReduceAll(s, ms[..k + 1]);
    assert listed.cityItems == InitialItems(ms[k].cities);
    WeatherOnlyIndependence(listed, ms[k + 1..]);
  }

  // ---------------------------------------------------------------- executor

  /** `executeIntent`: every Intent publishes its same-named Label and does nothing else. */
  function IntentEffects(intent: Intent): seq<Effect>
  {
    match intent
    case CityItemClicked(city) => [Published(Label.CityItemClicked(city))]
    case ClickSearch => [Published(Label.ClickSearch)]
    case ClickToFavourite => [Published(Label.ClickToFavourite)]
  }

  /** The Intent a Label was published for. */
  function IntentOfLabel(l: Label): Intent
  {
    match l
    case CityItemClicked(city) => Intent.CityItemClicked(city)
    case ClickSearch => Intent.ClickSearch
    case ClickToFavourite => Intent.ClickToFavourite
  }

  /** An Intent dispatches no Msg, calls nothing and publishes exactly the one Label that names it. */
  lemma IntentPublishesOnly(intent: Intent)
    ensures Msgs(IntentEffects(intent)) == [] && Calls(IntentEffects(intent)) == []
    ensures |Labels(IntentEffects(intent))| == 1
    ensures IntentOfLabel(Labels(IntentEffects(intent))[0]) == intent
  {
    SingleEvent(IntentEffects(intent)[0]);
  }

  /** The Msg that ends a weather fetch: its fetched values, or an error. */
  function OutcomeMsg(cityId: int, outcome: Response<Weather>): Msg
  {
    match outcome
    case Ok(w) => WeatherSuccess(cityId, w.tempC, w.conditionUrl)
    case Failed => WeatherError(cityId)
  }

  /**
   * What `loadWeatherForCity` does when resumed for the `n`-th time: first
   * dispatch Loading and call the weather use case (then suspend), then
   * dispatch the outcome; a finished task does nothing more.
   */
  function TaskSegment(city: City, outcome: Response<Weather>, n: nat): seq<Effect>
  {
    if n == 0 then [Dispatched(WeatherLoading(city.id)), Called(GetCurrentWeather(city.id))]
    else if n == 1 then [Dispatched(OutcomeMsg(city.id, outcome))]
    else []
  }

  /** `loadWeatherForCity` run to completion. */
  function WeatherTask(city: City, outcome: Response<Weather>): seq<Effect>
  {
    TaskSegment(city, outcome, 0) + TaskSegment(city, outcome, 1)
  }

  /**
   * A weather task dispatches Loading, calls the use case for its city, and
   * then dispatches exactly one of Success (carrying the fetched temperature
   * and icon URL) or Error.
   */
  lemma WeatherTaskMsgs(city: City, outcome: Response<Weather>)
    ensures var ms := Msgs(WeatherTask(city, outcome));
            |ms| == 2 && ms[0] == WeatherLoading(city.id) &&
            (outcome.Ok? ==> ms[1] == WeatherSuccess(city.id, outcome.value.tempC, outcome.value.conditionUrl)) &&
            (outcome.Failed? ==> ms[1] == WeatherError(city.id))
    ensures Calls(WeatherTask(city, outcome)) == [GetCurrentWeather(city.id)]
    ensures Labels(WeatherTask(city, outcome)) == []
  {
    var a := TaskSegment(city, outcome, 0);
    var b := TaskSegment(city, outcome, 1);
    TraceAppend(a, b);
    TraceAppend([a[0]], [a[1]]);
    assert a == [a[0]] + [a[1]];
    SingleEvent(a[0]);
    SingleEvent(a[1]);
    SingleEvent(b[0]);
  }

  predicate ValidSchedule(n: nat, schedule: seq<nat>)
  {
    forall k :: 0 <= k < |schedule| ==> schedule[k] < n
  }

  /**
   * The fan-out: one weather task per city, resumed in the order `schedule`
   * gives (entry k resumes the task of city `schedule[k]`). Any interleaving
   * of the tasks is some schedule.
   */
  function Interleaved(cities: seq<City>, outcomes: seq<Response<Weather>>, schedule: seq<nat>): seq<Effect>
    requires |outcomes| == |cities| && ValidSchedule(|cities|, schedule)
    decreases |schedule|
  {
    if |schedule| == 0 then []
    else
      var prefix := schedule[..|schedule| - 1];
      var j := schedule[|schedule| - 1];
      Interleaved(cities, outcomes, prefix) + TaskSegment(cities[j], outcomes[j], multiset(prefix)[j])
  }

  /** The status of a task's city after the task was resumed `n` times. */
  function TaskStatus(n: nat, outcome: Response<Weather>): WeatherState
  {
    if n == 0 then Initial
    else if n == 1 then Loading
    else match outcome
      case Ok(w) => Success(w.tempC, w.conditionUrl)
      case Failed => Error
  }

  /** Item i shows city i with the status of its task after `resumed[i]` resumptions. */
  predicate ItemsMatch(s: State, cities: seq<City>, outcomes: seq<Response<Weather>>, resumed: multiset<nat>)
    requires |outcomes| == |cities|
  {
    |s.cityItems| == |cities| &&
    forall i :: 0 <= i < |cities| ==> s.cityItems[i] == CityItem(cities[i], TaskStatus(resumed[i], outcomes[i]))
  }

  /** A weather Msg for city j's id that sets the status task j reaches next advances only item j. */
  lemma WeatherMsgStep(s: State, cities: seq<City>, outcomes: seq<Response<Weather>>, resumed: multiset<nat>, j: nat, m: Msg)
    requires |outcomes| == |cities| && j < |cities| && UniqueIds(cities)
    requires ItemsMatch(s, cities, outcomes, resumed)
    requires IsWeather(m) && m.cityId == cities[j].id && StatusOf(m) == TaskStatus(resumed[j] + 1, outcomes[j])
    ensures ItemsMatch(Reduce(s, m), cities, outcomes, resumed + multiset{j})
  {
    var r := Reduce(s, m);
    var next := resumed + multiset{j};
    forall i | 0 <= i < |cities| ensures r.cityItems[i] == CityItem(cities[i], TaskStatus(next[i], outcomes[i])) {
      if i != j {
        assert cities[i].id != cities[j].id by {
          if i < j { } else { }
        }
      }
    }
  }

  /** The Msgs of a segment: Loading first, then the outcome, then none. */
  lemma SegmentMsgs(city: City, outcome: Response<Weather>, n: nat)
    ensures Msgs(TaskSegment(city, outcome, n)) ==
              if n == 0 then [WeatherLoading(city.id)]
              else if n == 1 then [OutcomeMsg(city.id, outcome)]
              else []
  {
    var seg := TaskSegment(city, outcome, n);
    if n == 0 {
      TraceAppend([seg[0]], [seg[1]]);
      assert seg == [seg[0]] + [seg[1]];
      SingleEvent(seg[0]);
      SingleEvent(seg[1]);
    } else if n == 1 {
      SingleEvent(seg[0]);
    }
  }

  /** Resuming task j advances only item j (city ids are unique). */
  lemma SegmentStep(s: State, cities: seq<City>, outcomes: seq<Response<Weather>>, resumed: multiset<nat>, j: nat)
    requires |outcomes| == |cities| && j < |cities| && UniqueIds(cities)
    requires ItemsMatch(s, cities, outcomes, resumed)
    ensures ItemsMatch(ReduceAll(s, Msgs(TaskSegment(cities[j], outcomes[j], resumed[j]))),
                       cities, outcomes, resumed + multiset{j})
  {
    var n := resumed[j];
    SegmentMsgs(cities[j], outcomes[j], n);
    if n < 2 {
      var m := if n == 0 then WeatherLoading(cities[j].id) else OutcomeMsg(cities[j].id, outcomes[j]);
      assert [m][..0] == [];
      assert Fold(Reduce, s, [m]) == Reduce(s, m);
      WeatherMsgStep(s, cities, outcomes, resumed, j, m);
    } else {
      assert Fold(Reduce, s, []) == s;
      var next := resumed + multiset{j};
      assert forall i :: 0 <= i < |cities| ==> TaskStatus(next[i], outcomes[i]) == TaskStatus(resumed[i], outcomes[i]);
    }
  }

  /** Extending a schedule by one entry resumes that entry's task once more. */
  lemma InterleavedStep(cities: seq<City>, outcomes: seq<Response<Weather>>, schedule: seq<nat>, k: nat)
    requires |outcomes| == |cities| && ValidSchedule(|cities|, schedule) && k < |schedule|
    ensures var j := schedule[k];
            Interleaved(cities, outcomes, schedule[..k + 1]) ==
              Interleaved(cities, outcomes, schedule[..k]) + TaskSegment(cities[j], outcomes[j], multiset(schedule[..k])[j])
    ensures multiset(schedule[..k + 1]) == multiset(schedule[..k]) + multiset{schedule[k]}
  {
    assert schedule[..k + 1][..k] == schedule[..k];
    assert schedule[..k + 1] == schedule[..k] + [schedule[k]];
  }

  /**
   * Whatever the interleaving of the fan-out, once the list Msg is applied,
   * item i shows city i, with the status its own task has reached: Initial
   * before it starts, Loading while it waits, then Success or Error.
   */
  lemma {:induction false} FanOutStatuses(s: State, cities: seq<City>, outcomes: seq<Response<Weather>>, schedule: seq<nat>)
    requires |outcomes| == |cities| && ValidSchedule(|cities|, schedule) && UniqueIds(cities)
    ensures ItemsMatch(ReduceAll(Reduce(s, Msg.FavouriteCitiesSuccess(cities)), Msgs(Interleaved(cities, outcomes, schedule))),
                       cities, outcomes, multiset(schedule))
    decreases |schedule|
  {
    var listed := Reduce(s, Msg.FavouriteCitiesSuccess(cities));
    if |schedule| == 0 {
      assert Fold(Reduce, listed, []) == listed;
    } else {
      var k := |schedule| - 1;
      var prefix := schedule[..k];
      var j := schedule[k];
      assert schedule[..k + 1] == schedule;
      assert ValidSchedule(|cities|, prefix);
      FanOutStatuses(s, cities, outcomes, prefix);
      var before := Interleaved(cities, outcomes, prefix);
      var seg := TaskSegment(cities[j], outcomes[j], multiset(prefix)[j]);
      InterleavedStep(cities, outcomes, schedule, k);
      TraceAppend(before, seg);
      FoldAppend(Reduce, listed, Msgs(before), Msgs(seg));
      var mid := ReduceAll(listed, Msgs(before));
      SegmentStep(mid, cities, outcomes, multiset(prefix), j);
    }
  }

  /** When every task has been resumed twice, every city shows the outcome of its own fetch. */
  lemma FanOutComplete(s: State, cities: seq<City>, outcomes: seq<Response<Weather>>, schedule: seq<nat>)
    requires |outcomes| == |cities| && ValidSchedule(|cities|, schedule) && UniqueIds(cities)
    requires forall i :: 0 <= i < |cities| ==> multiset(schedule)[i] >= 2
    ensures var r := ReduceAll(Reduce(s, Msg.FavouriteCitiesSuccess(cities)), Msgs(Interleaved(cities, outcomes, schedule)));
            |r.cityItems| == |cities| &&
            forall i :: 0 <= i < |cities| ==>
              r.cityItems[i].city == cities[i] &&
              r.cityItems[i].weatherState == (if outcomes[i].Ok? then Success(outcomes[i].value.tempC, outcomes[i].value.conditionUrl) else Error)
  {
    FanOutStatuses(s, cities, outcomes, schedule);
  }

  // ---------------------------------------------------------------- store

  /** A favourites store: the current State and everything its executor has done so far. */
  class Store {
    var state: State
    var trace: seq<Effect>

    /** The State is the initial one with every dispatched Msg applied, in order. */
    ghost predicate Valid()
      reads this
    {
      state == ReduceAll(InitialState(), Msgs(trace))
    }

    constructor ()
      ensures Valid() && state == InitialState() && trace == []
    {
      state := InitialState();
      trace := [];
    }

    method Dispatch(msg: Msg)
      requires Valid()
      modifies this
      ensures Valid() && trace == old(trace) + [Dispatched(msg)] && state == Reduce(old(state), msg)
    {
      TraceAppend(trace, [Dispatched(msg)]);
      SingleEvent<Msg, Label, Call>(Dispatched(msg));
      assert (Msgs(trace) + [msg])[..|Msgs(trace)|] == Msgs(trace);
      trace := trace + [Dispatched(msg)];
      state := Reduce(state, msg);
    }

    /** Appends an event that is not a Msg; the State stays as it is. */
    method Emit(e: Effect)
      requires Valid() && !e.Dispatched?
      modifies this
      ensures Valid() && trace == old(trace) + [e] && state == old(state)
    {
      TraceAppend(trace, [e]);
      SingleEvent(e);
      assert Msgs(trace) + [] == Msgs(trace);
      trace := trace + [e];
    }

    method ExecuteIntent(intent: Intent)
      requires Valid()
      modifies this
      ensures Valid() && trace == old(trace) + IntentEffects(intent) && state == old(state)
    {
      match intent
      case CityItemClicked(city) => Emit(Published(Label.CityItemClicked(city)));
      case ClickSearch => Emit(Published(Label.ClickSearch));
      case ClickToFavourite => Emit(Published(Label.ClickToFavourite));
    }

    /** Runs a weather task's `n`-th segment. */
    method ResumeTask(city: City, outcome: Response<Weather>, n: nat)
      requires Valid()
      modifies this
      ensures Valid() && trace == old(trace) + TaskSegment(city, outcome, n)
    {
      if n == 0 {
        Dispatch(WeatherLoading(city.id));
        Emit(Called(GetCurrentWeather(city.id)));
      } else if n == 1 {
        match outcome
        case Ok(w) => Dispatch(WeatherSuccess(city.id, w.tempC, w.conditionUrl));
        case Failed => Dispatch(WeatherError(city.id));
      }
    }

    /** `loadWeatherForCity` with no other task interleaved. */
    method LoadWeatherForCity(city: City, outcome: Response<Weather>)
      requires Valid()
      modifies this
      ensures Valid() && trace == old(trace) + WeatherTask(city, outcome)
    {
      ResumeTask(city, outcome, 0);
      ResumeTask(city, outcome, 1);
    }

    /** Resumes the task that entry `k` of the schedule names. */
    method ResumeScheduled(cities: seq<City>, outcomes: seq<Response<Weather>>, schedule: seq<nat>, k: nat,
                           ghost start: seq<Effect>)
      requires Valid() && |outcomes| == |cities| && ValidSchedule(|cities|, schedule) && k < |schedule|
      requires trace == start + Interleaved(cities, outcomes, schedule[..k])
      modifies this
      ensures Valid() && trace == start + Interleaved(cities, outcomes, schedule[..k + 1])
    {
      var j := schedule[k];
      var n := multiset(schedule[..k])[j];
      InterleavedStep(cities, outcomes, schedule, k);
      ResumeTask(cities[j], outcomes[j], n);
      AppendAssoc(start, Interleaved(cities, outcomes, schedule[..k]), TaskSegment(cities[j], outcomes[j], n));
    }

    /**
     * The weather tasks of the fan-out, one per city, their segments
     * interleaved as `schedule` says.
     */
    method RunFanOut(cities: seq<City>, outcomes: seq<Response<Weather>>, schedule: seq<nat>)
      requires Valid() && |outcomes| == |cities| && ValidSchedule(|cities|, schedule)
      modifies this
      ensures Valid() && trace == old(trace) + Interleaved(cities, outcomes, schedule)
    {
      ghost var start := trace;
      var k := 0;
      while k < |schedule|
        invariant 0 <= k <= |schedule|
        invariant Valid()
        invariant trace == start + Interleaved(cities, outcomes, schedule[..k])
      {
        ResumeScheduled(cities, outcomes, schedule, k, start);
        k := k + 1;
      }
      assert schedule[..k] == schedule;
    }

    /**
     * `executeAction`: dispatch the new list, then run one weather task per
     * city, interleaved as `schedule` says.
     */
    method ExecuteAction(action: Action, outcomes: seq<Response<Weather>>, schedule: seq<nat>)
      requires Valid() && |outcomes| == |action.cities| && ValidSchedule(|action.cities|, schedule)
      modifies this
      ensures Valid()
      ensures trace == old(trace) + [Dispatched(Msg.FavouriteCitiesSuccess(action.cities))]
                       + Interleaved(action.cities, outcomes, schedule)
      ensures UniqueIds(action.cities) ==> ItemsMatch(state, action.cities, outcomes, multiset(schedule))
    {
      var cities := action.cities;
      Dispatch(Msg.FavouriteCitiesSuccess(cities));
      ghost var listed := state;
      ghost var start := trace;
      RunFanOut(cities, outcomes, schedule);
      ghost var fanOut := Interleaved(cities, outcomes, schedule);
      TraceAppend(start, fanOut);
      FoldAppend(Reduce, InitialState(), Msgs(start), Msgs(fanOut));
      assert state == ReduceAll(listed, Msgs(fanOut));
      if UniqueIds(cities) {
        FanOutStatuses(old(state), cities, outcomes, schedule);
      }
    }
  }
}
