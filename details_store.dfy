/**
 * The details store for one city: whether the city is a favourite, fed by a
 * stream of statuses, and the state of a forecast fetched once at start.
 * The two are separate fields that separate Msgs set.
 */
module DetailsStore {
  import opened Domain
  import opened Mvi

  datatype ForecastState = Initial | Loading | Error | Success(forecast: Forecast)
  datatype State = State(city: City, isFavourite: bool, forecastState: ForecastState)

  datatype Intent = ClickBack | ClickChangeFavouriteStatus
  datatype Label = ClickBack

  /** What the bootstrapper sends to the executor. */
  datatype Action =
    | FavouriteStatusChanged(isFavourite: bool)
    | ForecastSuccess(forecast: Forecast)
    | ForecastLoading
    | ForecastError

  datatype Msg =
    | FavouriteStatusChanged(isFavourite: bool)
    | ForecastSuccess(forecast: Forecast)
    | ForecastLoading
    | ForecastError

  /** Calls into collaborators: the forecast use case and the two favourites calls. */
  datatype Call = GetForecast(cityId: int) | AddToFavourite(city: City) | RemoveFromFavourite(cityId: int)

  type Effect = Event<Msg, Label, Call>

  /** A new store shows `city`, not yet a favourite, with no forecast requested. */
  function InitialState(city: City): State
  {
    State(city, false, Initial)
  }

  // ---------------------------------------------------------------- reducer

  function Reduce(s: State, msg: Msg): State
  {
    match msg
    case FavouriteStatusChanged(b) => s.(isFavourite := b)
    case ForecastError => s.(forecastState := Error)
    case ForecastLoading => s.(forecastState := Loading)
    case ForecastSuccess(f) => s.(forecastState := Success(f))
  }

  function ReduceAll(s: State, ms: seq<Msg>): State
  {
    Fold(Reduce, s, ms)
  }

  /** The status the last status Msg of `ms` reports, or `b` if there is none. */
  function LastFavourite(b: bool, ms: seq<Msg>): bool
    decreases |ms|
  {
    if |ms| == 0 then b
    else if ms[|ms| - 1].FavouriteStatusChanged? then ms[|ms| - 1].isFavourite
    else LastFavourite(b, ms[..|ms| - 1])
  }

  /** The forecast state one forecast Msg sets. */
  function ForecastOf(m: Msg): ForecastState
    requires !m.FavouriteStatusChanged?
  {
    match m
    case ForecastError => Error
    case ForecastLoading => Loading
    case ForecastSuccess(f) => Success(f)
  }

  /** The forecast state the last forecast Msg of `ms` sets, or `f` if there is none. */
  function LastForecast(f: ForecastState, ms: seq<Msg>): ForecastState
    decreases |ms|
  {
    if |ms| == 0 then f
    else if !ms[|ms| - 1].FavouriteStatusChanged? then ForecastOf(ms[|ms| - 1])
    else LastForecast(f, ms[..|ms| - 1])
  }

  /**
   * After any Msg sequence the city is the one the store was made for, the
   * favourite flag is the last status reported, and the forecast state is
   * the one the last forecast Msg set: the two kinds never touch each other's field.
   */
  lemma {:induction false} FieldsAreIndependent(s: State, ms: seq<Msg>)
    ensures ReduceAll(s, ms) == State(s.city, LastFavourite(s.isFavourite, ms), LastForecast(s.forecastState, ms))
    decreases |ms|
  {
    if |ms| > 0 {
      FieldsAreIndependent(s, ms[..|ms| - 1]);
    }
  }

  /** A status Msg and a forecast Msg commute. */
  lemma StatusAndForecastMsgsCommute(s: State, b: bool, m: Msg)
    requires !m.FavouriteStatusChanged?
    ensures Reduce(Reduce(s, Msg.FavouriteStatusChanged(b)), m) == Reduce(Reduce(s, m), Msg.FavouriteStatusChanged(b))
  {
  }

  // ---------------------------------------------------------------- executor

  /** `executeAction`: each Action is dispatched as the Msg of the same name and payload. */
  function Forward(action: Action): Msg
  {
    match action
    case FavouriteStatusChanged(b) => Msg.FavouriteStatusChanged(b)
    case ForecastSuccess(f) => Msg.ForecastSuccess(f)
    case ForecastLoading => Msg.ForecastLoading
    case ForecastError => Msg.ForecastError
  }

  /** The Action a Msg was forwarded from. */
  function ActionOf(msg: Msg): Action
  {
    match msg
    case FavouriteStatusChanged(b) => Action.FavouriteStatusChanged(b)
    case ForecastSuccess(f) => Action.ForecastSuccess(f)
    case ForecastLoading => Action.ForecastLoading
    case ForecastError => Action.ForecastError
  }

  /** Forwarding loses nothing and merges nothing: it is a bijection between Actions and Msgs. */
  lemma ForwardIsBijective(action: Action, msg: Msg)
    ensures ActionOf(Forward(action)) == action
    ensures Forward(ActionOf(msg)) == msg
  {
  }

  /** The call a favourite-toggle job makes: remove the city when it is a favourite, add it otherwise. */
  function ToggleCall(s: State): Call
  {
    if s.isFavourite then RemoveFromFavourite(s.city.id) else AddToFavourite(s.city)
  }

  /** The toggle removes exactly when the city is a favourite, and it acts on the store's own city. */
  lemma ToggleChoosesByStatus(s: State)
    ensures ToggleCall(s).RemoveFromFavourite? <==> s.isFavourite
    ensures ToggleCall(s).AddToFavourite? <==> !s.isFavourite
    ensures ToggleCall(s).RemoveFromFavourite? ==> ToggleCall(s).cityId == s.city.id
    ensures ToggleCall(s).AddToFavourite? ==> ToggleCall(s).city == s.city
  {
  }

  /** `executeIntent` for Back: publish ClickBack and nothing else. */
  function BackEffects(): seq<Effect>
  {
    [Published(Label.ClickBack)]
  }

  /** A toggle job's trace: one call and no Msg. */
  function ToggleEffects(s: State): seq<Effect>
  {
    [Called(ToggleCall(s))]
  }

  /** Back publishes only ClickBack; the toggle dispatches no Msg and publishes nothing. */
  lemma IntentEffectsSpec(s: State)
    ensures Labels(BackEffects()) == [Label.ClickBack] && Msgs(BackEffects()) == [] && Calls(BackEffects()) == []
    ensures Msgs(ToggleEffects(s)) == [] && Labels(ToggleEffects(s)) == [] && Calls(ToggleEffects(s)) == [ToggleCall(s)]
  {
    SingleEvent(BackEffects()[0]);
    SingleEvent(ToggleEffects(s)[0]);
  }

  // ---------------------------------------------------------------- bootstrapper

  /** The Msg that ends the forecast fetch: the forecast, or an error. */
  function OutcomeMsg(outcome: Response<Forecast>): Msg
  {
    match outcome
    case Ok(f) => Msg.ForecastSuccess(f)
    case Failed => Msg.ForecastError
  }

  /**
   * What the forecast task does when resumed for the `n`-th time: first
   * dispatch Loading and call the forecast use case for the city (then
   * suspend), then dispatch the outcome; a finished task does nothing more.
   */
  function ForecastSegment(city: City, outcome: Response<Forecast>, n: nat): seq<Effect>
  {
    if n == 0 then [Dispatched(Msg.ForecastLoading), Called(GetForecast(city.id))]
    else if n == 1 then [Dispatched(OutcomeMsg(outcome))]
    else []
  }

  /** One step of the bootstrapper's two tasks: the status stream emits, or the forecast task runs on. */
  datatype Step = StatusEmitted(isFavourite: bool) | ForecastResumed

  /** How many times the forecast task has been resumed in `steps`. */
  function ForecastRuns(steps: seq<Step>): nat
    decreases |steps|
  {
    if |steps| == 0 then 0
    else ForecastRuns(steps[..|steps| - 1]) + (if steps[|steps| - 1].ForecastResumed? then 1 else 0)
  }

  /** What one step adds to the trace, when the forecast task has already run `n` times. */
  function StepSegment(city: City, outcome: Response<Forecast>, step: Step, n: nat): seq<Effect>
  {
    match step
    case StatusEmitted(b) => [Dispatched(Msg.FavouriteStatusChanged(b))]
    case ForecastResumed => ForecastSegment(city, outcome, n)
  }

  /**
   * The bootstrapper's trace: both tasks started together, their steps
   * interleaved as `steps` says. Each status the stream emits is dispatched
   * as a status Msg.
   */
  function BootstrapTrace(city: City, outcome: Response<Forecast>, steps: seq<Step>): seq<Effect>
    decreases |steps|
  {
    if |steps| == 0 then []
    else
      var prefix := steps[..|steps| - 1];
      BootstrapTrace(city, outcome, prefix) + StepSegment(city, outcome, steps[|steps| - 1], ForecastRuns(prefix))
  }

  /** Extending the steps by one appends that step's segment. */
  lemma BootstrapTraceStep(city: City, outcome: Response<Forecast>, steps: seq<Step>, k: nat)
    requires k < |steps|
    ensures BootstrapTrace(city, outcome, steps[..k + 1]) ==
              BootstrapTrace(city, outcome, steps[..k]) + StepSegment(city, outcome, steps[k], ForecastRuns(steps[..k]))
    ensures ForecastRuns(steps[..k + 1]) == ForecastRuns(steps[..k]) + (if steps[k].ForecastResumed? then 1 else 0)
  {
    assert steps[..k + 1][..k] == steps[..k];
  }

  /** The last status emitted in `steps`, or `b` if there is none. */
  function LastEmitted(b: bool, steps: seq<Step>): bool
    decreases |steps|
  {
    if |steps| == 0 then b
    else if steps[|steps| - 1].StatusEmitted? then steps[|steps| - 1].isFavourite
    else LastEmitted(b, steps[..|steps| - 1])
  }

  /** The forecast state after the forecast task ran `n` times. */
  function ForecastAfter(n: nat, outcome: Response<Forecast>): ForecastState
  {
    if n == 0 then Initial
    else if n == 1 then Loading
    else match outcome
      case Ok(f) => Success(f)
      case Failed => Error
  }

  /** The Msgs of the forecast task's segments. */
  lemma SegmentMsgs(city: City, outcome: Response<Forecast>, n: nat)
    ensures Msgs(ForecastSegment(city, outcome, n)) ==
              if n == 0 then [Msg.ForecastLoading]
              else if n == 1 then [OutcomeMsg(outcome)]
              else []
  {
    var seg := ForecastSegment(city, outcome, n);
    if n == 0 {
      TraceAppend([seg[0]], [seg[1]]);
      assert seg == [seg[0]] + [seg[1]];
      SingleEvent(seg[0]);
      SingleEvent(seg[1]);
    } else if n == 1 {
      SingleEvent(seg[0]);
    }
  }

  /**
   * The forecast task run to completion dispatches Loading and then exactly
   * one of Success (with the fetched forecast) or Error, and calls the
   * forecast use case once, for the store's city.
   */
  lemma ForecastTaskSpec(city: City, outcome: Response<Forecast>)
    ensures var run := ForecastSegment(city, outcome, 0) + ForecastSegment(city, outcome, 1);
            Msgs(run) == [Msg.ForecastLoading, OutcomeMsg(outcome)] &&
            Calls(run) == [GetForecast(city.id)] && Labels(run) == []
  {
    var a := ForecastSegment(city, outcome, 0);
    var b := ForecastSegment(city, outcome, 1);
    TraceAppend(a, b);
    TraceAppend([a[0]], [a[1]]);
    assert a == [a[0]] + [a[1]];
    SingleEvent(a[0]);
    SingleEvent(a[1]);
    SingleEvent(b[0]);
  }

  lemma ReduceAllSingle(s: State, m: Msg)
    ensures ReduceAll(s, [m]) == Reduce(s, m)
  {
    assert [m][..0] == [];
    assert Fold(Reduce, s, []) == s;
  }

  /** One step sets the flag to the status emitted, or moves the forecast task on by one segment. */
  lemma StepState(city: City, outcome: Response<Forecast>, s: State, step: Step, n: nat)
    requires s.city == city && s.forecastState == ForecastAfter(n, outcome)
    ensures ReduceAll(s, Msgs(StepSegment(city, outcome, step, n))) ==
              if step.StatusEmitted? then State(city, step.isFavourite, s.forecastState)
              else State(city, s.isFavourite, ForecastAfter(n + 1, outcome))
  {
    var seg := StepSegment(city, outcome, step, n);
    if step.StatusEmitted? {
      SingleEvent(seg[0]);
      ReduceAllSingle(s, Msg.FavouriteStatusChanged(step.isFavourite));
    } else {
      SegmentMsgs(city, outcome, n);
      if n == 0 {
        ReduceAllSingle(s, Msg.ForecastLoading);
      } else if n == 1 {
        ReduceAllSingle(s, OutcomeMsg(outcome));
      } else {
        assert Fold(Reduce, s, []) == s;
      }
    }
  }

  /**
   * Whatever the interleaving of the status stream and the forecast task,
   * the store still shows its own city, the favourite flag is the last
   * status emitted (false before the first), and the forecast state is the
   * one the forecast task has reached: Initial, Loading, then Success or Error.
   */
  lemma {:induction false} BootstrapState(city: City, outcome: Response<Forecast>, steps: seq<Step>)
    ensures ReduceAll(InitialState(city), Msgs(BootstrapTrace(city, outcome, steps))) ==
              State(city, LastEmitted(false, steps), ForecastAfter(ForecastRuns(steps), outcome))
    decreases |steps|
  {
    var s0 := InitialState(city);
    if |steps| == 0 {
      assert Fold(Reduce, s0, []) == s0;
    } else {
      var prefix := steps[..|steps| - 1];
      var last := steps[|steps| - 1];
      BootstrapState(city, outcome, prefix);
      var before := BootstrapTrace(city, outcome, prefix);
      var seg := StepSegment(city, outcome, last, ForecastRuns(prefix));
      assert BootstrapTrace(city, outcome, steps) == before + seg;
      FoldTrace(Reduce, s0, before, seg);
      StepState(city, outcome, ReduceAll(s0, Msgs(before)), last, ForecastRuns(prefix));
    }
  }

  // ---------------------------------------------------------------- store

  /**
   * A details store for one city: its State, the trace of its bootstrapper
   * and executor, how many times the forecast task has run, and how many
   * favourite-toggle jobs are launched but have not run yet.
   */
  class Store {
    const city: City
    var state: State
    var trace: seq<Effect>
    var forecastRuns: nat
    var pendingToggles: nat

    /** The State is the initial one for `city` with every dispatched Msg applied, in order. */
    ghost predicate Valid()
      reads this
    {
      state == ReduceAll(InitialState(city), Msgs(trace))
    }

    constructor (city: City)
      ensures Valid() && this.city == city && state == InitialState(city)
      ensures trace == [] && forecastRuns == 0 && pendingToggles == 0
    {
      this.city := city;
      state := InitialState(city);
      trace := [];
      forecastRuns := 0;
      pendingToggles := 0;
    }

    method Dispatch(msg: Msg)
      requires Valid()
      modifies this
      ensures Valid() && trace == old(trace) + [Dispatched(msg)] && state == Reduce(old(state), msg)
      ensures forecastRuns == old(forecastRuns) && pendingToggles == old(pendingToggles)
    {
      TraceAppend(trace, [Dispatched(msg)]);
      SingleEvent<Msg, Label, Call>(Dispatched(msg));
      assert (Msgs(trace) + [msg])[..|Msgs(trace)|] == Msgs(trace);
      trace := trace + [Dispatched(msg)];
      state := Reduce(state, msg);
    }

    /** Appends an event that is not a Msg; the State stays as it is. */
    method Emit(e: Effect)
      requires Valid() && !e.Dispatched?
      modifies this
      ensures Valid() && trace == old(trace) + [e] && state == old(state)
      ensures forecastRuns == old(forecastRuns) && pendingToggles == old(pendingToggles)
    {
      TraceAppend(trace, [e]);
      SingleEvent(e);
      assert Msgs(trace) + [] == Msgs(trace);
      trace := trace + [e];
    }

    /** `executeAction`: dispatch the Msg the Action names. */
    method ExecuteAction(action: Action)
      requires Valid()
      modifies this
      ensures Valid() && trace == old(trace) + [Dispatched(Forward(action))] && state == Reduce(old(state), Forward(action))
      ensures forecastRuns == old(forecastRuns) && pendingToggles == old(pendingToggles)
    {
      match action
      case FavouriteStatusChanged(b) => Dispatch(Msg.FavouriteStatusChanged(b));
      case ForecastError => Dispatch(Msg.ForecastError);
      case ForecastLoading => Dispatch(Msg.ForecastLoading);
      case ForecastSuccess(f) => Dispatch(Msg.ForecastSuccess(f));
    }

    /**
     * `executeIntent`: Back publishes ClickBack; the favourite toggle
     * launches a job that reads the State only when it runs (`RunToggle`).
     */
    method ExecuteIntent(intent: Intent)
      requires Valid()
      modifies this
      ensures Valid() && state == old(state) && forecastRuns == old(forecastRuns)
      ensures intent.ClickBack? ==> trace == old(trace) + BackEffects() && pendingToggles == old(pendingToggles)
      ensures intent.ClickChangeFavouriteStatus? ==> trace == old(trace) && pendingToggles == old(pendingToggles) + 1
    {
      match intent
      case ClickBack => Emit(Published(Label.ClickBack));
      case ClickChangeFavouriteStatus => pendingToggles := pendingToggles + 1;
    }

    /** Runs one launched toggle job: remove or add, as the State says at this moment. */
    method RunToggle()
      requires Valid() && pendingToggles > 0
      modifies this
      ensures Valid() && trace == old(trace) + ToggleEffects(old(state)) && state == old(state)
      ensures forecastRuns == old(forecastRuns) && pendingToggles == old(pendingToggles) - 1
    {
      if state.isFavourite {
        Emit(Called(RemoveFromFavourite(state.city.id)));
      } else {
        Emit(Called(AddToFavourite(state.city)));
      }
      pendingToggles := pendingToggles - 1;
    }

    /** Runs the forecast task's next segment. */
    method ResumeForecast(outcome: Response<Forecast>)
      requires Valid()
      modifies this
      ensures Valid() && trace == old(trace) + ForecastSegment(city, outcome, old(forecastRuns))
      ensures forecastRuns == old(forecastRuns) + 1 && pendingToggles == old(pendingToggles)
    {
      if forecastRuns == 0 {
        ExecuteAction(Action.ForecastLoading);
        Emit(Called(GetForecast(city.id)));
      } else if forecastRuns == 1 {
        match outcome
        case Ok(f) => ExecuteAction(Action.ForecastSuccess(f));
        case Failed => ExecuteAction(Action.ForecastError);
      }
      forecastRuns := forecastRuns + 1;
    }

    /** Runs one bootstrap step. */
    method RunStep(outcome: Response<Forecast>, steps: seq<Step>, k: nat, ghost start: seq<Effect>)
      requires Valid() && k < |steps| && forecastRuns == ForecastRuns(steps[..k])
      requires trace == start + BootstrapTrace(city, outcome, steps[..k])
      modifies this
      ensures Valid() && forecastRuns == ForecastRuns(steps[..k + 1])
      ensures trace == start + BootstrapTrace(city, outcome, steps[..k + 1])
      ensures pendingToggles == old(pendingToggles)
    {
      BootstrapTraceStep(city, outcome, steps, k);
      var n := forecastRuns;
      match steps[k] {
        case StatusEmitted(b) =>
          ExecuteAction(Action.FavouriteStatusChanged(b));
        case ForecastResumed =>
          ResumeForecast(outcome);
      }
      AppendAssoc(start, BootstrapTrace(city, outcome, steps[..k]), StepSegment(city, outcome, steps[k], n));
    }

    /**
     * The bootstrapper: the status subscription and the forecast task,
     * started together on a new store and run in the order `steps` gives.
     */
    method Bootstrap(outcome: Response<Forecast>, steps: seq<Step>)
      requires Valid() && forecastRuns == 0
      modifies this
      ensures Valid() && trace == old(trace) + BootstrapTrace(city, outcome, steps)
      ensures forecastRuns == ForecastRuns(steps) && pendingToggles == old(pendingToggles)
      ensures old(trace) == [] ==>
                state == State(city, LastEmitted(false, steps), ForecastAfter(ForecastRuns(steps), outcome))
    {
      ghost var start := trace;
      var k := 0;
      assert trace == start + BootstrapTrace(city, outcome, steps[..0]);
      while k < |steps|
        invariant 0 <= k <= |steps|
        invariant Valid() && forecastRuns == ForecastRuns(steps[..k]) && pendingToggles == old(pendingToggles)
        invariant trace == start + BootstrapTrace(city, outcome, steps[..k])
      {
        RunStep(outcome, steps, k, start);
        k := k + 1;
      }
      assert steps[..k] == steps;
      if start == [] {
        assert trace == BootstrapTrace(city, outcome, steps);
        BootstrapState(city, outcome, steps);
      }
    }
  }
}
