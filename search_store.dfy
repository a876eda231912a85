/**
 * The search store: a query being edited, the status of the latest search,
 * and what a click on a result does, which depends on why the screen was
 * opened. At most one search job is uncancelled: each new search cancels
 * the previous job before launching its own.
 */
module SearchStore {
  import opened Domain
  import opened Mvi

  /** Why the search screen was opened: to add a favourite, or from the main screen to look a city up. */
  datatype OpenSearch = FromAdd | FromMain

  datatype SearchStatus = Initial | Error | Loading | Empty | Success(cities: seq<City>)

  /** The app's `State`; its status field is spelled `searchStare` there. */
  datatype State = State(searchQuery: string, searchStatus: SearchStatus)

  datatype Intent = ChangeSearchQuery(query: string) | ClickBack | ClickSearch | ClickCity(city: City)
  datatype Label = ClickBack | SaveToFavourite | OpenForecast(city: City)
  datatype Msg = ChangeSearchQuery(query: string) | SearchLoading | SearchError | SearchSuccess(cities: seq<City>)

  /** Calls into collaborators: the search use case and the favourites use case. */
  datatype Call = SearchCity(query: string) | AddToFavourite(city: City)

  type Effect = Event<Msg, Label, Call>

  function InitialState(): State
  {
    State("", Initial)
  }

  // ---------------------------------------------------------------- reducer

  /** The status a completed search shows: Empty for no hits, otherwise the hits themselves. */
  function Reduce(s: State, msg: Msg): State
  {
    match msg
    case ChangeSearchQuery(q) => s.(searchQuery := q)
    case SearchError => s.(searchStatus := Error)
    case SearchLoading => s.(searchStatus := Loading)
    case SearchSuccess(cities) => s.(searchStatus := if |cities| == 0 then Empty else Success(cities))
  }

  function ReduceAll(s: State, ms: seq<Msg>): State
  {
    Fold(Reduce, s, ms)
  }

  /** The query the last query Msg of `ms` sets, or `q` if there is none. */
  function LastQuery(q: string, ms: seq<Msg>): string
    decreases |ms|
  {
    if |ms| == 0 then q
    else if ms[|ms| - 1].ChangeSearchQuery? then ms[|ms| - 1].query
    else LastQuery(q, ms[..|ms| - 1])
  }

  /** The status one search Msg sets. */
  function StatusOf(m: Msg): SearchStatus
    requires !m.ChangeSearchQuery?
  {
    match m
    case SearchError => Error
    case SearchLoading => Loading
    case SearchSuccess(cities) => if |cities| == 0 then Empty else Success(cities)
  }

  /** The status the last search Msg of `ms` sets, or `st` if there is none. */
  function LastStatus(st: SearchStatus, ms: seq<Msg>): SearchStatus
    decreases |ms|
  {
    if |ms| == 0 then st
    else if !ms[|ms| - 1].ChangeSearchQuery? then StatusOf(ms[|ms| - 1])
    else LastStatus(st, ms[..|ms| - 1])
  }

  /**
   * The query and the status are independent: after any Msg sequence the
   * query is the one the last query Msg set, and the status is the one the
   * last search Msg set.
   */
  lemma {:induction false} FieldsAreIndependent(s: State, ms: seq<Msg>)
    ensures ReduceAll(s, ms) == State(LastQuery(s.searchQuery, ms), LastStatus(s.searchStatus, ms))
    decreases |ms|
  {
    if |ms| > 0 {
      FieldsAreIndependent(s, ms[..|ms| - 1]);
    }
  }

  /** Editing the query sets the query and leaves the status as it is. */
  lemma QueryMsgSetsOnlyQuery(s: State, q: string)
    ensures Reduce(s, Msg.ChangeSearchQuery(q)) == State(q, s.searchStatus)
  {
  }

  /** Loading and Error set only the status, to Loading and Error. */
  lemma LoadingAndErrorSetOnlyStatus(s: State)
    ensures Reduce(s, SearchLoading) == State(s.searchQuery, Loading)
    ensures Reduce(s, SearchError) == State(s.searchQuery, Error)
  {
  }

  /**
   * A completed search keeps the query; it shows Empty exactly when it found
   * no city, and otherwise Success holding the very list it found.
   */
  lemma SuccessStatus(s: State, cities: seq<City>)
    ensures Reduce(s, SearchSuccess(cities)).searchQuery == s.searchQuery
    ensures Reduce(s, SearchSuccess(cities)).searchStatus == Empty <==> cities == []
    ensures cities != [] ==> Reduce(s, SearchSuccess(cities)).searchStatus == Success(cities)
  {
  }

  /** A query Msg and a search Msg commute. */
  lemma QueryAndSearchMsgsCommute(s: State, q: string, m: Msg)
    requires !m.ChangeSearchQuery?
    ensures Reduce(Reduce(s, Msg.ChangeSearchQuery(q)), m) == Reduce(Reduce(s, m), Msg.ChangeSearchQuery(q))
  {
  }

  // ---------------------------------------------------------------- executor

  /**
   * `executeIntent` for every Intent but ClickSearch, which only launches a
   * job (see `Store.ExecuteIntent`). A city click adds the city to the
   * favourites and reports it saved when the screen was opened to add one,
   * and asks for its forecast otherwise. `added` is the outcome of that
   * favourites call: the job adding the city has no `try`, so when the call
   * throws, the exception leaves the job and SaveToFavourite is never published.
   */
  function IntentEffects(openSearch: OpenSearch, intent: Intent, added: Response<()>): seq<Effect>
  {
    match intent
    case ChangeSearchQuery(q) => [Dispatched(Msg.ChangeSearchQuery(q))]
    case ClickBack => [Published(Label.ClickBack)]
    case ClickCity(city) =>
      (match openSearch
       case FromAdd => [Called(AddToFavourite(city))] + (if added.Ok? then [Published(SaveToFavourite)] else [])
       case FromMain => [Published(OpenForecast(city))])
    case ClickSearch => []
  }

  /**
   * Editing the query dispatches only the query Msg; Back publishes only
   * ClickBack; a city click dispatches nothing, and either adds the city and
   * publishes SaveToFavourite if and only if the add returned (opened to
   * add), or publishes OpenForecast for that city (opened from the main screen).
   */
  lemma IntentEffectsSpec(openSearch: OpenSearch, intent: Intent, added: Response<()>)
    ensures intent.ChangeSearchQuery? ==>
              Msgs(IntentEffects(openSearch, intent, added)) == [Msg.ChangeSearchQuery(intent.query)] &&
              Labels(IntentEffects(openSearch, intent, added)) == [] && Calls(IntentEffects(openSearch, intent, added)) == []
    ensures intent.ClickBack? ==>
              Msgs(IntentEffects(openSearch, intent, added)) == [] &&
              Labels(IntentEffects(openSearch, intent, added)) == [Label.ClickBack] && Calls(IntentEffects(openSearch, intent, added)) == []
    ensures intent.ClickCity? ==> Msgs(IntentEffects(openSearch, intent, added)) == []
    ensures intent.ClickCity? && openSearch == FromAdd ==>
              Calls(IntentEffects(openSearch, intent, added)) == [AddToFavourite(intent.city)] &&
              Labels(IntentEffects(openSearch, intent, added)) == (if added.Ok? then [SaveToFavourite] else [])
    ensures intent.ClickCity? && openSearch == FromMain ==>
              Calls(IntentEffects(openSearch, intent, added)) == [] &&
              Labels(IntentEffects(openSearch, intent, added)) == [OpenForecast(intent.city)]
  {
    var es := IntentEffects(openSearch, intent, added);
    if intent.ClickCity? && openSearch == FromAdd && added.Ok? {
      TraceAppend([es[0]], [es[1]]);
      assert es == [es[0]] + [es[1]];
      SingleEvent(es[0]);
      SingleEvent(es[1]);
    } else if !intent.ClickSearch? {
      SingleEvent(es[0]);
    }
  }

  /** The Msg that ends a search: the cities found, or an error. */
  function OutcomeMsg(outcome: Response<seq<City>>): Msg
  {
    match outcome
    case Ok(cities) => SearchSuccess(cities)
    case Failed => SearchError
  }

  /**
   * What a search job does when resumed at `stage`: at 0 it dispatches
   * Loading and calls the search use case with `query`, then suspends; at 1
   * it dispatches the outcome. A job cancelled before it starts never runs;
   * one cancelled while it waits for the search is resumed with a
   * cancellation exception, which its `catch (e: Exception)` turns into
   * SearchError.
   */
  function JobSegment(stage: nat, cancelled: bool, query: string, outcome: Response<seq<City>>): seq<Effect>
  {
    if stage == 0 then
      if cancelled then [] else [Dispatched(SearchLoading), Called(SearchCity(query))]
    else if stage == 1 then
      if cancelled then [Dispatched(SearchError)] else [Dispatched(OutcomeMsg(outcome))]
    else []
  }

  /** The stage a job reaches after one resumption; 2 means finished. */
  function NextStage(stage: nat, cancelled: bool): nat
  {
    if stage == 0 && cancelled then 2 else if stage < 2 then stage + 1 else 2
  }

  /**
   * A job that runs to completion uncancelled dispatches Loading and then
   * exactly one of Success (with the cities found) or Error, publishes
   * nothing, and searches once, for `query`.
   */
  lemma JobRunsToCompletion(query: string, outcome: Response<seq<City>>)
    ensures var run := JobSegment(0, false, query, outcome) + JobSegment(1, false, query, outcome);
            Msgs(run) == [SearchLoading, OutcomeMsg(outcome)] &&
            Calls(run) == [SearchCity(query)] && Labels(run) == []
  {
    var a := JobSegment(0, false, query, outcome);
    var b := JobSegment(1, false, query, outcome);
    TraceAppend(a, b);
    TraceAppend([a[0]], [a[1]]);
    assert a == [a[0]] + [a[1]];
    SingleEvent(a[0]);
    SingleEvent(a[1]);
    SingleEvent(b[0]);
  }

  /** No step of a search job, cancelled or not, changes the query. */
  lemma JobKeepsQuery(s: State, stage: nat, cancelled: bool, query: string, outcome: Response<seq<City>>)
    ensures ReduceAll(s, Msgs(JobSegment(stage, cancelled, query, outcome))).searchQuery == s.searchQuery
  {
    var seg := JobSegment(stage, cancelled, query, outcome);
    var ms := Msgs(seg);
    if stage == 0 && !cancelled {
      TraceAppend([seg[0]], [seg[1]]);
      assert seg == [seg[0]] + [seg[1]];
      SingleEvent(seg[0]);
      SingleEvent(seg[1]);
      assert ms == [SearchLoading];
      assert ms[..0] == [];
    } else if stage == 1 {
      SingleEvent(seg[0]);
      assert ms == [seg[0].msg];
      assert ms[..0] == [];
    } else {
      assert seg == [];
    }
    FieldsAreIndependent(s, ms);
  }

  /**
   * A job cancelled while it waits for its search still reaches the reducer:
   * it sets the status to Error, whatever the newer search is showing.
   */
  lemma StaleJobShowsError(s: State, query: string, outcome: Response<seq<City>>)
    ensures ReduceAll(s, Msgs(JobSegment(1, true, query, outcome))) == State(s.searchQuery, Error)
  {
    var seg := JobSegment(1, true, query, outcome);
    SingleEvent(seg[0]);
    assert [SearchError][..0] == [];
  }

  // ---------------------------------------------------------------- store

  /**
   * A search store: its mode, its State, the trace of its executor, and its
   * search jobs: `stages[j]` is how far job j has run, `searchJob` is the
   * executor's reference to the latest job, and `cancelled` holds every job
   * it has cancelled.
   */
  class Store {
    const openSearch: OpenSearch
    var state: State
    var trace: seq<Effect>
    var searchJob: Option<nat>
    var stages: seq<nat>
    var cancelled: set<nat>

    /**
     * The State is the initial one with every dispatched Msg applied, and
     * every job but the latest has been cancelled: at most one is uncancelled.
     */
    ghost predicate Valid()
      reads this
    {
      state == ReduceAll(InitialState(), Msgs(trace)) &&
      searchJob == (if |stages| == 0 then None else Some(|stages| - 1)) &&
      (forall j: nat :: j in cancelled <==> j + 1 < |stages|) &&
      forall j :: 0 <= j < |stages| ==> stages[j] <= 2
    }

    constructor (openSearch: OpenSearch)
      ensures Valid() && this.openSearch == openSearch
      ensures state == InitialState() && trace == [] && searchJob == None && stages == [] && cancelled == {}
    {
      this.openSearch := openSearch;
      state := InitialState();
      trace := [];
      searchJob := None;
      stages := [];
      cancelled := {};
    }

    method Dispatch(msg: Msg)
      requires Valid()
      modifies this
      ensures Valid() && trace == old(trace) + [Dispatched(msg)] && state == Reduce(old(state), msg)
      ensures searchJob == old(searchJob) && stages == old(stages) && cancelled == old(cancelled)
    {
      TraceAppend(trace, [Dispatched(msg)]);
      SingleEvent<Msg, Label, Call>(Dispatched(msg));
      assert (Msgs(trace) + [msg])[..|Msgs(trace)|] == Msgs(trace);
      trace := trace + [Dispatched(msg)];
      state := Reduce(state, msg);
    }

    /** Appends an event that is not a Msg; the State stays as it is. */
    method Emit(e: Effect)
      requires Valid() && !e.Dispatched?
      modifies this
      ensures Valid() && trace == old(trace) + [e] && state == old(state)
      ensures searchJob == old(searchJob) && stages == old(stages) && cancelled == old(cancelled)
    {
      TraceAppend(trace, [e]);
      SingleEvent(e);
      assert Msgs(trace) + [] == Msgs(trace);
      trace := trace + [e];
    }

    /**
     * `executeIntent`. ClickSearch cancels the job `searchJob` refers to, if
     * any, and then launches a new job and stores it there; its body runs
     * later, in `ResumeSearch`. A city click in add mode runs its add job at
     * once, with `added` as the outcome of the favourites call.
     */
    method ExecuteIntent(intent: Intent, added: Response<()>)
      requires Valid()
      modifies this
      ensures Valid()
      ensures trace == old(trace) + IntentEffects(openSearch, intent, added)
      ensures state == if intent.ChangeSearchQuery? then Reduce(old(state), Msg.ChangeSearchQuery(intent.query)) else old(state)
      ensures intent.ClickSearch? ==>
                stages == old(stages) + [0] && searchJob == Some(|old(stages)|) &&
                cancelled == old(cancelled) + (if old(searchJob).Some? then {old(searchJob).value} else {})
      ensures !intent.ClickSearch? ==>
                stages == old(stages) && searchJob == old(searchJob) && cancelled == old(cancelled)
    {
      match intent
      case ChangeSearchQuery(q) =>
        Dispatch(Msg.ChangeSearchQuery(q));
      case ClickBack =>
        Emit(Published(Label.ClickBack));
      case ClickCity(city) =>
        match openSearch {
          case FromAdd =>
            Emit(Called(AddToFavourite(city)));
            if added.Ok? {
              Emit(Published(SaveToFavourite));
              assert trace == old(trace) + [Called(AddToFavourite(city)), Published(SaveToFavourite)];
            } else {
              assert trace == old(trace) + [Called(AddToFavourite(city))] + [];
            }
          case FromMain =>
            Emit(Published(OpenForecast(city)));
        }
      case ClickSearch =>
        if searchJob.Some? {
          cancelled := cancelled + {searchJob.value};
        }
        searchJob := Some(|stages|);
        stages := stages + [0];
        assert trace + [] == trace;
        forall j: nat ensures j in cancelled <==> j + 1 < |stages| {
          if j + 2 == |stages| {
            assert old(searchJob) == Some(j);
          }
        }
    }

    /** Runs the part of a job's body that `JobSegment` describes; the jobs' bookkeeping stays as it is. */
    method RunSegment(stage: nat, isCancelled: bool, outcome: Response<seq<City>>)
      requires Valid()
      modifies this
      ensures Valid()
      ensures trace == old(trace) + JobSegment(stage, isCancelled, old(state).searchQuery, outcome)
      ensures searchJob == old(searchJob) && stages == old(stages) && cancelled == old(cancelled)
    {
      if stage == 0 && !isCancelled {
        Dispatch(SearchLoading);
        var query := state.searchQuery;
        Emit(Called(SearchCity(query)));
      } else if stage == 1 {
        if isCancelled {
          Dispatch(SearchError);
        } else {
          Dispatch(OutcomeMsg(outcome));
        }
      }
    }

    /**
     * Resumes job `job` for one step of its body: its Msgs and its call,
     * if any, are appended to the trace, and its stage advances. The query
     * it searches with is the one in the State when it runs.
     */
    method ResumeSearch(job: nat, outcome: Response<seq<City>>)
      requires Valid() && job < |stages|
      modifies this
      ensures Valid()
      ensures trace == old(trace) + JobSegment(old(stages)[job], job in old(cancelled), old(state).searchQuery, outcome)
      ensures stages == old(stages)[job := NextStage(old(stages)[job], job in old(cancelled))]
      ensures searchJob == old(searchJob) && cancelled == old(cancelled)
    {
      var stage := stages[job];
      var isCancelled := job in cancelled;
      stages := stages[job := NextStage(stage, isCancelled)];
      RunSegment(stage, isCancelled, outcome);
    }
  }
}
