/**
 * The root component: a stack of screen configurations, the child each
 * configuration is built into, and the push or pop each child's callbacks
 * perform. The stack starts as the favourites screen alone.
 */
module Root {
  import opened Domain
  import opened Mvi
  import FavouriteStore
  import SearchStore
  import FavouriteComponent
  import SearchComponent

  datatype Config = Favourite | Search(openSearch: SearchStore.OpenSearch) | Details(city: City)

  /** A child of the stack, with what its component is created from. */
  datatype Child = FavouriteChild | SearchChild(openSearch: SearchStore.OpenSearch) | DetailsChild(city: City)

  /** `child`: Details is built for the config's city, Search in the config's mode. */
  function ChildOf(config: Config): Child
  {
    match config
    case Favourite => FavouriteChild
    case Search(mode) => SearchChild(mode)
    case Details(city) => DetailsChild(city)
  }

  /** The config a child was built from. */
  function ConfigOf(child: Child): Config
  {
    match child
    case FavouriteChild => Favourite
    case SearchChild(mode) => Search(mode)
    case DetailsChild(city) => Details(city)
  }

  /** A child keeps everything its config holds: building is a bijection. */
  lemma ChildKeepsConfig(config: Config, child: Child)
    ensures ConfigOf(ChildOf(config)) == config
    ensures ChildOf(ConfigOf(child)) == child
  {
  }

  /** The callback of some child: a favourites or search callback, or the details screen's back callback. */
  datatype Callback =
    | FromFavourite(favourite: FavouriteComponent.Callback)
    | FromSearch(search: SearchComponent.Callback)
    | FromDetailsBack

  /** The child a callback belongs to. */
  predicate BelongsTo(config: Config, cb: Callback)
  {
    match cb
    case FromFavourite(_) => config.Favourite?
    case FromSearch(_) => config.Search?
    case FromDetailsBack => config.Details?
  }

  datatype NavOp = Push(config: Config) | Pop

  /**
   * The navigation each callback performs: adding a favourite opens search
   * to add, searching opens it from the main screen, a city opens its
   * details, and every back or saved callback pops.
   */
  function Navigate(cb: Callback): NavOp
  {
    match cb
    case FromFavourite(f) =>
      (match f
       case OnAddToFavouriteClicked => Push(Search(SearchStore.FromAdd))
       case OnCityItemClicked(city) => Push(Details(city))
       case OnSearchClicked => Push(Search(SearchStore.FromMain)))
    case FromSearch(s) =>
      (match s
       case OnBackClicked => Pop
       case OnCitySavedToFavourite => Pop
       case OnForecastForCityRequested(city) => Push(Details(city)))
    case FromDetailsBack => Pop
  }

  /** A push appends to the stack; a pop removes the top. */
  function Apply(stack: seq<Config>, op: NavOp): (r: seq<Config>)
    requires op.Pop? ==> |stack| > 0
    ensures op.Push? ==> |r| == |stack| + 1 && r[..|stack|] == stack && r[|stack|] == op.config
    ensures op.Pop? ==> |r| == |stack| - 1 && r == stack[..|r|]
  {
    match op
    case Push(config) => stack + [config]
    case Pop => stack[..|stack| - 1]
  }

  /**
   * The stacks navigation can reach: the favourites screen at the bottom,
   * alone or under one search or details screen, or under a search screen
   * with a details screen on top.
   */
  predicate Reachable(stack: seq<Config>)
  {
    stack == [Favourite] ||
    (|stack| == 2 && stack[0] == Favourite && !stack[1].Favourite?) ||
    (|stack| == 3 && stack[0] == Favourite && stack[1].Search? && stack[2].Details?)
  }

  /** On a reachable stack, no configuration occurs twice. */
  lemma ReachableConfigsDistinct(stack: seq<Config>)
    requires Reachable(stack)
    ensures forall i, j :: 0 <= i < j < |stack| ==> stack[i] != stack[j]
  {
  }

  /**
   * A callback of the child on top keeps the stack reachable; in particular
   * a pop always has a screen under the top to return to, so the stack is
   * never emptied and the favourites screen stays at the bottom.
   */
  lemma NavigationKeepsShape(stack: seq<Config>, cb: Callback)
    requires Reachable(stack) && BelongsTo(stack[|stack| - 1], cb)
    ensures Navigate(cb).Pop? ==> |stack| >= 2
    ensures Reachable(Apply(stack, Navigate(cb)))
  {
    var op := Navigate(cb);
    if op.Pop? {
      assert !stack[|stack| - 1].Favourite?;
    } else {
      var r := Apply(stack, op);
      assert r == stack + [op.config];
    }
  }

  // ---------------------------------------------------------------- screens

  /**
   * Something the user does on the screen on top. A search-screen event
   * carries the outcome of the favourites call a city click in add mode
   * makes; every other event ignores it.
   */
  datatype ScreenEvent =
    | OnFavourite(favourite: FavouriteComponent.UserEvent)
    | OnSearch(search: SearchComponent.UserEvent, added: Response<()>)
    | OnDetailsBack

  predicate EventOn(config: Config, ev: ScreenEvent)
  {
    match ev
    case OnFavourite(_) => config.Favourite?
    case OnSearch(_, _) => config.Search?
    case OnDetailsBack => config.Details?
  }

  /**
   * The callbacks a screen event makes the top child invoke: through its
   * store's Intent and the Labels it publishes. The details screen's back
   * button reaches its back callback directly: DetailsComponentImpl is not
   * part of this model.
   */
  function CallbacksFor(top: Config, ev: ScreenEvent): (cbs: seq<Callback>)
    requires EventOn(top, ev)
    ensures forall i :: 0 <= i < |cbs| ==> BelongsTo(top, cbs[i])
  {
    match ev
    case OnFavourite(e) =>
      var fs := Collect(FavouriteStore.IntentEffects(FavouriteComponent.IntentOf(e)), FavouriteComponent.OnLabel);
      seq(|fs|, i requires 0 <= i < |fs| => FromFavourite(fs[i]))
    case OnSearch(e, added) =>
      var ss := Collect(SearchStore.IntentEffects(top.openSearch, SearchComponent.IntentOf(e), added), SearchComponent.OnLabel);
      seq(|ss|, i requires 0 <= i < |ss| => FromSearch(ss[i]))
    case OnDetailsBack => [FromDetailsBack]
  }

  /** A screen event reaches at most one callback: the one its component names. */
  lemma AtMostOneCallback(top: Config, ev: ScreenEvent)
    requires EventOn(top, ev)
    ensures |CallbacksFor(top, ev)| <= 1
    ensures ev.OnFavourite? ==> CallbacksFor(top, ev) == [FromFavourite(FavouriteComponent.Expected(ev.favourite))]
  {
    match ev
    case OnFavourite(e) =>
      FavouriteComponent.UserEventReachesCallback(e);
    case OnSearch(e, added) =>
      SearchComponent.UserEventReachesCallback(top.openSearch, e, added);
    case OnDetailsBack =>
  }

  /** The stack after a screen event on the top screen: its callback's navigation, if it reaches one. */
  function Handle(stack: seq<Config>, ev: ScreenEvent): seq<Config>
    requires Reachable(stack) && EventOn(stack[|stack| - 1], ev)
  {
    var cbs := CallbacksFor(stack[|stack| - 1], ev);
    AtMostOneCallback(stack[|stack| - 1], ev);
    if |cbs| == 0 then stack
    else
      NavigationKeepsShape(stack, cbs[0]);
      Apply(stack, Navigate(cbs[0]))
  }

  /** Whatever the user does on the screen on top, the stack stays reachable. */
  lemma HandleKeepsShape(stack: seq<Config>, ev: ScreenEvent)
    requires Reachable(stack) && EventOn(stack[|stack| - 1], ev)
    ensures Reachable(Handle(stack, ev))
  {
    var cbs := CallbacksFor(stack[|stack| - 1], ev);
    if |cbs| > 0 {
      NavigationKeepsShape(stack, cbs[0]);
    }
  }

  /**
   * Adding a favourite: the add button opens search to add; clicking a
   * found city adds it to the favourites and, once the add returns, goes
   * back to the favourites screen alone. When the add throws, no Label is
   * published and the search screen stays on top.
   */
  lemma AddFavouriteRoundTrip(city: City, added: Response<()>)
    ensures Handle([Favourite], OnFavourite(FavouriteComponent.OnClickAddFavourite)) == [Favourite, Search(SearchStore.FromAdd)]
    ensures Handle([Favourite, Search(SearchStore.FromAdd)], OnSearch(SearchComponent.OnClickCity(city), added)) ==
              if added.Ok? then [Favourite] else [Favourite, Search(SearchStore.FromAdd)]
    ensures Calls(SearchStore.IntentEffects(SearchStore.FromAdd, SearchComponent.IntentOf(SearchComponent.OnClickCity(city)), added)) ==
              [SearchStore.AddToFavourite(city)]
  {
    AtMostOneCallback(Favourite, OnFavourite(FavouriteComponent.OnClickAddFavourite));
    SearchComponent.UserEventReachesCallback(SearchStore.FromAdd, SearchComponent.OnClickCity(city), added);
    var ss := Collect(SearchStore.IntentEffects(SearchStore.FromAdd, SearchComponent.IntentOf(SearchComponent.OnClickCity(city)), added), SearchComponent.OnLabel);
    assert ss == if added.Ok? then [SearchComponent.OnCitySavedToFavourite] else [];
  }

  /**
   * Looking a city up from the main screen: search opens in main mode,
   * clicking a found city opens its details on top of the search, and two
   * backs return to the favourites screen alone.
   */
  lemma LookUpFromMainAndBack(city: City, added: Response<()>)
    ensures Handle([Favourite], OnFavourite(FavouriteComponent.OnClickSearch)) == [Favourite, Search(SearchStore.FromMain)]
    ensures Handle([Favourite, Search(SearchStore.FromMain)], OnSearch(SearchComponent.OnClickCity(city), added)) ==
              [Favourite, Search(SearchStore.FromMain), Details(city)]
    ensures Handle([Favourite, Search(SearchStore.FromMain), Details(city)], OnDetailsBack) == [Favourite, Search(SearchStore.FromMain)]
    ensures Handle([Favourite, Search(SearchStore.FromMain)], OnSearch(SearchComponent.OnClickBack, added)) == [Favourite]
  {
    AtMostOneCallback(Favourite, OnFavourite(FavouriteComponent.OnClickSearch));
    SearchComponent.UserEventReachesCallback(SearchStore.FromMain, SearchComponent.OnClickCity(city), added);
    SearchComponent.UserEventReachesCallback(SearchStore.FromMain, SearchComponent.OnClickBack, added);
    var s2 := [Favourite, Search(SearchStore.FromMain)];
    var s3 := [Favourite, Search(SearchStore.FromMain), Details(city)];
    assert s3[..|s3| - 1] == s2;
    assert s2[..|s2| - 1] == [Favourite];
  }

  /** A favourite's item opens that city's details; back returns to the favourites screen alone. */
  lemma CityItemOpensDetails(city: City)
    ensures Handle([Favourite], OnFavourite(FavouriteComponent.OnClickCityItem(city))) == [Favourite, Details(city)]
    ensures Handle([Favourite, Details(city)], OnDetailsBack) == [Favourite]
  {
    AtMostOneCallback(Favourite, OnFavourite(FavouriteComponent.OnClickCityItem(city)));
    var s2 := [Favourite, Details(city)];
    assert s2[..|s2| - 1] == [Favourite];
  }

  // ---------------------------------------------------------------- component

  /** The root component: its navigation stack, which its children's callbacks push onto and pop. */
  class RootComponent {
    var stack: seq<Config>

    ghost predicate Valid()
      reads this
    {
      Reachable(stack)
    }

    /** `childStack` with `Favourite` as the initial configuration. */
    constructor ()
      ensures Valid() && stack == [Favourite]
    {
      stack := [Favourite];
    }

    /** The child on top of the stack, the one on screen. */
    function Active(): (c: Child)
      requires Valid()
      reads this
      ensures ConfigOf(c) == stack[|stack| - 1]
    {
      ChildOf(stack[|stack| - 1])
    }

    /** A callback of the child on top runs its navigation on the stack. */
    method OnCallback(cb: Callback)
      requires Valid() && BelongsTo(stack[|stack| - 1], cb)
      modifies this
      ensures Valid() && stack == Apply(old(stack), Navigate(cb))
    {
      NavigationKeepsShape(stack, cb);
      match Navigate(cb) {
        case Push(config) => stack := stack + [config];
        case Pop => stack := stack[..|stack| - 1];
      }
    }

    /** A screen event on the top screen: the callbacks it reaches run in order. */
    method OnScreenEvent(ev: ScreenEvent)
      requires Valid() && EventOn(stack[|stack| - 1], ev)
      modifies this
      ensures Valid() && stack == Handle(old(stack), ev)
    {
      var cbs := CallbacksFor(stack[|stack| - 1], ev);
      AtMostOneCallback(stack[|stack| - 1], ev);
      if |cbs| > 0 {
        OnCallback(cbs[0]);
      }
    }
  }
}
