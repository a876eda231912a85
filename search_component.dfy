/**
 * The search screen's component: the store it creates, what each of its UI
 * methods sends to that store, and which of the callbacks it was built with
 * each published Label invokes.
 */
module SearchComponent {
  import opened Domain
  import opened Mvi
  import SearchStore

  /** The callbacks the component is built with, by the parameter names of its constructor. */
  datatype Callback = OnBackClicked | OnCitySavedToFavourite | OnForecastForCityRequested(city: City)

  /** The component's UI methods. */
  datatype UserEvent = ChangeSearchQuery(query: string) | OnClickBack | OnClickSearch | OnClickCity(city: City)

  /** The store a component opened in mode `openSearch` creates: a new one, in that same mode. */
  method CreateStore(openSearch: SearchStore.OpenSearch) returns (store: SearchStore.Store)
    ensures fresh(store) && store.Valid() && store.openSearch == openSearch
    ensures store.state == SearchStore.InitialState() && store.trace == [] && store.searchJob == None
  {
    store := new SearchStore.Store(openSearch);
  }

  /** The Intent each UI method sends to the store. */
  function IntentOf(e: UserEvent): SearchStore.Intent
  {
    match e
    case ChangeSearchQuery(q) => SearchStore.Intent.ChangeSearchQuery(q)
    case OnClickBack => SearchStore.Intent.ClickBack
    case OnClickSearch => SearchStore.Intent.ClickSearch
    case OnClickCity(city) => SearchStore.Intent.ClickCity(city)
  }

  /** The UI method that sends an Intent. */
  function UserEventOf(intent: SearchStore.Intent): UserEvent
  {
    match intent
    case ChangeSearchQuery(q) => ChangeSearchQuery(q)
    case ClickBack => OnClickBack
    case ClickSearch => OnClickSearch
    case ClickCity(city) => OnClickCity(city)
  }

  /** Every Intent is sent by exactly one UI method, with the same payload. */
  lemma IntentOfIsBijective(e: UserEvent, intent: SearchStore.Intent)
    ensures UserEventOf(IntentOf(e)) == e
    ensures IntentOf(UserEventOf(intent)) == intent
  {
  }

  /** The label collector: the one callback each Label invokes. */
  function OnLabel(l: SearchStore.Label): Callback
  {
    match l
    case ClickBack => OnBackClicked
    case OpenForecast(city) => OnForecastForCityRequested(city)
    case SaveToFavourite => OnCitySavedToFavourite
  }

  /** The Label that invokes a callback. */
  function LabelFor(cb: Callback): SearchStore.Label
  {
    match cb
    case OnBackClicked => SearchStore.Label.ClickBack
    case OnForecastForCityRequested(city) => SearchStore.Label.OpenForecast(city)
    case OnCitySavedToFavourite => SearchStore.Label.SaveToFavourite
  }

  /** Each Label invokes exactly one callback and each callback is invoked by exactly one Label, with the same city. */
  lemma OnLabelIsBijective(l: SearchStore.Label, cb: Callback)
    ensures LabelFor(OnLabel(l)) == l
    ensures OnLabel(LabelFor(cb)) == cb
    ensures OnLabel(l) == cb <==> l == LabelFor(cb)
  {
  }

  /**
   * Through the store and back: Back reaches the back callback; a city click
   * reaches the forecast callback for that city when the screen was opened
   * from the main screen, and, when it was opened to add one, adds the city
   * and reaches the saved-to-favourite callback exactly when the add
   * returned; editing the query and starting a search reach no callback.
   */
  lemma UserEventReachesCallback(openSearch: SearchStore.OpenSearch, e: UserEvent, added: Response<()>)
    ensures var es := SearchStore.IntentEffects(openSearch, IntentOf(e), added);
            Collect(es, OnLabel) ==
              match e
              case OnClickBack => [OnBackClicked]
              case OnClickCity(city) =>
                if openSearch == SearchStore.FromMain then [OnForecastForCityRequested(city)]
                else if added.Ok? then [OnCitySavedToFavourite]
                else []
              case _ => []
    ensures e.OnClickCity? && openSearch == SearchStore.FromAdd ==>
              Calls(SearchStore.IntentEffects(openSearch, IntentOf(e), added)) == [SearchStore.AddToFavourite(e.city)]
  {
    SearchStore.IntentEffectsSpec(openSearch, IntentOf(e), added);
  }
}
