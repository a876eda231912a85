/**
 * The favourites screen's component: what each of its UI methods sends to
 * the store, and which of the callbacks it was built with each published
 * Label invokes.
 */
module FavouriteComponent {
  import opened Domain
  import opened Mvi
  import FavouriteStore

  /** The callbacks the component is built with, by the parameter names of its constructor. */
  datatype Callback = OnCityItemClicked(city: City) | OnAddToFavouriteClicked | OnSearchClicked

  /** The component's UI methods. */
  datatype UserEvent = OnClickSearch | OnClickAddFavourite | OnClickCityItem(city: City)

  /** The Intent each UI method sends to the store. */
  function IntentOf(e: UserEvent): FavouriteStore.Intent
  {
    match e
    case OnClickSearch => FavouriteStore.Intent.ClickSearch
    case OnClickAddFavourite => FavouriteStore.Intent.ClickToFavourite
    case OnClickCityItem(city) => FavouriteStore.Intent.CityItemClicked(city)
  }

  /** The label collector: the one callback each Label invokes. */
  function OnLabel(l: FavouriteStore.Label): Callback
  {
    match l
    case CityItemClicked(city) => OnCityItemClicked(city)
    case ClickSearch => OnSearchClicked
    case ClickToFavourite => OnAddToFavouriteClicked
  }

  /** The Label that invokes a callback. */
  function LabelFor(cb: Callback): FavouriteStore.Label
  {
    match cb
    case OnCityItemClicked(city) => FavouriteStore.Label.CityItemClicked(city)
    case OnSearchClicked => FavouriteStore.Label.ClickSearch
    case OnAddToFavouriteClicked => FavouriteStore.Label.ClickToFavourite
  }

  /** Each Label invokes exactly one callback and each callback is invoked by exactly one Label, with the same city. */
  lemma OnLabelIsBijective(l: FavouriteStore.Label, cb: Callback)
    ensures LabelFor(OnLabel(l)) == l
    ensures OnLabel(LabelFor(cb)) == cb
    ensures OnLabel(l) == cb <==> l == LabelFor(cb)
  {
  }

  /** The callback a UI method is meant to reach. */
  function Expected(e: UserEvent): Callback
  {
    match e
    case OnClickSearch => OnSearchClicked
    case OnClickAddFavourite => OnAddToFavouriteClicked
    case OnClickCityItem(city) => OnCityItemClicked(city)
  }

  /**
   * Through the store and back: each UI method makes the component invoke
   * exactly its own callback once (the city item with the same city), and
   * changes no State.
   */
  lemma UserEventReachesCallback(e: UserEvent)
    ensures Collect(FavouriteStore.IntentEffects(IntentOf(e)), OnLabel) == [Expected(e)]
    ensures Msgs(FavouriteStore.IntentEffects(IntentOf(e))) == []
  {
    var es := FavouriteStore.IntentEffects(IntentOf(e));
    FavouriteStore.IntentPublishesOnly(IntentOf(e));
    SingleEvent(es[0]);
  }
}
