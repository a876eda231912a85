# WeatherApp core in Dafny

This project models the core of WeatherApp, an Android weather application. The app is built from MVI stores (MVIKotlin) and a Decompose navigation stack. Three screens are modelled:

- **favourites**: a list of favourite cities, each with its current weather;
- **search**: search for a city by name, then either add it as a favourite or open its forecast;
- **details**: one city's forecast, with a favourite toggle.

The model covers:

- **The three stores.** `FavouriteStore`, `SearchStore` and `DetailsStore` each get:
  - their State, Intent, Label, Action and Msg types;
  - the reducer, as a pure function;
  - the executor and bootstrapper, as a `class Store`. The class holds the current State and the ordered trace of what the executor has done: Msgs dispatched, Labels published, calls into use cases. Its invariant is that the State is the initial State with every dispatched Msg applied in order.
- **Concurrency.** Coroutines launched by an executor run in an order chosen by the caller. A schedule names which task is resumed at each step. Each suspension point splits a task into segments. The results of suspending use-case calls are inputs (`Response.Ok(value)` or `Response.Failed` for a caught exception, or for a thrown one where the source has no `try`).
- **The two mappers.** `WeatherMapper` and `SearchMapper` turn the weather API's transfer objects into domain entities. This includes the icon-URL rewrite and the conversion of epoch seconds to milliseconds.
- **The two screen components.** `FavouriteComponent` and `SearchComponent` map UI methods to Intents and published Labels to constructor callbacks.
- **The root component.** It holds the navigation stack of screen configurations, and each child callback pushes or pops a configuration.

Modules: `Domain` (entities), `Mvi` (the shared trace and fold), `WeatherMapper`, `SearchMapper`, `FavouriteStore`, `SearchStore`, `DetailsStore`, `FavouriteComponent`, `SearchComponent`, `Root`.

Main results:

- **Favourites fan-out.** Whatever the interleaving of the per-city weather loads, each city's item shows the status its own load has reached. The cities shown are always those of the latest favourites list, in order.
- **Search.** The query and the search status are independent. At most one search job is uncancelled. A stale job cancelled while it waits still reports Error.
- **Details.** Whatever the interleaving of the favourite-status stream and the forecast load, the flag is the last status emitted and the forecast shows the load's stage.
- **Mappers.** The corrected icon URL always has the `https:` scheme, and each `64x64` in it has become `128x128`, scanning left to right. Forecasts drop exactly the first day.
- **Navigation.** Every callback from the child on top keeps the stack in one of four shapes, so a pop never empties it. Scripted round trips return to the favourites screen.

Two points of the code are easy to misread:

- **Cancelled searches.** A search cancelled by a newer one still reports: the job's `catch (e: Exception)` also catches the cancellation, so a job cancelled while awaiting `searchCityUseCase` dispatches `SearchError` (`SearchStore.StaleJobShowsError`). A job cancelled before it started never runs.
- **Field name.** The search State's status field is spelled `searchStare` in the code. Here it is `searchStatus`.

## Model

| member | source | states |
|---|---|---|
| WeatherMapper.EpochMillis | app/src/main/java/com/example/weatherapp/data/mapper/WeatherMapper.kt:11-13 | `Long.toCalendar`: epoch seconds to the Calendar's time in milliseconds, with the Long product's wrap. Its partner `EpochMillisExact` states that it is exact whenever the product fits in a Long. |
| WeatherMapper.ToLong | app/src/main/java/com/example/weatherapp/data/mapper/WeatherMapper.kt:12 | The result is a 64-bit Long and equals the exact product modulo 2^64, as JVM Long multiplication wraps. |
| WeatherMapper.EpochMillisExact | app/src/main/java/com/example/weatherapp/data/mapper/WeatherMapper.kt:11-13 | When seconds * 1000 fits in a Long, the date is exactly the epoch seconds in milliseconds. |
| WeatherMapper.ReplaceIconSize | app/src/main/java/com/example/weatherapp/data/mapper/WeatherMapper.kt:15-18 | Kotlin's `replace("64x64", "128x128")`: left to right, without overlaps. `ReplaceWithoutOccurrence` and `FirstOccurrenceReplaced` together fix its result for every string. |
| WeatherMapper.CorrectImageUrl | app/src/main/java/com/example/weatherapp/data/mapper/WeatherMapper.kt:15-18 | `correctImageUrl`: the scheme in front, then the replace. Its partners `CorrectedUrlHasScheme`, `CorrectedUrlReplacesFirst`, `CorrectedUrlHasNoSmallIcon` and `CorrectedUrlIsPrefixOnly` state what the result holds. |
| WeatherMapper.ReplaceWithoutOccurrence | app/src/main/java/com/example/weatherapp/data/mapper/WeatherMapper.kt:15-18 | A URL holding no "64x64" comes out of the replace unchanged. |
| WeatherMapper.FirstOccurrenceReplaced | app/src/main/java/com/example/weatherapp/data/mapper/WeatherMapper.kt:15-18 | The first "64x64" of any string becomes "128x128". The text before it is kept and the replace goes on after it. With `ReplaceWithoutOccurrence`, this determines the result for every input. |
| WeatherMapper.ReplaceLeavesNoSmallIcon | app/src/main/java/com/example/weatherapp/data/mapper/WeatherMapper.kt:15-18 | After the replace no "64x64" is left anywhere in the string. |
| WeatherMapper.CorrectedUrlHasScheme | app/src/main/java/com/example/weatherapp/data/mapper/WeatherMapper.kt:15 | The corrected URL always starts with "https:". |
| WeatherMapper.CorrectedUrlReplacesFirst | app/src/main/java/com/example/weatherapp/data/mapper/WeatherMapper.kt:15-18 | In the corrected URL, the icon's first "64x64" has become "128x128". It follows the scheme and the unchanged text before it, and the rest of the icon is rewritten the same way. |
| WeatherMapper.CorrectedUrlHasNoSmallIcon | app/src/main/java/com/example/weatherapp/data/mapper/WeatherMapper.kt:15-18 | The corrected URL never holds "64x64". |
| WeatherMapper.CorrectedUrlIsPrefixOnly | app/src/main/java/com/example/weatherapp/data/mapper/WeatherMapper.kt:15-18 | The corrected URL is the API URL with "https:" in front if and only if the API URL holds no "64x64". |
| WeatherMapper.WeatherToEntity | app/src/main/java/com/example/weatherapp/data/mapper/WeatherMapper.kt:20-25 | `WeatherDTO.toEntity`. Its partner `WeatherEntitySpec` states what the entity holds. |
| WeatherMapper.CurrentToEntity | app/src/main/java/com/example/weatherapp/data/mapper/WeatherMapper.kt:27 | `WeatherCurrentDTO.toEntity`: the wrapped weather mapped as `WeatherToEntity` does. `ForecastCurrentIsCurrentEntity` ties it to the forecast's current weather. |
| WeatherMapper.DayToWeather | app/src/main/java/com/example/weatherapp/data/mapper/WeatherMapper.kt:33-40 | One upcoming day as a Weather. `ForecastDropsFirstDay` states each field it takes from the day. |
| WeatherMapper.WeatherEntitySpec | app/src/main/java/com/example/weatherapp/data/mapper/WeatherMapper.kt:20-25 | A current-weather entity keeps the temperature and condition text. Its icon URL is the corrected URL: the scheme, no small size, and the icon path unchanged exactly when it had no small size. Its date is the epoch seconds times 1000 in 64-bit arithmetic, exactly `date * 1000` when that fits. |
| WeatherMapper.DaysToWeather | app/src/main/java/com/example/weatherapp/data/mapper/WeatherMapper.kt:33-41 | One Weather per day, in the same order, each made from the day at the same position. |
| WeatherMapper.ForecastToEntity | app/src/main/java/com/example/weatherapp/data/mapper/WeatherMapper.kt:29-42 | `WeatherForecastDTO.toEntity`. Its partners `ForecastDropsFirstDay` and `ForecastCurrentIsCurrentEntity` state its current weather and its upcoming days. |
| WeatherMapper.ForecastDropsFirstDay | app/src/main/java/com/example/weatherapp/data/mapper/WeatherMapper.kt:29-41 | n forecast days give max(0, n-1) upcoming entries. Entry i comes from day i+1, with its temperature, condition text, corrected icon URL and date. |
| SearchMapper.CityToEntity | app/src/main/java/com/example/weatherapp/data/mapper/SearchMapper.kt:6 | `CityDTO.toEntity`. Its partner `CityRoundTrip` states that it keeps id, name and country, losing and inventing nothing. |
| SearchMapper.CityRoundTrip | app/src/main/java/com/example/weatherapp/data/mapper/SearchMapper.kt:6 | Mapping a city transfer object loses and invents nothing: it is a bijection between transfer objects and cities. |
| SearchMapper.ToEntities | app/src/main/java/com/example/weatherapp/data/mapper/SearchMapper.kt:8 | One city per transfer object, in the same order, each mapped from the object at the same position. |
| SearchMapper.ToEntitiesRoundTrip | app/src/main/java/com/example/weatherapp/data/mapper/SearchMapper.kt:6-8 | Every transfer object of a search reply can be recovered, in order, from the mapped list. |
| SearchMapper.ToEntitiesAppend | app/src/main/java/com/example/weatherapp/data/mapper/SearchMapper.kt:8 | Mapping a concatenation is concatenating the mapped parts, so order is kept. |
| SearchMapper.ToEntitiesEmptyIff | app/src/main/java/com/example/weatherapp/data/mapper/SearchMapper.kt:8 | The mapped list is empty exactly when the reply is empty. |
| FavouriteStore.Reduce | app/src/main/java/com/example/weatherapp/presentation/favourite/FavouriteStore.kt:143-197 | The reducer. Its partners: a new list gives `InitialItems`; a weather Msg acts through `WithWeather`. `WeatherOnlyIndependence`, `OrderFollowsLastList` and `ReduceIdempotent` state its effect over any sequence of Msgs. |
| FavouriteStore.InitialItems | app/src/main/java/com/example/weatherapp/presentation/favourite/FavouriteStore.kt:145-154 | A new favourites list gives one item per city, in the list order, each with status Initial. |
| FavouriteStore.WithWeather | app/src/main/java/com/example/weatherapp/presentation/favourite/FavouriteStore.kt:156-195 | A weather Msg sets the status of every item whose city has the Msg's id. It leaves every other item, and every city, as it was. |
| FavouriteStore.ReduceIdempotent | app/src/main/java/com/example/weatherapp/presentation/favourite/FavouriteStore.kt:143-197 | Applying any Msg a second time changes nothing. |
| FavouriteStore.WithWeatherCommutes | app/src/main/java/com/example/weatherapp/presentation/favourite/FavouriteStore.kt:156-195 | Status updates for two different city ids commute. |
| FavouriteStore.WeatherMsgsCommute | app/src/main/java/com/example/weatherapp/presentation/favourite/FavouriteStore.kt:156-195 | Weather Msgs for different cities commute in the reducer. |
| FavouriteStore.InitialIgnoresWeather | app/src/main/java/com/example/weatherapp/presentation/favourite/FavouriteStore.kt:59 | Before the first favourites list arrives, weather Msgs leave the initial empty state unchanged. |
| FavouriteStore.Own | app/src/main/java/com/example/weatherapp/presentation/favourite/FavouriteStore.kt:156-195 | The filtered Msgs are all weather Msgs for the given city id. |
| FavouriteStore.WeatherOnlyIndependence | app/src/main/java/com/example/weatherapp/presentation/favourite/FavouriteStore.kt:156-195 | Under any weather Msgs the list keeps its length and cities. Each item's status is the one set by the last Msg for its own city id, or unchanged if there is none. |
| FavouriteStore.OwnIdempotent | app/src/main/java/com/example/weatherapp/presentation/favourite/FavouriteStore.kt:156-195 | Filtering Msgs twice by the same city id is the same as filtering once. |
| FavouriteStore.OwnMsgsSuffice | app/src/main/java/com/example/weatherapp/presentation/favourite/FavouriteStore.kt:156-195 | Each item's final value depends only on the Msgs for its own city id. |
| FavouriteStore.OrderFollowsLastList | app/src/main/java/com/example/weatherapp/presentation/favourite/FavouriteStore.kt:145-154 | After any Msgs, the cities shown are exactly those of the most recent favourites list, in its order. |
| FavouriteStore.IntentEffects | app/src/main/java/com/example/weatherapp/presentation/favourite/FavouriteStore.kt:97-109 | `executeIntent`'s effects. Its partner `IntentPublishesOnly` states that each Intent publishes exactly its own Label and nothing else. |
| FavouriteStore.IntentPublishesOnly | app/src/main/java/com/example/weatherapp/presentation/favourite/FavouriteStore.kt:97-109 | Each Intent dispatches nothing, calls nothing and publishes exactly the one Label naming that Intent, city included. |
| FavouriteStore.TaskSegment | app/src/main/java/com/example/weatherapp/presentation/favourite/FavouriteStore.kt:126-140 | `loadWeatherForCity` split at its suspension point. `SegmentMsgs` and `WeatherTaskMsgs` state what each part and the whole dispatch and call. |
| FavouriteStore.WeatherTaskMsgs | app/src/main/java/com/example/weatherapp/presentation/favourite/FavouriteStore.kt:126-140 | A weather load dispatches Loading, calls the use case once for its city, then dispatches Success with the fetched temperature and icon, or Error. |
| FavouriteStore.SegmentMsgs | app/src/main/java/com/example/weatherapp/presentation/favourite/FavouriteStore.kt:126-140 | The first resumption of a weather load dispatches Loading, the second dispatches the outcome, and later ones dispatch nothing. |
| FavouriteStore.SegmentStep | app/src/main/java/com/example/weatherapp/presentation/favourite/FavouriteStore.kt:117-140 | Resuming one city's load advances only that city's item by one status (city ids unique). |
| FavouriteStore.Interleaved | app/src/main/java/com/example/weatherapp/presentation/favourite/FavouriteStore.kt:117-121 | The loads launched by `forEach`, interleaved as a schedule says. `FanOutStatuses` states the statuses every interleaving leads to. |
| FavouriteStore.InterleavedStep | app/src/main/java/com/example/weatherapp/presentation/favourite/FavouriteStore.kt:117-121 | Extending a schedule by one entry resumes that entry's load once more. |
| FavouriteStore.FanOutStatuses | app/src/main/java/com/example/weatherapp/presentation/favourite/FavouriteStore.kt:112-140 | For every interleaving of the per-city loads, item i shows city i with the status its own load has reached: Initial, Loading, then Success or Error. |
| FavouriteStore.FanOutComplete | app/src/main/java/com/example/weatherapp/presentation/favourite/FavouriteStore.kt:112-140 | Once every load has finished, every city shows the outcome of its own fetch, whatever the interleaving. |
| FavouriteStore.Store.constructor | app/src/main/java/com/example/weatherapp/presentation/favourite/FavouriteStore.kt:55-63 | A new store has the empty initial State and an empty trace. |
| FavouriteStore.Store.Dispatch | app/src/main/java/com/example/weatherapp/presentation/favourite/FavouriteStore.kt:143-197 | Dispatching a Msg appends it to the trace and reduces the State with it. The State stays the fold of all dispatched Msgs. |
| FavouriteStore.Store.Emit | app/src/main/java/com/example/weatherapp/presentation/favourite/FavouriteStore.kt:97-109 | Publishing a Label or making a call appends it to the trace and leaves the State unchanged. |
| FavouriteStore.Store.ExecuteIntent | app/src/main/java/com/example/weatherapp/presentation/favourite/FavouriteStore.kt:97-109 | Intent handling appends the Label effects and leaves the State unchanged. |
| FavouriteStore.Store.ResumeTask | app/src/main/java/com/example/weatherapp/presentation/favourite/FavouriteStore.kt:126-140 | One resumption of a weather load appends exactly that segment of the load. |
| FavouriteStore.Store.LoadWeatherForCity | app/src/main/java/com/example/weatherapp/presentation/favourite/FavouriteStore.kt:126-140 | A load run alone appends the whole weather task. |
| FavouriteStore.Store.RunFanOut | app/src/main/java/com/example/weatherapp/presentation/favourite/FavouriteStore.kt:117-121 | The launched loads append their segments in the scheduled interleaving. |
| FavouriteStore.Store.ExecuteAction | app/src/main/java/com/example/weatherapp/presentation/favourite/FavouriteStore.kt:112-124 | executeAction dispatches the new list and then the interleaved loads. With unique ids, each item then shows its city and the status its own load reached. |
| SearchStore.Reduce | app/src/main/java/com/example/weatherapp/presentation/search/SearchStore.kt:115-138 | The reducer. Its partners `FieldsAreIndependent`, `SuccessStatus` and `QueryAndSearchMsgsCommute` state its effect on the query and the status. |
| SearchStore.FieldsAreIndependent | app/src/main/java/com/example/weatherapp/presentation/search/SearchStore.kt:115-138 | After any Msgs, the query is the one the last query Msg set. The status is the one the last search Msg set. |
| SearchStore.SuccessStatus | app/src/main/java/com/example/weatherapp/presentation/search/SearchStore.kt:130-137 | A finished search keeps the query. It shows Empty if and only if it found no city, and otherwise Success with the very list found. |
| SearchStore.QueryAndSearchMsgsCommute | app/src/main/java/com/example/weatherapp/presentation/search/SearchStore.kt:115-138 | A query Msg and a search Msg commute. |
| SearchStore.IntentEffects | app/src/main/java/com/example/weatherapp/presentation/search/SearchStore.kt:74-97 | `executeIntent`'s immediate effects in each open mode. Its partner `IntentEffectsSpec` states them Intent by Intent. |
| SearchStore.IntentEffectsSpec | app/src/main/java/com/example/weatherapp/presentation/search/SearchStore.kt:74-97 | A query edit dispatches only the query Msg; Back publishes only ClickBack. A city click dispatches nothing. From add, it calls the add use case, and publishes SaveToFavourite only when that call returns. From main, it publishes OpenForecast for that city. |
| SearchStore.JobSegment | app/src/main/java/com/example/weatherapp/presentation/search/SearchStore.kt:101-109 | A search job split at its suspension point, cancelled or not. `JobRunsToCompletion`, `JobKeepsQuery` and `StaleJobShowsError` state what it dispatches. |
| SearchStore.JobRunsToCompletion | app/src/main/java/com/example/weatherapp/presentation/search/SearchStore.kt:101-109 | An uncancelled search dispatches Loading, searches once for the query, then dispatches Success with the cities or Error. It publishes nothing. |
| SearchStore.JobKeepsQuery | app/src/main/java/com/example/weatherapp/presentation/search/SearchStore.kt:101-109 | No step of a search job, cancelled or not, changes the query. |
| SearchStore.StaleJobShowsError | app/src/main/java/com/example/weatherapp/presentation/search/SearchStore.kt:103-108 | A job cancelled while awaiting its search still dispatches SearchError. The status becomes Error whatever the newer search shows. |
| SearchStore.Store.constructor | app/src/main/java/com/example/weatherapp/presentation/search/SearchStore.kt:49-59 | A new store has the given mode, query "" and status Initial, and no search job. |
| SearchStore.Store.Dispatch | app/src/main/java/com/example/weatherapp/presentation/search/SearchStore.kt:115-138 | Dispatching a Msg appends it to the trace and reduces the State with it. The jobs' bookkeeping is left as it was. |
| SearchStore.Store.Emit | app/src/main/java/com/example/weatherapp/presentation/search/SearchStore.kt:80-95 | Publishing a Label or making a call appends it to the trace. The State and the jobs are left as they were. |
| SearchStore.Store.ExecuteIntent | app/src/main/java/com/example/weatherapp/presentation/search/SearchStore.kt:74-111 | executeIntent appends the Intent's effects. ClickSearch cancels the job searchJob refers to, launches a new one and stores it there, so at most one job is uncancelled. |
| SearchStore.Store.RunSegment | app/src/main/java/com/example/weatherapp/presentation/search/SearchStore.kt:101-109 | One step of a job body appends that step's effects. The step searches with the query in the State when it runs. |
| SearchStore.Store.ResumeSearch | app/src/main/java/com/example/weatherapp/presentation/search/SearchStore.kt:101-109 | Resuming a job appends its next segment, cancelled or not, and advances its stage. |
| DetailsStore.Reduce | app/src/main/java/com/example/weatherapp/presentation/details/DetailsStore.kt:141-158 | The reducer. Its partners `FieldsAreIndependent` and `StatusAndForecastMsgsCommute` state that the city never changes and each Msg sets only its own field. |
| DetailsStore.FieldsAreIndependent | app/src/main/java/com/example/weatherapp/presentation/details/DetailsStore.kt:141-158 | After any Msgs the city is unchanged. The favourite flag is the last status reported. The forecast state is the one the last forecast Msg set. |
| DetailsStore.StatusAndForecastMsgsCommute | app/src/main/java/com/example/weatherapp/presentation/details/DetailsStore.kt:141-158 | A status Msg and a forecast Msg commute. |
| DetailsStore.Forward | app/src/main/java/com/example/weatherapp/presentation/details/DetailsStore.kt:120-138 | `executeAction`: each Action becomes the Msg of the same name. `ForwardIsBijective` states that no Action is lost or merged. |
| DetailsStore.ForwardIsBijective | app/src/main/java/com/example/weatherapp/presentation/details/DetailsStore.kt:120-138 | executeAction forwards each Action as the Msg of the same name and payload: a bijection. |
| DetailsStore.ToggleCall | app/src/main/java/com/example/weatherapp/presentation/details/DetailsStore.kt:107-116 | The favourite toggle's call. `ToggleChoosesByStatus` states that it removes if and only if the city is a favourite, always for the store's own city. |
| DetailsStore.ForecastSegment | app/src/main/java/com/example/weatherapp/presentation/details/DetailsStore.kt:84-92 | The forecast task split at its suspension point. `SegmentMsgs` and `ForecastTaskSpec` state what it dispatches and calls. |
| DetailsStore.BootstrapTrace | app/src/main/java/com/example/weatherapp/presentation/details/DetailsStore.kt:78-93 | The bootstrapper's two tasks interleaved as the steps say. `BootstrapState` states the State every interleaving leads to. |
| DetailsStore.SegmentMsgs | app/src/main/java/com/example/weatherapp/presentation/details/DetailsStore.kt:84-92 | The forecast task dispatches Loading on its first resumption and the outcome on its second. |
| DetailsStore.ForecastTaskSpec | app/src/main/java/com/example/weatherapp/presentation/details/DetailsStore.kt:84-92 | The forecast task dispatches Loading, calls the forecast use case once for the city, then dispatches Success with the forecast or Error. |
| DetailsStore.BootstrapTraceStep | app/src/main/java/com/example/weatherapp/presentation/details/DetailsStore.kt:78-93 | Extending the bootstrap steps by one appends that step's segment. |
| DetailsStore.StepState | app/src/main/java/com/example/weatherapp/presentation/details/DetailsStore.kt:78-93 | A status emission sets only the favourite flag. A forecast resumption moves only the forecast state on by one stage. |
| DetailsStore.BootstrapState | app/src/main/java/com/example/weatherapp/presentation/details/DetailsStore.kt:51-93 | For every interleaving of the status stream and the forecast task, the store shows its own city. The flag is the last status emitted (false before any), and the forecast state is the stage the task has reached. |
| DetailsStore.Store.constructor | app/src/main/java/com/example/weatherapp/presentation/details/DetailsStore.kt:48-59 | A new store shows its city, not a favourite, with forecast Initial. |
| DetailsStore.Store.Dispatch | app/src/main/java/com/example/weatherapp/presentation/details/DetailsStore.kt:141-158 | Dispatching a Msg appends it to the trace and reduces the State with it. |
| DetailsStore.Store.Emit | app/src/main/java/com/example/weatherapp/presentation/details/DetailsStore.kt:102-116 | Publishing a Label or making a call appends it to the trace and leaves the State unchanged. |
| DetailsStore.Store.ExecuteAction | app/src/main/java/com/example/weatherapp/presentation/details/DetailsStore.kt:120-138 | An Action is dispatched as its Msg and reduced into the State. |
| DetailsStore.Store.ExecuteIntent | app/src/main/java/com/example/weatherapp/presentation/details/DetailsStore.kt:102-118 | Back publishes ClickBack. The toggle launches a job and changes nothing yet. |
| DetailsStore.Store.RunToggle | app/src/main/java/com/example/weatherapp/presentation/details/DetailsStore.kt:108-115 | A launched toggle job reads the State when it runs and makes the add or remove call it chooses. |
| DetailsStore.Store.ResumeForecast | app/src/main/java/com/example/weatherapp/presentation/details/DetailsStore.kt:84-92 | One resumption of the forecast task appends its next segment. |
| DetailsStore.Store.Bootstrap | app/src/main/java/com/example/weatherapp/presentation/details/DetailsStore.kt:78-93 | The bootstrapper appends both tasks' effects in the given interleaving. On a new store, the state is the city, the last status emitted and the forecast the forecast task reached. |
| FavouriteComponent.IntentOf | app/src/main/java/com/example/weatherapp/presentation/favourite/FavouriteComponentImpl.kt:48-58 | The Intent each UI method sends. `UserEventReachesCallback` states where each one ends up. |
| FavouriteComponent.OnLabel | app/src/main/java/com/example/weatherapp/presentation/favourite/FavouriteComponentImpl.kt:29-41 | The label collector's `when`. `OnLabelIsBijective` states that each Label reaches exactly one callback, and back. |
| Mvi.Collect | app/src/main/java/com/example/weatherapp/presentation/favourite/FavouriteComponentImpl.kt:27-43 | The callbacks a component's label collector invokes: one per published Label, in order, each the one its `when` picks. Both components use it. |
| FavouriteComponent.OnLabelIsBijective | app/src/main/java/com/example/weatherapp/presentation/favourite/FavouriteComponentImpl.kt:29-41 | The label collector maps each Label to exactly one callback and back, with the same city. |
| FavouriteComponent.UserEventReachesCallback | app/src/main/java/com/example/weatherapp/presentation/favourite/FavouriteComponentImpl.kt:48-58 | Each UI method reaches exactly its own callback once, the city item with the same city, and changes no State. |
| SearchComponent.CreateStore | app/src/main/java/com/example/weatherapp/presentation/search/SearchComponentImpl.kt:24 | The component creates a new store in its own open mode. |
| SearchComponent.IntentOf | app/src/main/java/com/example/weatherapp/presentation/search/SearchComponentImpl.kt:49-63 | The Intent each UI method sends. `IntentOfIsBijective` and `UserEventReachesCallback` state its partners. |
| SearchComponent.OnLabel | app/src/main/java/com/example/weatherapp/presentation/search/SearchComponentImpl.kt:30-42 | The label collector's `when`. `OnLabelIsBijective` states that each Label reaches exactly one callback, and back. |
| SearchComponent.IntentOfIsBijective | app/src/main/java/com/example/weatherapp/presentation/search/SearchComponentImpl.kt:49-63 | Each UI method sends exactly one Intent with the same payload, and each Intent comes from exactly one UI method. |
| SearchComponent.OnLabelIsBijective | app/src/main/java/com/example/weatherapp/presentation/search/SearchComponentImpl.kt:30-42 | The label collector maps each Label to exactly one callback and back, with the same city. |
| SearchComponent.UserEventReachesCallback | app/src/main/java/com/example/weatherapp/presentation/search/SearchComponentImpl.kt:49-63 | Back reaches the back callback. A city click reaches saved-to-favourite when opened to add and the add returns (none when it throws, the add call still made), and the forecast callback for that city otherwise. Query edits and searches reach none. |
| Root.ChildOf | app/src/main/java/com/example/weatherapp/presentation/root/RootComponentImpl.kt:37-86 | `child`: the child built for each configuration. `ChildKeepsConfig` states that it keeps the city and the mode. |
| Root.ChildKeepsConfig | app/src/main/java/com/example/weatherapp/presentation/root/RootComponentImpl.kt:37-86 | Each configuration is built into the child of the same kind with the same city or mode: a bijection. |
| Root.Navigate | app/src/main/java/com/example/weatherapp/presentation/root/RootComponentImpl.kt:42-84 | The push or pop each callback passed to a child performs. `NavigationKeepsShape` and the round-trip lemmas state its effect on the stack. |
| Root.Apply | app/src/main/java/com/example/weatherapp/presentation/root/RootComponentImpl.kt:28 | A push puts the configuration on top of the unchanged stack. A pop removes only the top. |
| Root.ReachableConfigsDistinct | app/src/main/java/com/example/weatherapp/presentation/root/RootComponentImpl.kt:30-35 | On every reachable stack no configuration occurs twice. |
| Root.NavigationKeepsShape | app/src/main/java/com/example/weatherapp/presentation/root/RootComponentImpl.kt:42-84 | A callback of the top child keeps the stack reachable. A pop always has a screen below it, so the favourites screen stays at the bottom. |
| Root.CallbacksFor | app/src/main/java/com/example/weatherapp/presentation/root/RootComponentImpl.kt:37-86 | Every callback a screen event reaches belongs to the child on top. |
| Root.AtMostOneCallback | app/src/main/java/com/example/weatherapp/presentation/root/RootComponentImpl.kt:37-86 | A screen event reaches at most one callback. On the favourites screen it is exactly the one the UI method names. |
| Root.Handle | app/src/main/java/com/example/weatherapp/presentation/root/RootComponentImpl.kt:28-86 | A screen event on the top child, through its store and label collector, to a navigation. `HandleKeepsShape` states that it keeps the stack reachable. |
| Root.HandleKeepsShape | app/src/main/java/com/example/weatherapp/presentation/root/RootComponentImpl.kt:28-86 | Whatever the user does on the top screen, the stack stays reachable. |
| Root.AddFavouriteRoundTrip | app/src/main/java/com/example/weatherapp/presentation/root/RootComponentImpl.kt:56-58 | Add opens search to add. Clicking a found city adds it and returns to the favourites screen alone. When the add throws, search stays on top. |
| Root.LookUpFromMainAndBack | app/src/main/java/com/example/weatherapp/presentation/root/RootComponentImpl.kt:62-81 | Search opens in main mode. A found city opens its details above the search. Two backs return to the favourites screen alone. |
| Root.CityItemOpensDetails | app/src/main/java/com/example/weatherapp/presentation/root/RootComponentImpl.kt:59-61 | A favourite's item opens that city's details. Back returns to the favourites screen alone. |
| Root.RootComponent.constructor | app/src/main/java/com/example/weatherapp/presentation/root/RootComponentImpl.kt:30-35 | The stack starts as the favourites screen alone. |
| Root.RootComponent.Active | app/src/main/java/com/example/weatherapp/presentation/root/RootComponentImpl.kt:30-35 | The active child is the one built from the configuration on top. |
| Root.RootComponent.OnCallback | app/src/main/java/com/example/weatherapp/presentation/root/RootComponentImpl.kt:42-84 | A callback performs its push or pop on the stack, and the stack stays reachable. |
| Root.RootComponent.OnScreenEvent | app/src/main/java/com/example/weatherapp/presentation/root/RootComponentImpl.kt:37-86 | A screen event updates the stack through the callback its component reaches, and the stack stays reachable. |

## Left out

- The Compose UI, `MainActivity`, `RootContent` and `SearchContent` are left out: rendering only, no logic.
- Retrofit, `ApiFactory` and `ApiService` are left out. Network replies enter as the transfer-object datatypes, and failures as `Response.Failed`.
- Use cases and the Room persistence behind them are outside the model. Their calls are recorded in each store's trace, and their results are inputs.
- `ObserveFavouriteStatusUseCase` is not modelled. The statuses it emits are the `StatusEmitted` steps given to `DetailsStore.Store.Bootstrap`, and the subscription call itself is not recorded in the trace.
- The favourites subscription (`getFavouriteCitiesUseCase().collect`) is not modelled either. Each emitted list is one call of `FavouriteStore.Store.ExecuteAction`.
- `FloatExt` (temperature formatting for display) is left out.
- `Domain.Weather`: `tempC` is a 32-bit float in the app and an exact `real` here. The stores and mappers only copy it, never compute with it.
- `WeatherMapper.EpochMillis`: the Calendar is replaced by its time in epoch milliseconds. Time zones and calendar fields are not modelled. The 64-bit wrap of `seconds * 1000` is modelled.
- MVIKotlin and Decompose internals are not modelled: main-thread dispatch, instance keeping, state flows, lifecycle and saved state. The store's serial application of Msgs is `Mvi.Fold`.
- `DetailsComponentImpl` is not part of this model. The details screen's back button reaches the root's `onBackClicked` callback directly (`Root.CallbacksFor`), and `DetailsStore` is modelled on its own.
- `FavouriteStore.FanOutStatuses`: the per-item status is proved only for lists with unique city ids. With a repeated id, every item with that id shows the last Msg for it, as `FavouriteStore.WeatherOnlyIndependence` states.
- `FavouriteStore.Store.ExecuteAction`: the fan-outs of two successive list emissions are not interleaved with each other. Each emission's loads run before the next emission is handled.
- `SearchStore.Store.ExecuteIntent`: the add-to-favourite job launched by a city click in add mode is modelled as running right away (the call, then the `SaveToFavourite` Label when the call returns). It is not interleaved with other jobs. Its outcome is an input; a throwing call publishes nothing, and where the escaping exception goes afterwards is not modelled.
- `Root.RootComponent.OnCallback`: callbacks are required to come from the child on top of the stack, as a modelling choice. In the app, each component's label collector keeps running while the child sits lower in the stack, and a second tap handled before the screen changes publishes a second Label. Two search taps would push `Search(FROM_MAIN)` twice. `Root.Reachable`, `Root.ReachableConfigsDistinct` and `Root.NavigationKeepsShape` hold only for callbacks from the top child.
- Android's system back button (`handleBackButton = true`) is not modelled. Only the screens' own back callbacks pop.
- `DetailsStore.Store.Bootstrap` requires a forecast task not yet started, since a store's bootstrapper runs once.
