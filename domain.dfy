/** Domain entities shared by the mappers and the stores. */
module Domain {

  /** A city; `id` is its stable identity. */
  datatype City = City(id: int, name: string, country: string)

  /**
   * A weather observation. `tempC` is a float in the app; here it is only
   * ever copied, so an exact `real` stands for it. `date` is the observation
   * time in epoch milliseconds (the app wraps it in a Calendar).
   */
  datatype Weather = Weather(tempC: real, conditionText: string, conditionUrl: string, date: int)

  /** Current weather plus one entry per upcoming day, in order. */
  datatype Forecast = Forecast(currentWeather: Weather, upcoming: seq<Weather>)

  /** True when no two cities share an id. */
  predicate UniqueIds(cities: seq<City>)
  {
    forall i, j :: 0 <= i < j < |cities| ==> cities[i].id != cities[j].id
  }
}
