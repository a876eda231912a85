/** Mapping of the city-search API's transfer objects to domain cities. */
module SearchMapper {
  import opened Domain

  datatype CityDto = CityDto(id: int, name: string, country: string)

  /** `CityDTO.toEntity`: the same id, name and country. */
  function CityToEntity(dto: CityDto): City
  {
    City(dto.id, dto.name, dto.country)
  }

  /** The transfer object a city would come from. */
  function CityToDto(c: City): CityDto
  {
    CityDto(c.id, c.name, c.country)
  }

  /** The mapping loses nothing and invents nothing: it is a bijection between transfer objects and cities. */
  lemma CityRoundTrip(dto: CityDto, c: City)
    ensures CityToDto(CityToEntity(dto)) == dto
    ensures CityToEntity(CityToDto(c)) == c
  {
  }

  /** `List<CityDTO>.toEntities`: `map` of CityToEntity. */
  function ToEntities(dtos: seq<CityDto>): (cities: seq<City>)
    ensures |cities| == |dtos|
    ensures forall i :: 0 <= i < |dtos| ==> cities[i] == CityToEntity(dtos[i])
    decreases |dtos|
  {
    if |dtos| == 0 then [] else [CityToEntity(dtos[0])] + ToEntities(dtos[1..])
  }

  /** Mapping a concatenation maps each part: the result keeps the order of the input. */
  lemma {:induction false} ToEntitiesAppend(a: seq<CityDto>, b: seq<CityDto>)
    ensures ToEntities(a + b) == ToEntities(a) + ToEntities(b)
    decreases |a|
  {
    if |a| == 0 {
      assert a + b == b;
    } else {
      assert (a + b)[1..] == a[1..] + b;
      ToEntitiesAppend(a[1..], b);
    }
  }

  /** The transfer objects a list of cities would come from. */
  function FromEntities(cities: seq<City>): (dtos: seq<CityDto>)
    ensures |dtos| == |cities|
    ensures forall i :: 0 <= i < |cities| ==> dtos[i] == CityToDto(cities[i])
  {
    seq(|cities|, i requires 0 <= i < |cities| => CityToDto(cities[i]))
  }

  /** Mapping a search reply keeps every transfer object, in order. */
  lemma ToEntitiesRoundTrip(dtos: seq<CityDto>)
    ensures FromEntities(ToEntities(dtos)) == dtos
  {
    var back := FromEntities(ToEntities(dtos));
    forall i | 0 <= i < |dtos| ensures back[i] == dtos[i] {
      CityRoundTrip(dtos[i], ToEntities(dtos)[i]);
    }
  }

  /** The search reply is empty exactly when no city comes back from it. */
  lemma ToEntitiesEmptyIff(dtos: seq<CityDto>)
    ensures ToEntities(dtos) == [] <==> dtos == []
  {
  }
}
