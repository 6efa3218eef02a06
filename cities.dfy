/** The fixed city catalog of the dashboard and the search-location string bound to each city. */
module Cities {
  import opened JsRuntime

  datatype City = City(code: string, name: string, short: string)

  /** `CITIES`, in the order the sidebar lists them and the fan-out visits them. */
  const CITIES: seq<City> := [
    City("SP", "São Paulo", "São Paulo"),
    City("RIO", "Rio de Janeiro", "Rio"),
    City("BH", "Belo Horizonte", "BH"),
    City("CWB", "Curitiba", "CWB"),
    City("POA", "Porto Alegre", "POA"),
    City("SSA", "Salvador", "SSA"),
    City("REC", "Recife", "REC"),
    City("BSB", "Brasília", "BSB")
  ]

  /** `CITY_LOCATION`: the location parameter sent to the search service per city code. */
  const CITY_LOCATION: map<string, string> := map[
    "SP" := "São Paulo, State of São Paulo, Brazil",
    "RIO" := "Rio de Janeiro, State of Rio de Janeiro, Brazil",
    "BH" := "Belo Horizonte, State of Minas Gerais, Brazil",
    "CWB" := "Curitiba, State of Paraná, Brazil",
    "POA" := "Porto Alegre, State of Rio Grande do Sul, Brazil",
    "SSA" := "Salvador, State of Bahia, Brazil",
    "REC" := "Recife, State of Pernambuco, Brazil",
    "BSB" := "Brasília, Federal District, Brazil"
  ]

  const COUNTRY_LOCATION: string := "Brazil"

  /** `CITIES.map(c => c.code)` */
  function CatalogCodes(): (r: seq<string>)
    ensures |r| == |CITIES|
    ensures forall i :: 0 <= i < |CITIES| ==> r[i] == CITIES[i].code
  {
    seq(|CITIES|, i requires 0 <= i < |CITIES| => CITIES[i].code)
  }

  /** `CITY_LOCATION[code] || 'Brazil'` */
  function Location(code: string): (r: string)
    ensures code in CatalogCodes() ==> r == CITY_LOCATION[code] && r != COUNTRY_LOCATION
    ensures code !in CatalogCodes() ==> r == COUNTRY_LOCATION
  {
    CatalogShape();
    if code in CITY_LOCATION then CITY_LOCATION[code] else COUNTRY_LOCATION
  }

  /** The two tables agree: eight distinct codes, each with its own location entry and no
      location entry for anything else. */
  lemma CatalogShape()
    ensures |CITIES| == 8
    ensures NoDuplicates(CatalogCodes())
    ensures forall c :: c in CatalogCodes() <==> c in CITY_LOCATION
  {
    var codes := CatalogCodes();
    assert codes == ["SP", "RIO", "BH", "CWB", "POA", "SSA", "REC", "BSB"];
  }
}
