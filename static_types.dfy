/** The catalog of built-in XSD types the generator maps straight to Go
    types (types.go), and its lookups. */
module StaticTypes {
  import opened Results

  const StaticTypeCatalog: map<string, string> := map[
    "string" := "string",
    "language" := "string",
    "dateTime" := "time.Time",
    "date" := "time.Time",
    "base64Binary" := "string",
    "normalizedString" := "string",
    "token" := "string",
    "NCName" := "string",
    "NMTOKENS" := "string",
    "anySimpleType" := "string",
    "anyType" := "string",
    "int" := "int",
    "integer" := "int64",
    "long" := "int64",
    "negativeInteger" := "int64",
    "nonNegativeInteger" := "uint64",
    "anyURI" := "string",
    "double" := "float64",
    "decimal" := "float64",
    "float" := "float64",
    "boolean" := "bool",
    "ID" := "string",
    "IDREF" := "string",
    "positiveInteger" := "uint64",
    "unsignedInt" := "uint64",
    "gYear" := "string",
    "gYearMonth" := "string",
    "gMonthDay" := "string",
    "gDay" := "string",
    "gMonth" := "string",
    "time" := "time.Time"
  ]

  /** The Go types the catalog maps to. */
  predicate IsCatalogGoType(t: string) {
    t in {"string", "time.Time", "int", "int64", "uint64", "float64", "bool"}
  }

  /** IsStaticType: whether the catalog has the name. */
  predicate IsStaticType(name: string) {
    name in StaticTypeCatalog
  }

  /** StaticType: the catalog's Go type for name; a name outside the catalog
      is the "not implemented" failure. */
  function StaticType(name: string): (r: Result<string>)
    ensures r.Ok? <==> IsStaticType(name)
    ensures r.Ok? ==> r.value == StaticTypeCatalog[name] && IsCatalogGoType(r.value)
    ensures r.Fail? ==> r.error == NotImplemented("Type xsd:" + name + " not implemented")
  {
    if name in StaticTypeCatalog then
      CatalogValues();
      Ok(StaticTypeCatalog[name])
    else Fail(NotImplemented("Type xsd:" + name + " not implemented"))
  }

  /** Every catalog entry maps to one of seven Go types. */
  lemma CatalogValues()
    ensures forall name :: name in StaticTypeCatalog ==> IsCatalogGoType(StaticTypeCatalog[name])
  {
  }

  /** Dates and times become time.Time. */
  lemma CatalogDates()
    ensures StaticType("dateTime") == Ok("time.Time") && StaticType("date") == Ok("time.Time")
  {
  }

  /** The unbounded integer types become int64 or uint64. */
  lemma CatalogIntegers()
    ensures StaticType("integer") == Ok("int64") && StaticType("nonNegativeInteger") == Ok("uint64")
  {
  }

  /** decimal is approximated by float64; boolean is bool. */
  lemma CatalogDecimalAndBoolean()
    ensures StaticType("decimal") == Ok("float64") && StaticType("boolean") == Ok("bool")
  {
  }

  /** Built-in types outside the catalog are refused. */
  lemma CatalogGaps()
    ensures StaticType("QName").Fail? && !IsStaticType("duration")
  {
  }
}
