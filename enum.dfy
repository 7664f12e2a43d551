/** xsd:enumeration facets of a simple type restriction (XML Schema Part 2,
    section 4.3.5) and the Go constant names derived from them. */
module Enums {
  import opened Results
  import opened Text
  import opened Annotations

  datatype Enumeration = Enumeration(value: string, annotation: Option<Annotation>)

  /** Enumeration.GoName: an explicit "Name" documentation wins; otherwise the
      value, lower-cased and camelized. */
  function EnumGoName(e: Enumeration): (name: string)
    ensures GetName(e.annotation) != "" ==> name == GetName(e.annotation)
    ensures GetName(e.annotation) == "" ==> name == ToCamel(ToLower(e.value))
  {
    var name := GetName(e.annotation);
    if name != "" then name else ToCamel(ToLower(e.value))
  }

  /** Enumeration.XmlName: the value as written. */
  function EnumXmlName(e: Enumeration): string {
    e.value
  }

  /** Enumeration.Modifiers: enumeration constants carry no struct tag. */
  function EnumModifiers(e: Enumeration): string {
    "-"
  }

  /** Enumeration.GoComments: the annotation's comment lines. */
  function EnumGoComments(e: Enumeration, unescape: string -> string): Option<seq<string>> {
    GoComments(e.annotation, unescape)
  }

  /** Without a "Name" documentation, two values that differ only in letter
      case get the same Go name: the derived name ignores case. */
  lemma {:induction false} CaseInsensitiveEnumNames(e1: Enumeration, e2: Enumeration)
    requires GetName(e1.annotation) == "" && GetName(e2.annotation) == ""
    requires EqualFold(e1.value, e2.value)
    ensures EnumGoName(e1) == EnumGoName(e2)
  {
  }

  /** A "Name" documentation makes the value irrelevant to the Go name, while
      the XML name is always the value itself. */
  lemma NamedEnumIgnoresValue(e: Enumeration, v: string)
    requires GetName(e.annotation) != ""
    ensures EnumGoName(e.(value := v)) == EnumGoName(e)
    ensures EnumXmlName(e.(value := v)) == v
  {
  }
}
