/** xsd:element (element.go): the attributes and child elements a struct
    gets, its Go type name, memory layout and package qualifier, and the
    renaming of an inlined element after its parent. The Go names
    themselves (GoFieldName, GoName, XmlName) are in module Names. */
module Elements {
  import opened Results
  import opened Text
  import opened Decls
  import opened Names
  import opened Types
  import opened SchemaLookup

  /** Element.Attributes: an inline complex type's, none otherwise. */
  function ElemAttributes(w: World, e: Element, fuel: nat): (r: seq<Attribute>)
    ensures e.complexType.None? ==> r == []
  {
    if e.complexType.Some? then CtAttributes(w, e.complexType.value, fuel) else []
  }

  /** Element.Elements: an inline complex type's, else the referenced type's. */
  function ElemElements(w: World, e: Element, fuel: nat): (r: seq<Element>)
    ensures e.complexType.None? && e.refType.None? ==> r == []
    ensures e.complexType.None? && e.refType.Some? && (e.refType.value.Static? || e.refType.value.SimpleRef?) ==> r == []
  {
    if e.complexType.Some? then CtElements(w, e.complexType.value, fuel)
    else if e.refType.Some? then TypeElements(w, e.refType.value, fuel)
    else []
  }

  /** Element.isPlainString: an inline simple type, or nothing at all that
      would give the element structure. */
  predicate IsPlainString(e: Element) {
    e.simpleType.Some? || (e.typ == "" && e.ref == "" && e.complexType.None?)
  }

  /** Element.isArray: maxOccurs is "unbounded" or an int above 1. */
  predicate IsArray(e: Element) {
    e.maxOccurs == "unbounded" || (Atoi(e.maxOccurs).Some? && Atoi(e.maxOccurs).value > 1)
  }

  /** Element.GoTypeName: the referenced type's Go type name when the
      element names a type, "string" for a plain string, else its own Go
      name. An unresolved type (a nil pointer in the source) names nothing. */
  function GoTypeName(w: World, e: Element): (n: string)
    ensures e.typ == "" && IsPlainString(e) ==> n == "string"
    ensures e.typ == "" && !IsPlainString(e) ==> n == ElemName(w, e)
    ensures e.typ != "" && e.refType.Some? ==> n == TypeGoTypeName(w, e.refType.value, TypeDepth(w))
    ensures e.typ != "" && e.refType.None? ==> n == ""
  {
    if e.typ != "" then (if e.refType.Some? then TypeGoTypeName(w, e.refType.value, TypeDepth(w)) else "")
    else if IsPlainString(e) then "string"
    else ElemName(w, e)
  }

  /** Element.GoMemLayout: a slice for repeated elements, a pointer for an
      optional single element of a non-string type, a value otherwise. */
  function GoMemLayout(w: World, e: Element): (m: string)
    ensures IsArray(e) <==> m == "[]"
    ensures m == "*" <==> !IsArray(e) && (e.maxOccurs == "1" || e.maxOccurs == "") && e.minOccurs == "0" && GoTypeName(w, e) != "string"
    ensures m == "[]" || m == "*" || m == ""
  {
    if IsArray(e) then "[]"
    else if (e.maxOccurs == "1" || e.maxOccurs == "") && e.minOccurs == "0" && GoTypeName(w, e) != "string" then "*"
    else ""
  }

  /** The schema an element's Go type lives in: the referenced element's,
      else the referenced type's. */
  function ForeignSchema(w: World, e: Element): Option<SchemaId> {
    if e.refElm.Some? then
      match ElementAt(w, e.refElm.value)
      case Some(target) => target.schema
      case None => None
    else if e.refType.Some? then TypeSchema(w, e.refType.value)
    else None
  }

  /** Element.GoForeignModule: the package qualifier, non-empty only when the
      referenced element or type lives in another schema. */
  function GoForeignModule(w: World, e: Element): (m: string)
    ensures m != "" ==> ForeignSchema(w, e).Some? && ForeignSchema(w, e) != e.schema
    ensures ForeignSchema(w, e).Some? && ForeignSchema(w, e) != e.schema && ForeignSchema(w, e).value < |w| ==>
      m == GoPackageName(w[ForeignSchema(w, e).value]) + "."
    ensures e.refElm.None? && e.refType.None? ==> m == ""
  {
    var foreign := ForeignSchema(w, e);
    if foreign.Some? && foreign != e.schema && foreign.value < |w| then GoPackageName(w[foreign.value]) + "."
    else ""
  }

  /** Element.prefixNameWithParent: an inlined child of a parent element is
      renamed "<parent GoName>-<own GoName>"; without a parent nothing
      changes. */
  function PrefixNameWithParent(w: World, e: Element, parent: Option<Element>): (r: Element)
    ensures parent.None? ==> r == e
    ensures parent.Some? ==> r == e.(nameOverride := ElemName(w, parent.value) + "-" + ElemName(w, e))
  {
    if parent.Some? then e.(nameOverride := ElemName(w, parent.value) + "-" + ElemName(w, e)) else e
  }

  /** The rename reaches GoName only: the field name and the XML name stay,
      and the new Go name is the camelized joined name. */
  lemma PrefixKeepsFieldAndXmlName(w: World, e: Element, parent: Element)
    ensures var r := PrefixNameWithParent(w, e, Some(parent));
      r.nameOverride != "" &&
      FieldName(w, r) == FieldName(w, e) &&
      ElemXmlName(w, r, RefDepth(w)) == ElemXmlName(w, e, RefDepth(w)) &&
      ElemName(w, r) == ToCamel(ElemName(w, parent) + "-" + ElemName(w, e))
  {
    var r := PrefixNameWithParent(w, e, Some(parent));
    assert |r.nameOverride| > 0;
    FieldNameIgnoresOverride(w, e, r.nameOverride, RefDepth(w));
  }

  /** The field name and the XML name never look at the element's own name
      override. */
  lemma FieldNameIgnoresOverride(w: World, e: Element, o: string, fuel: nat)
    ensures ElemFieldName(w, e.(nameOverride := o), fuel) == ElemFieldName(w, e, fuel)
    ensures ElemXmlName(w, e.(nameOverride := o), fuel) == ElemXmlName(w, e, fuel)
  {
  }

  /** A single occurrence ("1" or unspecified) is never an array; a decimal
      count above one is. */
  lemma SingleOccurrenceIsNotArray(e: Element)
    ensures e.maxOccurs == "" ==> !IsArray(e)
    ensures e.maxOccurs == "1" ==> !IsArray(e)
    ensures e.maxOccurs == "0" ==> !IsArray(e)
    ensures e.maxOccurs == "2" ==> IsArray(e)
  {
    assert "1"[..0] == "" && "0"[..0] == "" && "2"[..0] == "";
    assert DecimalValue("1") == 1 && DecimalValue("0") == 0 && DecimalValue("2") == 2;
  }

  /** An optional plain string element is a plain value field, never a
      pointer. */
  lemma PlainStringIsNeverPointer(w: World, e: Element)
    requires e.typ == "" && IsPlainString(e)
    ensures GoMemLayout(w, e) != "*"
  {
  }
}
