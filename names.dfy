/** The Go names derived from declarations: Attribute.GoName
    (attribute.go), Element.GoFieldName/GoName/XmlName (element.go) and the
    GoName of every kind of Type (types.go, attributegroup.go). */
module Names {
  import opened Results
  import opened Text
  import opened Common
  import opened Decls

  /** The name an attribute is known by before numbering: its own name, or
      the Go name of its reference when it has none. */
  function AttrBaseName(a: Attribute): string {
    if a.name == "" then RefGoName(a.ref) else a.name
  }

  /** Attribute.GoName: the base name, with the duplicate count appended when
      it is at least 2, camelized. */
  function AttrGoName(a: Attribute): string {
    ToCamel(if a.duplicateCount >= 2 then AttrBaseName(a) + Itoa(a.duplicateCount) else AttrBaseName(a))
  }

  /** A duplicate count of 0 or 1 leaves the Go name bare; a named attribute
      never looks at its reference. */
  lemma AttrGoNameBare(a: Attribute)
    requires a.duplicateCount <= 1
    ensures AttrGoName(a) == ToCamel(AttrBaseName(a))
    ensures AttrGoName(a) == AttrGoName(a.(duplicateCount := 0))
    ensures a.name != "" ==> AttrGoName(a) == ToCamel(a.name)
    ensures a.name == "" ==> AttrGoName(a) == ToCamel(ToCamel(NsPrefix(a.ref)) + ToCamel(LocalName(a.ref)))
  {
  }

  /** From 2 on the count is written after the base name in decimal. */
  lemma AttrGoNameNumbered(a: Attribute, n: nat)
    requires n >= 2
    ensures AttrGoName(a.(duplicateCount := n)) == ToCamel(AttrBaseName(a) + Itoa(n))
  {
  }

  /** The Go name of a type handle: the camelized declared name, or the Go
      type itself for a built-in type; a dangling handle has none. */
  function TypeGoName(w: World, t: TypeRef): (n: string)
    ensures t.Static? ==> n == t.goName
    ensures TypeAt(w, t).None? ==> n == ""
  {
    match TypeAt(w, t)
    case Some(ComplexDecl(ct)) => ToCamel(ct.name)
    case Some(SimpleDecl(st)) => ToCamel(st.name)
    case Some(GroupDecl(ag)) => ToCamel(ag.name)
    case Some(StaticDecl(n)) => n
    case None => ""
  }

  /** Element.GoFieldName: the camelized name, or the Go name of the
      referenced element when the element has no name. A chain of references
      is followed for at most `fuel` steps; an unnamed element without a
      reference yields "" (the source dereferences a nil pointer there). */
  function ElemFieldName(w: World, e: Element, fuel: nat): (n: string)
    decreases fuel, 1
  {
    if e.name != "" then ToCamel(e.name)
    else if e.refElm.None? || fuel == 0 then ""
    else match ElementAt(w, e.refElm.value)
      case None => ""
      case Some(target) => ElemGoName(w, target, fuel - 1)
  }

  /** Element.GoName: the camelized name override when there is one. */
  function ElemGoName(w: World, e: Element, fuel: nat): (n: string)
    decreases fuel, 2
  {
    if e.nameOverride != "" then ToCamel(e.nameOverride) else ElemFieldName(w, e, fuel)
  }

  /** Element.XmlName: the declared name, or the referenced element's. */
  function ElemXmlName(w: World, e: Element, fuel: nat): (n: string)
    decreases fuel
  {
    if e.name != "" then e.name
    else if e.refElm.None? || fuel == 0 then ""
    else match ElementAt(w, e.refElm.value)
      case None => ""
      case Some(target) => ElemXmlName(w, target, fuel - 1)
  }

  /** The depth bound used for element references: one more than the number
      of top-level elements, enough for any chain without a cycle. */
  function ElemName(w: World, e: Element): string {
    ElemGoName(w, e, RefDepth(w))
  }

  function FieldName(w: World, e: Element): string {
    ElemFieldName(w, e, RefDepth(w))
  }

  /** A named element's names do not depend on the world or on the depth
      bound, and the override replaces only GoName, never GoFieldName. */
  lemma NamedElementNames(w: World, e: Element, fuel: nat)
    requires e.name != ""
    ensures ElemFieldName(w, e, fuel) == ToCamel(e.name)
    ensures ElemXmlName(w, e, fuel) == e.name
    ensures e.nameOverride == "" ==> ElemGoName(w, e, fuel) == ToCamel(e.name)
    ensures e.nameOverride != "" ==> ElemGoName(w, e, fuel) == ToCamel(e.nameOverride)
  {
  }

  /** An unnamed element takes its names from the element it references,
      one step down the chain. */
  lemma ReferencedElementNames(w: World, e: Element, fuel: nat)
    requires e.name == "" && e.refElm.Some? && ElementAt(w, e.refElm.value).Some? && fuel > 0
    ensures ElemFieldName(w, e, fuel) == ElemGoName(w, ElementAt(w, e.refElm.value).value, fuel - 1)
    ensures ElemXmlName(w, e, fuel) == ElemXmlName(w, ElementAt(w, e.refElm.value).value, fuel - 1)
  {
  }

  /** A referenced chain that reaches a named element within the bound has
      the same names for every larger bound. */
  lemma {:induction false} FieldNameStable(w: World, e: Element, fuel: nat, more: nat)
    requires ElemFieldName(w, e, fuel) != ""
    requires more >= fuel
    ensures ElemFieldName(w, e, more) == ElemFieldName(w, e, fuel)
    decreases fuel, 1
  {
    if e.name == "" {
      var target := ElementAt(w, e.refElm.value).value;
      GoNameStable(w, target, fuel - 1, more - 1);
    }
  }

  lemma {:induction false} GoNameStable(w: World, e: Element, fuel: nat, more: nat)
    requires ElemGoName(w, e, fuel) != ""
    requires more >= fuel
    ensures ElemGoName(w, e, more) == ElemGoName(w, e, fuel)
    decreases fuel, 2
  {
    if e.nameOverride == "" {
      FieldNameStable(w, e, fuel, more);
    }
  }
}
