/** The read side of the Type interface and of the content model
    (types.go, content.go, extension.go, restriction.go, attributegroup.go):
    which attributes and elements a type exposes once compiled, whether it
    holds text, and which Go type names it. A type handle is followed for at
    most `fuel` steps; `TypeDepth(w)` is enough for any chain of base types
    without a cycle, and an exhausted bound answers as a type without
    attributes, elements or text would. */
module Types {
  import opened Results
  import opened Text
  import opened Decls
  import opened Names
  import opened Deduplication
  import opened Enums

  /** The key deduplicateAttributes compares: the attribute's Go name. */
  function AttrKey(): Attribute -> string {
    a => AttrGoName(a)
  }

  /** The key deduplicateElements compares: the element's Go name. */
  function NameKey(w: World): Element -> string {
    e => ElemName(w, e)
  }

  /** The key Extension.Elements compares when it marks field overrides. */
  function FieldKey(w: World): Element -> string {
    e => FieldName(w, e)
  }

  // ---------------------------------------------------------------------
  // Attributes
  // ---------------------------------------------------------------------

  /** Type.Attributes() through a handle: a complex type's or an attribute
      group's; simple and built-in types have none. */
  function TypeAttributes(w: World, t: TypeRef, fuel: nat): seq<Attribute>
    decreases fuel, 0
  {
    if fuel == 0 then []
    else match TypeAt(w, t)
      case Some(ComplexDecl(ct)) => CtAttributes(w, ct, fuel - 1)
      case Some(GroupDecl(ag)) => GroupAttributes(w, ag, fuel - 1)
      case _ => []
  }

  /** ComplexType.Attributes: the content's attributes once compile has
      selected a content child, the direct ones before that. */
  function CtAttributes(w: World, ct: ComplexType, fuel: nat): seq<Attribute>
    decreases fuel, 1, ct
  {
    match ContentOf(ct)
    case Some(c) => ContentAttributes(w, c, fuel)
    case None => ct.attributesDirect
  }

  /** SimpleContent.Attributes and ComplexContent.Attributes: the
      extension's, else the restriction's, else none. */
  function ContentAttributes(w: World, c: Content, fuel: nat): seq<Attribute>
    decreases fuel, 1, c
  {
    if c.extension.Some? then ExtAttributes(w, c.extension.value, fuel)
    else if c.restriction.Some? then RestrictionAttributes(w, c.restriction.value, fuel)
    else []
  }

  /** Extension.Attributes before the attribute groups: the direct
      attributes, then the base type's, deduplicated when there is a base. */
  function ExtOwnAndBase(w: World, ext: Extension, fuel: nat): seq<Attribute>
    decreases fuel, 1, ext, 0
  {
    if ext.typ.Some? then Dedup(ext.attributesDirect + TypeAttributes(w, ext.typ.value, fuel), AttrKey())
    else ext.attributesDirect
  }

  /** The attribute lists of the extension's attribute groups, in order. */
  function ExtGroupLists(w: World, ext: Extension, fuel: nat): (r: seq<seq<Attribute>>)
    decreases fuel, 1, ext, 0
  {
    seq(|ext.attributeGroups|, i requires 0 <= i < |ext.attributeGroups| => GroupAttributes(w, ext.attributeGroups[i], fuel))
  }

  /** Extension.Attributes: after the direct and base attributes, each
      attribute group's list is appended and the whole compacted again. */
  function ExtAttributes(w: World, ext: Extension, fuel: nat): seq<Attribute>
    decreases fuel, 1, ext, 1
  {
    DedupChain(ExtOwnAndBase(w, ext, fuel), ExtGroupLists(w, ext, fuel), AttrKey())
  }

  /** AttributeGroup.Attributes: the direct attributes followed by those of
      the referenced group, with no deduplication. */
  function GroupAttributes(w: World, ag: AttributeGroup, fuel: nat): seq<Attribute>
    decreases fuel, 1, ag
  {
    ag.attributesDirect + if ag.typ.Some? then TypeAttributes(w, ag.typ.value, fuel) else []
  }

  /** Restriction.Attributes: the base type's, then the nested simple
      content's, then the direct ones, deduplicated and all moved into the
      restriction's schema. */
  function RestrictionAttributes(w: World, r: Restriction, fuel: nat): seq<Attribute>
    decreases fuel, 1, r
  {
    InjectSchema(r.schema, Dedup(RestrictionInherited(w, r, fuel) + r.attributesDirect, AttrKey()))
  }

  /** The attributes a restriction takes from its base and its simple content. */
  function RestrictionInherited(w: World, r: Restriction, fuel: nat): seq<Attribute>
    decreases fuel, 1, r, 0
  {
    (if r.typ.Some? then TypeAttributes(w, r.typ.value, fuel) else []) +
    (if r.simpleContent.Some? then ContentAttributes(w, r.simpleContent.value, fuel) else [])
  }

  /** injectSchemaIntoAttributes: the same attributes, each recording `s`
      as its schema. */
  function InjectSchema(s: Option<SchemaId>, attrs: seq<Attribute>): (r: seq<Attribute>)
    ensures |r| == |attrs|
    ensures forall i :: 0 <= i < |attrs| ==> r[i].schema == s && r[i].(schema := attrs[i].schema) == attrs[i]
  {
    if attrs == [] then [] else [attrs[0].(schema := s)] + InjectSchema(s, attrs[1..])
  }

  /** The copying loop of injectSchemaIntoAttributes. */
  method InjectSchemaIntoAttributes(s: Option<SchemaId>, attrs: seq<Attribute>) returns (r: seq<Attribute>)
    ensures r == InjectSchema(s, attrs)
  {
    var out := new Attribute[|attrs|](i requires 0 <= i < |attrs| => attrs[i]);
    var i := 0;
    while i < |attrs|
      invariant 0 <= i <= |attrs|
      invariant forall k :: 0 <= k < i ==> out[k] == attrs[k].(schema := s)
      invariant forall k :: i <= k < |attrs| ==> out[k] == attrs[k]
    {
      out[i] := attrs[i].(schema := s);
      i := i + 1;
    }
    r := out[..];
    var expected := InjectSchema(s, attrs);
    assert forall k :: 0 <= k < |attrs| ==> r[k] == expected[k];
  }

  /** The schema injection changes no Go name. */
  lemma {:induction false} InjectSchemaKeys(s: Option<SchemaId>, attrs: seq<Attribute>)
    ensures KeySet(InjectSchema(s, attrs), AttrKey()) == KeySet(attrs, AttrKey())
    ensures DistinctKeys(attrs, AttrKey()) ==> DistinctKeys(InjectSchema(s, attrs), AttrKey())
  {
    var r := InjectSchema(s, attrs);
    forall i | 0 <= i < |attrs| ensures AttrGoName(r[i]) == AttrGoName(attrs[i]) {
      assert r[i].(schema := attrs[i].schema) == attrs[i];
    }
    assert forall i :: 0 <= i < |attrs| ==> AttrKey()(r[i]) == AttrKey()(attrs[i]);
  }

  lemma ExtAttributesOwnFirst(w: World, ext: Extension, fuel: nat)
    requires DistinctKeys(ext.attributesDirect, AttrKey())
    ensures var r := ExtAttributes(w, ext, fuel);
      |r| >= |ext.attributesDirect| && r[..|ext.attributesDirect|] == ext.attributesDirect &&
      DistinctKeys(r, AttrKey()) &&
      KeySet(r, AttrKey()) == KeySet(ExtOwnAndBase(w, ext, fuel), AttrKey()) + KeysOfAll(ExtGroupLists(w, ext, fuel), AttrKey())
  {
    var own := ext.attributesDirect;
    var start := ExtOwnAndBase(w, ext, fuel);
    if ext.typ.Some? {
      DedupAppendStep(own, TypeAttributes(w, ext.typ.value, fuel), AttrKey(), |own|);
    }
    assert start[..|own|] == own;
    DedupChainPrefix(start, ExtGroupLists(w, ext, fuel), AttrKey(), |own|);
    DedupChainKeys(start, ExtGroupLists(w, ext, fuel), AttrKey());
  }


  /** The base part of an extension loses no Go name of the direct or of the
      base attributes. */
  lemma ExtOwnAndBaseKeys(w: World, ext: Extension, fuel: nat)
    requires ext.typ.Some?
    ensures KeySet(ExtOwnAndBase(w, ext, fuel), AttrKey()) ==
      KeySet(ext.attributesDirect, AttrKey()) + KeySet(TypeAttributes(w, ext.typ.value, fuel), AttrKey())
  {
    DedupKeys(ext.attributesDirect + TypeAttributes(w, ext.typ.value, fuel), AttrKey());
    KeySetConcat(ext.attributesDirect, TypeAttributes(w, ext.typ.value, fuel), AttrKey());
  }

  /** Restriction.Attributes: every attribute carries the restriction's
      schema; no two share a Go name; every inherited or direct Go name is
      kept; and the inherited attributes come first, so an inherited
      attribute shadows a same-named direct one. */
  lemma RestrictionAttributesShape(w: World, r: Restriction, fuel: nat)
    ensures var res := RestrictionAttributes(w, r, fuel);
      var inh := Dedup(RestrictionInherited(w, r, fuel), AttrKey());
      (forall i :: 0 <= i < |res| ==> res[i].schema == r.schema) &&
      DistinctKeys(res, AttrKey()) &&
      KeySet(res, AttrKey()) == KeySet(RestrictionInherited(w, r, fuel), AttrKey()) + KeySet(r.attributesDirect, AttrKey()) &&
      |res| >= |inh| && res[..|inh|] == InjectSchema(r.schema, inh)
  {
    var inherited := RestrictionInherited(w, r, fuel);
    var all := inherited + r.attributesDirect;
    var d := Dedup(all, AttrKey());
    DedupKeys(all, AttrKey());
    KeySetConcat(inherited, r.attributesDirect, AttrKey());
    InjectSchemaKeys(r.schema, d);
    DedupPrefix(inherited, r.attributesDirect, AttrKey());
    var inh := Dedup(inherited, AttrKey());
    var res := InjectSchema(r.schema, d);
    assert d[..|inh|] == inh;
    forall i | 0 <= i < |inh| ensures res[i] == InjectSchema(r.schema, inh)[i] {
      assert d[i] == inh[i];
    }
  }

  /** An attribute group without a reference exposes exactly its direct
      attributes; with one it appends the referenced group's after them. */
  lemma GroupAttributesOrder(w: World, ag: AttributeGroup, fuel: nat)
    ensures ag.typ.None? ==> GroupAttributes(w, ag, fuel) == ag.attributesDirect
    ensures |GroupAttributes(w, ag, fuel)| >= |ag.attributesDirect|
    ensures GroupAttributes(w, ag, fuel)[..|ag.attributesDirect|] == ag.attributesDirect
  {
    assert ag.attributesDirect + [] == ag.attributesDirect;
  }

  // ---------------------------------------------------------------------
  // Elements
  // ---------------------------------------------------------------------

  /** Type.Elements() through a handle: only a complex type has any. */
  function TypeElements(w: World, t: TypeRef, fuel: nat): seq<Element>
    decreases fuel, 0
  {
    if fuel == 0 then []
    else match TypeAt(w, t)
      case Some(ComplexDecl(ct)) => CtElements(w, ct, fuel - 1)
      case _ => []
  }

  /** ComplexType.Elements: the first present of sequence, all, content and
      choice gives the elements. */
  function CtElements(w: World, ct: ComplexType, fuel: nat): seq<Element>
    decreases fuel, 1, ct
  {
    if ct.sequence.Some? then ct.sequence.value.allElements
    else if ct.sequenceAll.Some? then ct.sequenceAll.value.allElements
    else match ContentOf(ct)
      case Some(c) => ContentElements(w, c, fuel)
      case None => if ct.choice.Some? then ct.choice.value.allElements else []
  }

  /** SimpleContent.Elements and ComplexContent.Elements: only an extension
      contributes elements. */
  function ContentElements(w: World, c: Content, fuel: nat): seq<Element>
    decreases fuel, 1, c
  {
    if c.extension.Some? then ExtElements(w, c.extension.value, fuel) else []
  }

  /** Extension.Elements before the override marking: the own sequence's
      elements, then the base type's, deduplicated by Go name when there is
      a base. */
  function ExtMergedElements(w: World, ext: Extension, fuel: nat): seq<Element>
    decreases fuel, 1, ext, 0
  {
    var own := if ext.sequence.Some? then ext.sequence.value.allElements else [];
    if ext.typ.Some? then Dedup(own + TypeElements(w, ext.typ.value, fuel), NameKey(w)) else own
  }

  /** Extension.Elements: the merged elements, with `fieldOverride` set on
      each whose field name an attribute or an earlier element already uses. */
  function ExtElements(w: World, ext: Extension, fuel: nat): seq<Element>
    decreases fuel, 1, ext
  {
    MarkOverrides(w, ExtMergedElements(w, ext, fuel), KeySet(ExtAttributes(w, ext, fuel), AttrKey()))
  }

  /** Marks the elements whose field name is in `seen` or is the field name of
      an earlier element of the list; nothing else changes. */
  function MarkOverrides(w: World, els: seq<Element>, seen: set<string>): (r: seq<Element>)
    ensures |r| == |els|
    ensures forall i :: 0 <= i < |els| ==>
      r[i] == if FieldName(w, els[i]) in seen + KeySet(els[..i], FieldKey(w)) then els[i].(fieldOverride := true) else els[i]
  {
    if els == [] then []
    else
      var init := els[..|els| - 1];
      var last := els[|els| - 1];
      var r := MarkOverrides(w, init, seen) + [if FieldName(w, last) in seen + KeySet(init, FieldKey(w)) then last.(fieldOverride := true) else last];
      assert forall i :: 0 <= i < |init| ==> els[..i] == init[..i];
      r
  }

  /** The marking loop of Extension.Elements: `goNames` starts as the
      attributes' Go names and grows by each element's field name. */
  method MarkFieldOverrides(w: World, els: seq<Element>, attrNames: set<string>) returns (final: seq<Element>)
    ensures final == MarkOverrides(w, els, attrNames)
  {
    var goNames := attrNames;
    final := [];
    var i := 0;
    while i < |els|
      invariant 0 <= i <= |els|
      invariant final == MarkOverrides(w, els[..i], attrNames)
      invariant goNames == attrNames + KeySet(els[..i], FieldKey(w))
    {
      var element := els[i];
      var name := FieldName(w, element);
      var marked := if name in goNames then element.(fieldOverride := true) else element;
      MarkStep(w, els, i, attrNames);
      goNames := goNames + {name};
      final := final + [marked];
      i := i + 1;
    }
    assert els[..|els|] == els;
  }

  /** One turn of the marking loop, in terms of the list's prefixes. */
  lemma MarkStep(w: World, els: seq<Element>, i: nat, seen: set<string>)
    requires i < |els|
    ensures var x := els[i];
      MarkOverrides(w, els[..i + 1], seen) ==
        MarkOverrides(w, els[..i], seen) + [if FieldName(w, x) in seen + KeySet(els[..i], FieldKey(w)) then x.(fieldOverride := true) else x]
    ensures KeySet(els[..i + 1], FieldKey(w)) == KeySet(els[..i], FieldKey(w)) + {FieldName(w, els[i])}
  {
    assert els[..i + 1] == els[..i] + [els[i]];
    MarkOverridesPush(w, els[..i], els[i], seen);
    KeySetAppend(els[..i], els[i], FieldKey(w));
  }

  /** MarkOverrides over one more element. */
  lemma MarkOverridesPush(w: World, xs: seq<Element>, x: Element, seen: set<string>)
    ensures MarkOverrides(w, xs + [x], seen) ==
      MarkOverrides(w, xs, seen) + [if FieldName(w, x) in seen + KeySet(xs, FieldKey(w)) then x.(fieldOverride := true) else x]
  {
    var ys := xs + [x];
    assert ys[..|ys| - 1] == xs && ys[|ys| - 1] == x;
  }


  /** Extension.Elements drops nothing after the deduplication and changes
      nothing but the override marks; an element is marked exactly when its
      field name is an attribute's Go name or an earlier element's field name. */
  lemma ExtElementsShape(w: World, ext: Extension, fuel: nat)
    ensures var m := ExtMergedElements(w, ext, fuel);
      var r := ExtElements(w, ext, fuel);
      var names := KeySet(ExtAttributes(w, ext, fuel), AttrKey());
      |r| == |m| &&
      forall i :: 0 <= i < |m| ==>
        r[i].(fieldOverride := m[i].fieldOverride) == m[i] &&
        (r[i].fieldOverride <==> m[i].fieldOverride || FieldName(w, m[i]) in names || FieldName(w, m[i]) in KeySet(m[..i], FieldKey(w)))
  {
  }

  /** The own sequence's elements come first in Extension.Elements when
      their Go names are distinct; a base element with the Go name of an own
      element is dropped. */
  lemma ExtMergedOwnFirst(w: World, ext: Extension, fuel: nat)
    requires ext.sequence.Some? && DistinctKeys(ext.sequence.value.allElements, NameKey(w))
    ensures var own := ext.sequence.value.allElements;
      var m := ExtMergedElements(w, ext, fuel);
      |m| >= |own| && m[..|own|] == own && (ext.typ.Some? ==> DistinctKeys(m, NameKey(w)))
  {
    var own := ext.sequence.value.allElements;
    if ext.typ.Some? {
      DedupKeepsLeading(own, TypeElements(w, ext.typ.value, fuel), NameKey(w));
      DedupKeys(own + TypeElements(w, ext.typ.value, fuel), NameKey(w));
    }
  }

  // ---------------------------------------------------------------------
  // ContainsText
  // ---------------------------------------------------------------------

  /** Type.ContainsText() through a handle: simple types, attribute groups
      and built-in types always hold text; a complex type only through an
      extension content. */
  function TypeContainsText(w: World, t: TypeRef, fuel: nat): bool
    decreases fuel, 0
  {
    if fuel == 0 then false
    else match TypeAt(w, t)
      case Some(ComplexDecl(ct)) => CtContainsText(w, ct, fuel - 1)
      case Some(_) => true
      case None => false
  }

  /** ComplexType.ContainsText: a selected content that contains text. */
  function CtContainsText(w: World, ct: ComplexType, fuel: nat): bool
    decreases fuel, 1, ct
  {
    match ContentOf(ct)
    case Some(c) => ContentContainsText(w, c, fuel)
    case None => false
  }

  /** SimpleContent.ContainsText and ComplexContent.ContainsText. */
  function ContentContainsText(w: World, c: Content, fuel: nat): bool
    decreases fuel, 1, c
  {
    c.extension.Some? && ExtContainsText(w, c.extension.value, fuel)
  }

  /** Extension.ContainsText: the base is literally xsd:string, or the
      resolved base contains text. */
  function ExtContainsText(w: World, ext: Extension, fuel: nat): bool
    decreases fuel, 1, ext
  {
    ext.base == "xsd:string" || (ext.typ.Some? && TypeContainsText(w, ext.typ.value, fuel))
  }

  /** A complex type holds text only through an extension content whose base
      is xsd:string or holds text itself; restriction content never does. */
  lemma {:induction false} ComplexTextNeedsExtension(w: World, ct: ComplexType, fuel: nat)
    ensures CtContainsText(w, ct, fuel) <==>
      ContentOf(ct).Some? && ContentOf(ct).value.extension.Some? &&
      var ext := ContentOf(ct).value.extension.value;
      ext.base == "xsd:string" || (ext.typ.Some? && TypeContainsText(w, ext.typ.value, fuel))
  {
    match ContentOf(ct)
    case Some(c) =>
      assert CtContainsText(w, ct, fuel) == ContentContainsText(w, c, fuel);
    case None =>
  }

  // ---------------------------------------------------------------------
  // GoTypeName and template flags
  // ---------------------------------------------------------------------

  /** Type.GoTypeName() through a handle. A dangling handle or an exhausted
      bound names nothing. */
  function TypeGoTypeName(w: World, t: TypeRef, fuel: nat): string
    decreases fuel, 0
  {
    if fuel == 0 then ""
    else match TypeAt(w, t)
      case Some(ComplexDecl(ct)) => CtGoTypeName(w, ct, fuel - 1)
      case Some(SimpleDecl(st)) => StGoTypeName(w, st, fuel - 1)
      case Some(GroupDecl(ag)) => ToCamel(ag.name)
      case Some(StaticDecl(n)) => n
      case None => ""
  }

  /** ComplexType.GoTypeName: a complex type whose simple content extends a
      type that holds text is named after that base; otherwise after itself.
      An unresolved base (a nil pointer in the source) names nothing. */
  function CtGoTypeName(w: World, ct: ComplexType, fuel: nat): string
    decreases fuel, 1
  {
    if ct.simpleContent.Some? && ct.simpleContent.value.extension.Some? &&
       ExtContainsText(w, ct.simpleContent.value.extension.value, fuel)
    then
      var ext := ct.simpleContent.value.extension.value;
      if ext.typ.Some? then TypeGoName(w, ext.typ.value) else ""
    else ToCamel(ct.name)
  }

  /** SimpleType.GoTypeName: the resolved restriction base's Go type name,
      else "string". */
  function StGoTypeName(w: World, st: SimpleType, fuel: nat): string
    decreases fuel, 1
  {
    if st.restriction.Some? && st.restriction.value.typ.Some? then TypeGoTypeName(w, st.restriction.value.typ.value, fuel)
    else "string"
  }

  /** The Go type name of a type that does not build on a base. */
  lemma TypeGoTypeNameBasics(w: World, t: TypeRef, fuel: nat)
    requires fuel > 0
    ensures t.Static? ==> TypeGoTypeName(w, t, fuel) == t.goName
    ensures TypeAt(w, t).Some? && TypeAt(w, t).value.SimpleDecl? && TypeAt(w, t).value.st.restriction.None? ==>
      TypeGoTypeName(w, t, fuel) == "string"
    ensures TypeAt(w, t).Some? && TypeAt(w, t).value.GroupDecl? ==> TypeGoTypeName(w, t, fuel) == TypeGoName(w, t)
    ensures TypeAt(w, t).Some? && TypeAt(w, t).value.ComplexDecl? && TypeAt(w, t).value.ct.simpleContent.None? ==>
      TypeGoTypeName(w, t, fuel) == TypeGoName(w, t)
  {
  }

  /** A simple type resolves its Go type name down its chain of restriction
      bases: it is the name of the first base that is not a simple type with
      a resolved restriction, one step at a time. */
  lemma SimpleTypeNameFollowsBase(w: World, t: TypeRef, fuel: nat)
    requires fuel > 0 && TypeAt(w, t).Some? && TypeAt(w, t).value.SimpleDecl?
    requires var st := TypeAt(w, t).value.st; st.restriction.Some? && st.restriction.value.typ.Some?
    ensures TypeGoTypeName(w, t, fuel) == TypeGoTypeName(w, TypeAt(w, t).value.st.restriction.value.typ.value, fuel - 1)
  {
  }

  /** The template override a type records (none for built-in types and
      attribute groups, which have no override field). */
  function OverrideOf(w: World, t: TypeRef): Override {
    match TypeAt(w, t)
    case Some(ComplexDecl(ct)) => ct.override
    case Some(SimpleDecl(st)) => st.override
    case _ => NoOverride
  }

  /** IncludeTypeTemplate. */
  predicate IncludeTypeTemplate(w: World, t: TypeRef) {
    OverrideOf(w, t).templateUsed && OverrideOf(w, t).isIncl
  }

  /** IncludeElementTemplate. */
  predicate IncludeElementTemplate(w: World, t: TypeRef) {
    OverrideOf(w, t).templateUsed && OverrideOf(w, t).isElem
  }

  /** IncludeComplexTypeTemplate: always false for a simple type. */
  predicate IncludeComplexTypeTemplate(w: World, t: TypeRef) {
    TypeAt(w, t).Some? && TypeAt(w, t).value.ComplexDecl? && OverrideOf(w, t).templateUsed && OverrideOf(w, t).isCompTyp
  }

  /** IncludeTemplateName. */
  function IncludeTemplateName(w: World, t: TypeRef): string {
    OverrideOf(w, t).templateName
  }

  /** No template is included unless compile marked the override used, and
      built-in types include none. */
  lemma TemplateFlags(w: World, t: TypeRef)
    ensures (IncludeTypeTemplate(w, t) || IncludeElementTemplate(w, t) || IncludeComplexTypeTemplate(w, t)) ==> OverrideOf(w, t).templateUsed
    ensures t.Static? ==> !IncludeTypeTemplate(w, t) && !IncludeElementTemplate(w, t) && !IncludeComplexTypeTemplate(w, t) && IncludeTemplateName(w, t) == ""
    ensures TypeAt(w, t).Some? && TypeAt(w, t).value.SimpleDecl? ==> !IncludeComplexTypeTemplate(w, t)
  {
  }

  /** SimpleType.Enums: the restriction's enumerations, none without one. */
  function SimpleTypeEnums(st: SimpleType): (r: seq<Enumeration>)
    ensures st.restriction.None? ==> r == []
    ensures st.restriction.Some? ==> r == st.restriction.value.enumsDirect
  {
    if st.restriction.Some? then st.restriction.value.enumsDirect else []
  }

  /** What a built-in type, a simple type or an attribute group exposes:
      no attributes (apart from a group's), no elements, always text; a
      built-in type has no schema. */
  lemma FlatTypes(w: World, t: TypeRef, fuel: nat)
    requires fuel > 0
    ensures (t.Static? || (TypeAt(w, t).Some? && TypeAt(w, t).value.SimpleDecl?)) ==> TypeAttributes(w, t, fuel) == []
    ensures !(TypeAt(w, t).Some? && TypeAt(w, t).value.ComplexDecl?) ==> TypeElements(w, t, fuel) == []
    ensures TypeAt(w, t).Some? && !TypeAt(w, t).value.ComplexDecl? ==> TypeContainsText(w, t, fuel)
    ensures t.Static? ==> TypeSchema(w, t).None?
    ensures TypeAt(w, t).Some? && TypeAt(w, t).value.GroupDecl? ==>
      TypeAttributes(w, t, fuel) == GroupAttributes(w, TypeAt(w, t).value.ag, fuel - 1)
  {
  }
}
