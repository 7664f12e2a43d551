/** xsd:attribute (attribute.go): the Go names, type and struct-tag
    modifiers a field is generated with, and compile, which binds the
    attribute to its schema, its referenced attribute and its type. */
module Attributes {
  import opened Results
  import opened Text
  import opened Common
  import opened Decls
  import opened Names
  import opened SchemaLookup

  /** A step that changed at most the imported-module registry of `sch`. */
  predicate ModulesOnly(w: World, w': World, sch: SchemaId) {
    |w'| == |w| && sch < |w| &&
    (forall i :: 0 <= i < |w| && i != sch ==> w'[i] == w[i]) &&
    w'[sch] == w[sch].(importedModules := w'[sch].importedModules)
  }

  /** Attribute.optional: only an explicit use="optional" counts. */
  predicate IsOptional(a: Attribute) {
    a.use == "optional"
  }

  /** Attribute.Modifiers: the struct-tag options. */
  function Modifiers(a: Attribute): (m: string)
    ensures IsOptional(a) <==> m == "attr,omitempty"
    ensures !IsOptional(a) <==> m == "attr"
  {
    "attr" + if IsOptional(a) then ",omitempty" else ""
  }

  /** Attribute.XmlName: the declared name, or the local part of the
      reference for an attribute declared by reference. */
  function XmlName(a: Attribute): (n: string)
    ensures a.name != "" ==> n == a.name
    ensures a.name == "" && ':' !in a.ref ==> n == a.ref
    ensures a.name == "" && ':' in a.ref ==> NsPrefix(a.ref) + ":" + n == a.ref
  {
    if a.name != "" then a.name
    else
      assert ':' in a.ref ==> NsPrefix(a.ref) + ":" + LocalName(a.ref) == a.ref by {
        if ':' in a.ref { SplitRoundTrip(a.ref); }
      }
      LocalName(a.ref)
  }

  /** Attribute.GoType: "string" when no type was bound. */
  function GoType(w: World, a: Attribute): (t: string)
    ensures a.boundType.None? ==> t == "string"
    ensures a.boundType.Some? && a.boundType.value.Static? ==> t == a.boundType.value.goName
    ensures a.boundType.Some? ==> t == TypeGoName(w, a.boundType.value)
  {
    if a.boundType.None? then "string" else TypeGoName(w, a.boundType.value)
  }

  /** Attribute.isPlainString: no bound type, or a built-in one. */
  predicate IsPlainString(a: Attribute) {
    a.boundType.None? || a.boundType.value.Static?
  }

  /** The schema a field's Go type lives in: the referenced attribute's, else
      the bound type's (none for built-in types and dangling handles). */
  function ForeignSchema(w: World, a: Attribute): Option<SchemaId> {
    if a.refAttr.Some? then
      match AttributeAt(w, a.refAttr.value)
      case Some(target) => target.schema
      case None => None
    else if a.boundType.Some? then TypeSchema(w, a.boundType.value)
    else None
  }

  /** Attribute.GoForeignModule: the package qualifier for a type that lives
      in another schema. */
  function GoForeignModule(w: World, a: Attribute): (m: string)
    ensures IsPlainString(a) ==> m == ""
    ensures m != "" ==> ForeignSchema(w, a).Some? && ForeignSchema(w, a) != a.schema
    ensures !IsPlainString(a) && ForeignSchema(w, a).Some? && ForeignSchema(w, a) != a.schema && ForeignSchema(w, a).value < |w| ==>
      m == GoPackageName(w[ForeignSchema(w, a).value]) + "."
  {
    if IsPlainString(a) then ""
    else
      var foreign := ForeignSchema(w, a);
      if foreign.Some? && foreign != a.schema && foreign.value < |w| then GoPackageName(w[foreign.value]) + "."
      else ""
  }

  /** Attribute.compile: record the schema; resolve a non-empty reference to
      a declared attribute and a non-empty type to a Type, failing when
      either cannot be found. Resolving a type in another schema registers
      that schema as an imported module. */
  function Compile(w: World, a: Attribute, sch: SchemaId): (r: Result<(World, Attribute)>)
    requires sch < |w|
    ensures r.Ok? ==> ModulesOnly(w, r.value.0, sch)
    ensures r.Ok? ==> var a' := r.value.1;
      a'.schema == Some(sch) && a' == a.(schema := a'.schema, refAttr := a'.refAttr, boundType := a'.boundType)
    ensures r.Ok? && a.ref != "" ==> var a' := r.value.1;
      a'.refAttr.Some? && AttributeAt(r.value.0, a'.refAttr.value).Some? &&
      AttributeAt(r.value.0, a'.refAttr.value).value.name == LocalName(a.ref)
    ensures r.Ok? && a.ref == "" ==> r.value.1.refAttr == a.refAttr
    ensures r.Ok? && a.typ != "" ==> r.value.1.boundType.Some? && TypeAt(r.value.0, r.value.1.boundType.value).Some?
    ensures r.Ok? && a.typ == "" ==> r.value.1.boundType == a.boundType && r.value.0 == w
    ensures a.ref != "" && FindReferencedAttribute(w, sch, a.ref) == Ok(None) ==>
      r == Fail(CannotResolve("Cannot resolve attribute reference: " + a.ref))
    ensures a.ref == "" && a.typ != "" && FindReferencedType(w, sch, a.typ).Ok? && FindReferencedType(w, sch, a.typ).value.1.None? ==>
      r == Fail(CannotResolve("Cannot resolve attribute type: " + a.typ))
    ensures a.ref == "" && a.typ == "" ==> r == Ok((w, a.(schema := Some(sch))))
    ensures r.Ok? <==>
              (a.ref == "" || (FindReferencedAttribute(w, sch, a.ref).Ok? && FindReferencedAttribute(w, sch, a.ref).value.Some?)) &&
              (a.typ == "" || (FindReferencedType(w, sch, a.typ).Ok? && FindReferencedType(w, sch, a.typ).value.1.Some?))
    ensures r.Ok? && a.ref != "" ==> r.value.1.refAttr == FindReferencedAttribute(w, sch, a.ref).value
    ensures r.Ok? && a.typ != "" ==>
              r.value.0 == FindReferencedType(w, sch, a.typ).value.0 &&
              r.value.1.boundType == FindReferencedType(w, sch, a.typ).value.1
    ensures a.ref != "" && FindReferencedAttribute(w, sch, a.ref).Fail? ==>
              r == Fail(FindReferencedAttribute(w, sch, a.ref).error)
  {
    var a1 := a.(schema := Some(sch));
    var a2 :- if a.ref == "" then Ok(a1) else BindReference(w, sch, a1);
    if a.typ == "" then Ok((w, a2))
    else
      var r := BindType(w, sch, a2);
      if r.Ok? then
        ModulesOnlyKeepsAttributes(w, r.value.0, sch);
        r
      else r
  }

  /** The reference half of compile: bind `a.ref` to the declared attribute
      it names. */
  function BindReference(w: World, sch: SchemaId, a: Attribute): (r: Result<Attribute>)
    ensures r.Ok? ==> r.value == a.(refAttr := r.value.refAttr)
    ensures r.Ok? ==>
              r.value.refAttr.Some? && AttributeAt(w, r.value.refAttr.value).Some? &&
              AttributeAt(w, r.value.refAttr.value).value.name == LocalName(a.ref)
    ensures FindReferencedAttribute(w, sch, a.ref) == Ok(None) ==>
      r == Fail(CannotResolve("Cannot resolve attribute reference: " + a.ref))
    ensures FindReferencedAttribute(w, sch, a.ref).Fail? ==> r == Fail(FindReferencedAttribute(w, sch, a.ref).error)
    ensures FindReferencedAttribute(w, sch, a.ref).Ok? && FindReferencedAttribute(w, sch, a.ref).value.Some? ==>
      r == Ok(a.(refAttr := FindReferencedAttribute(w, sch, a.ref).value))
  {
    var found :- FindReferencedAttribute(w, sch, a.ref);
    if found.None? then Fail(CannotResolve("Cannot resolve attribute reference: " + a.ref))
    else Ok(a.(refAttr := found))
  }

  /** The type half of compile: bind `a.typ` to the Type it names. */
  function BindType(w: World, sch: SchemaId, a: Attribute): (r: Result<(World, Attribute)>)
    requires sch < |w|
    ensures r.Ok? ==> ModulesOnly(w, r.value.0, sch)
    ensures r.Ok? ==> r.value.1 == a.(boundType := r.value.1.boundType)
    ensures r.Ok? ==> r.value.1.boundType.Some? && TypeAt(r.value.0, r.value.1.boundType.value).Some?
    ensures FindReferencedType(w, sch, a.typ).Ok? && FindReferencedType(w, sch, a.typ).value.1.None? ==>
      r == Fail(CannotResolve("Cannot resolve attribute type: " + a.typ))
    ensures FindReferencedType(w, sch, a.typ).Fail? ==> r == Fail(FindReferencedType(w, sch, a.typ).error)
    ensures FindReferencedType(w, sch, a.typ).Ok? && FindReferencedType(w, sch, a.typ).value.1.Some? ==>
      r == Ok((FindReferencedType(w, sch, a.typ).value.0, a.(boundType := FindReferencedType(w, sch, a.typ).value.1)))
  {
    var (w', t) :- FindReferencedType(w, sch, a.typ);
    if t.None? then Fail(CannotResolve("Cannot resolve attribute type: " + a.typ))
    else Ok((w', a.(boundType := t)))
  }

  /** Registering an imported module leaves every declared attribute where
      it was. */
  lemma ModulesOnlyKeepsAttributes(w: World, w': World, sch: SchemaId)
    requires ModulesOnly(w, w', sch)
    ensures forall d :: AttributeAt(w', d) == AttributeAt(w, d)
  {
    forall d ensures AttributeAt(w', d) == AttributeAt(w, d) {
      if d.schema < |w| && d.schema != sch { assert w'[d.schema] == w[d.schema]; }
      else if d.schema == sch { assert w'[sch].attributes == w[sch].attributes; }
    }
  }

  /** compile never changes what the Go name is computed from, so compiling
      an attribute keeps its Go name. */
  lemma CompileKeepsGoName(w: World, a: Attribute, sch: SchemaId)
    requires sch < |w| && Compile(w, a, sch).Ok?
    ensures AttrGoName(Compile(w, a, sch).value.1) == AttrGoName(a)
    ensures XmlName(Compile(w, a, sch).value.1) == XmlName(a)
    ensures Modifiers(Compile(w, a, sch).value.1) == Modifiers(a)
  {
    var a' := Compile(w, a, sch).value.1;
    assert AttrBaseName(a') == AttrBaseName(a);
  }

  /** An attribute declared without a type stays a plain string field after
      compile (unless it was already bound), and a plain field has no
      foreign package qualifier. */
  lemma UntypedAttributeIsPlain(w: World, a: Attribute, sch: SchemaId)
    requires sch < |w| && a.typ == "" && a.boundType.None? && Compile(w, a, sch).Ok?
    ensures var a' := Compile(w, a, sch).value.1;
      IsPlainString(a') && GoType(w, a') == "string" && GoForeignModule(w, a') == ""
  {
  }

  /** Optional and required attributes differ only in ",omitempty", and an
      unspecified `use` is not optional. */
  lemma OptionalOnlyWhenExplicit(a: Attribute)
    ensures a.use == "" ==> Modifiers(a) == "attr"
    ensures a.use == "required" ==> Modifiers(a) == "attr"
    ensures a.use == "optional" ==> Modifiers(a) == "attr,omitempty"
  {
  }
}
