/** The schema object model: one datatype per XSD construct the generator
    understands, held in an arena of schemas.

    Go pointers are modelled as follows. A `*Schema` is a `SchemaId`, an
    index into the arena `World`. A pointer to a top-level element or
    attribute is a `DeclRef` (schema and position in its list). The `Type`
    interface, which always points at a top-level complex type, simple type
    or attribute group of some schema, or is a built-in static type, is a
    `TypeRef`. Nested constructs that their parent owns alone (an element's
    inline complex type, a sequence, a choice, content, extension,
    restriction) are stored by value inside the parent. */
module Decls {
  import opened Results
  import opened Xmlns
  import opened TypeOverrides
  import opened Annotations
  import opened Enums

  type SchemaId = nat

  /** A pointer to a top-level declaration: its schema and its position. */
  datatype DeclRef = DeclRef(schema: SchemaId, index: nat)

  /** A value of the Type interface. */
  datatype TypeRef =
    | ComplexRef(schema: SchemaId, index: nat)
    | SimpleRef(schema: SchemaId, index: nat)
    | GroupRef(schema: SchemaId, index: nat)
    | Static(goName: string)

  /** A template override a complex or simple type may use. */
  datatype Override = Override(templateName: string, isIncl: bool, isElem: bool, isCompTyp: bool, templateUsed: bool)

  const NoOverride := Override("", false, false, false, false)

  /** xsd:attribute. `boundType` is the Go field `typ`, set by compile. */
  datatype Attribute = Attribute(
    name: string,
    typ: string,
    use: string,
    duplicateCount: nat,
    ref: string,
    refAttr: Option<DeclRef>,
    boundType: Option<TypeRef>,
    schema: Option<SchemaId>)

  /** xsd:element. */
  datatype Element = Element(
    name: string,
    nameOverride: string,
    typ: string,
    ref: string,
    minOccurs: string,
    maxOccurs: string,
    refElm: Option<DeclRef>,
    complexType: Option<ComplexType>,
    simpleType: Option<SimpleType>,
    refType: Option<TypeRef>,
    schema: Option<SchemaId>,
    fieldOverride: bool)

  /** Which of a complex type's two content children its `content` field
      points at. */
  datatype ContentSel = NoContent | UsesComplexContent | UsesSimpleContent

  /** xsd:complexType. */
  datatype ComplexType = ComplexType(
    name: string,
    mixed: bool,
    attributesDirect: seq<Attribute>,
    sequence: Option<Sequence>,
    sequenceAll: Option<Sequence>,
    schema: Option<SchemaId>,
    simpleContent: Option<Content>,
    complexContent: Option<Content>,
    choice: Option<Choice>,
    content: ContentSel,
    override: Override)

  /** xsd:any: compiled (it records its schema) but contributes no element. */
  datatype Any = Any(namespace: string, processContents: string, schema: Option<SchemaId>)

  /** xsd:sequence and xsd:all, which share one shape. */
  datatype Sequence = Sequence(
    elementList: seq<Element>,
    choices: seq<Choice>,
    any: seq<Any>,
    allElements: seq<Element>)

  /** xsd:choice. */
  datatype Choice = Choice(
    minOccurs: string,
    maxOccurs: string,
    elementList: seq<Element>,
    sequences: seq<Sequence>,
    schema: Option<SchemaId>,
    allElements: seq<Element>)

  /** xsd:simpleContent and xsd:complexContent, which share one shape. */
  datatype Content = Content(extension: Option<Extension>, restriction: Option<Restriction>, schema: Option<SchemaId>)

  /** xsd:extension. */
  datatype Extension = Extension(
    base: string,
    attributesDirect: seq<Attribute>,
    attributeGroups: seq<AttributeGroup>,
    sequence: Option<Sequence>,
    typ: Option<TypeRef>)

  /** xsd:restriction. */
  datatype Restriction = Restriction(
    base: string,
    attributesDirect: seq<Attribute>,
    enumsDirect: seq<Enumeration>,
    simpleContent: Option<Content>,
    schema: Option<SchemaId>,
    typ: Option<TypeRef>)

  /** xsd:attributeGroup. */
  datatype AttributeGroup = AttributeGroup(
    name: string,
    ref: string,
    attributesDirect: seq<Attribute>,
    typ: Option<TypeRef>,
    schema: Option<SchemaId>)

  /** xsd:simpleType. */
  datatype SimpleType = SimpleType(
    name: string,
    restriction: Option<Restriction>,
    schema: Option<SchemaId>,
    override: Override)

  datatype Import = Import(namespace: string, schemaLocation: string, importedSchema: Option<SchemaId>)

  datatype Include = Include(namespace: string, schemaLocation: string, includedSchema: Option<SchemaId>)

  /** xsd:schema. `importedModules` is the Go map from package name to schema,
      kept as a list of pairs with at most one pair per key. */
  datatype Schema = Schema(
    xmlns: seq<NsDecl>,
    targetNamespace: string,
    includes: seq<Include>,
    imports: seq<Import>,
    elements: seq<Element>,
    attributes: seq<Attribute>,
    attributeGroups: seq<AttributeGroup>,
    complexTypes: seq<ComplexType>,
    simpleTypes: seq<SimpleType>,
    importedModules: seq<(string, SchemaId)>,
    modulesPath: string,
    filePath: string,
    inlinedElements: seq<Element>,
    goPackageNameOverride: string,
    typeOverrides: TypeOverrideTable,
    templateOverrides: map<string, Override>)

  /** Every schema the workspace has loaded; a `SchemaId` indexes it. */
  type World = seq<Schema>

  /** What a `TypeRef` points at. */
  datatype TypeDecl =
    | ComplexDecl(ct: ComplexType)
    | SimpleDecl(st: SimpleType)
    | GroupDecl(ag: AttributeGroup)
    | StaticDecl(goName: string)

  function SchemaAt(w: World, id: SchemaId): Option<Schema> {
    if id < |w| then Some(w[id]) else None
  }

  /** The element a reference points at; None for a dangling reference. */
  function ElementAt(w: World, r: DeclRef): Option<Element> {
    if r.schema < |w| && r.index < |w[r.schema].elements| then Some(w[r.schema].elements[r.index]) else None
  }

  function AttributeAt(w: World, r: DeclRef): Option<Attribute> {
    if r.schema < |w| && r.index < |w[r.schema].attributes| then Some(w[r.schema].attributes[r.index]) else None
  }

  /** The type declaration a `TypeRef` points at; None for a dangling one. */
  function TypeAt(w: World, t: TypeRef): Option<TypeDecl> {
    match t
    case Static(n) => Some(StaticDecl(n))
    case ComplexRef(s, i) =>
      if s < |w| && i < |w[s].complexTypes| then Some(ComplexDecl(w[s].complexTypes[i])) else None
    case SimpleRef(s, i) =>
      if s < |w| && i < |w[s].simpleTypes| then Some(SimpleDecl(w[s].simpleTypes[i])) else None
    case GroupRef(s, i) =>
      if s < |w| && i < |w[s].attributeGroups| then Some(GroupDecl(w[s].attributeGroups[i])) else None
  }

  /** Type.Schema(): the schema a type was compiled in; none for static types. */
  function TypeSchema(w: World, t: TypeRef): Option<SchemaId> {
    match TypeAt(w, t)
    case Some(ComplexDecl(ct)) => ct.schema
    case Some(SimpleDecl(st)) => st.schema
    case Some(GroupDecl(ag)) => ag.schema
    case _ => None
  }

  /** The number of type declarations in the world: a chain of type
      references without a cycle is never longer than this. */
  function TypeCount(w: World): nat {
    if w == [] then 0
    else TypeCount(w[..|w| - 1]) + |w[|w| - 1].complexTypes| + |w[|w| - 1].simpleTypes| + |w[|w| - 1].attributeGroups|
  }

  /** The number of top-level elements in the world: a chain of element
      references without a cycle is never longer than this. */
  function ElementCount(w: World): nat {
    if w == [] then 0 else ElementCount(w[..|w| - 1]) + |w[|w| - 1].elements|
  }

  /** The depth bound the accessors use for chains of type references. */
  function TypeDepth(w: World): nat {
    TypeCount(w) + 1
  }

  /** The depth bound for chains of element references. */
  function RefDepth(w: World): nat {
    ElementCount(w) + 1
  }

  /** A complex type's `content` field: the child it selects, if any. */
  function ContentOf(ct: ComplexType): Option<Content> {
    match ct.content
    case NoContent => None
    case UsesComplexContent => ct.complexContent
    case UsesSimpleContent => ct.simpleContent
  }
}
