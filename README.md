# xsd2go schema model in Dafny

This project models the schema object model of GoComply/xsd2go, the
package `pkg/xsd`, together with the template classification
`GetAllTemplates` of `pkg/xsd2go/template.go`. xsd2go reads XML Schema
files and generates Go structs from them. The modelled core does the
following:

- **Workspace.** It loads a schema and the schemas it includes and imports.
  Loaded files are kept in a path-keyed cache. The declarations of each
  included schema are prepended to the including schema, and the package
  names of all cached schemas must be distinct.
- **Compile pass.** It binds each element, attribute, attribute group,
  complex type and simple type to its schema and to the declarations it
  references, flattening sequences and choices on the way. Occurrence
  bounds are handed down from a choice. Attribute names that collide after
  camel-casing are numbered apart. An unsupported combination stops the
  pass.
- **Accessors.** They give the generator each declaration's Go name, Go
  type, memory layout, struct tags and package qualifier.
- **Exported lists.** These are the elements, complex types and simple
  types to generate, the imports each generated file needs, and the xmlns
  and type override tables read from the command line.

How the source is represented:

- **Arena.** Every `*Schema` pointer becomes an index into a `World`, a
  sequence of schemas. A top-level `*Element` or `*Attribute` pointer
  becomes a `DeclRef` (schema index, position). A value of the `Type`
  interface becomes a `TypeRef` handle: a complex type, a simple type, an
  attribute group, or a built-in (static) type.
- **Compile methods.** Each compile method takes the world and the node it
  compiles, and returns the new world and node, or the error the source
  would panic with.
- **Workspace.** The workspace is a class whose methods update its cache
  and world in place, as `Workspace` does in Go.
- **Loops.** Loops that update a map or a slice become methods with loop
  invariants, proved equal to a specification function. The lemmas prove
  what the source promises about that function.

The modules are:

| file | module | source |
|---|---|---|
| results.dfy | Results | error values for every `panic` and `error` of the core |
| text.dfy | Text | the string functions of the Go library the core calls |
| decls.dfy | Decls | the declarations of schema.go, types.go, element.go, attribute.go and the other structs |
| common.dfy | Common | common.go |
| xmlns.dfy | Xmlns | xmlns.go |
| go_xmlns_override.dfy | XmlnsOverrides | go_xmlns_override.go |
| go_type_override.dfy | TypeOverrides | go_type_override.go |
| annotation.dfy | Annotations | annotation.go |
| enum.dfy | Enums | enum.go |
| static_types.dfy | StaticTypes | the static type catalog of types.go |
| names.dfy | Names | Go names of attributes, elements and types |
| attribute.dfy | Attributes | attribute.go |
| element.dfy | Elements | element.go |
| schema_lookup.dfy | SchemaLookup | namespace and declaration lookups of schema.go |
| dedup.dfy | Deduplication | deduplicateAttributes and deduplicateElements of extension.go |
| numbering.dfy | Numbering | the attribute-numbering loop of types.go, attributegroup.go and extension.go |
| types.dfy | Types | the Attributes, Elements, ContainsText and GoTypeName accessors of the type declarations |
| compile.dfy | Compile | the compile methods of every declaration and of the schema |
| schema_export.dfy | SchemaExport | the exported lists, imports, merge and lossfree deduplication of schema.go |
| workspace.dfy | Workspaces | workspace.go with Import.load and Include.load |
| template.dfy | Templates | GetAllTemplates of template.go |

## Model

| member | source | states |
|---|---|---|
| Common.NsPrefix | pkg/xsd/common.go:12-18 | the prefix never contains ':'; it is "" for a reference without ':', otherwise the text before the first ':' |
| Common.LocalName | pkg/xsd/common.go:20-23 | the whole reference when it has no ':', otherwise the text after the first ':' |
| Common.SplitRoundTrip | pkg/xsd/common.go:12-23 | for a reference with a ':', prefix + ":" + name gives the reference back, and the lengths add up to its length minus one |
| Common.JoinRoundTrip | pkg/xsd/common.go:12-27 | parsing prefix:local for a prefix without ':' gives back the prefix and the local name; the Go name is ToCamel(prefix) + ToCamel(local) |
| Common.UnqualifiedReference | pkg/xsd/common.go:12-27 | a reference without ':' has prefix "" and is its own name |
| Xmlns.ParseXmlns | pkg/xsd/xmlns.go:14-24 | the loop returns exactly the namespace declarations of the attributes, in document order |
| Xmlns.DeclsMembership | pkg/xsd/xmlns.go:15-20 | a (prefix, uri) pair is in the result iff some attribute in the "xmlns" space has that local name and value |
| Xmlns.DeclsLength | pkg/xsd/xmlns.go:14-23 | the result is no longer than the attribute list, and empty when no attribute declares a namespace |
| Xmlns.DeclsAppend | pkg/xsd/xmlns.go:15-22 | the declarations of two attribute lists in a row are the declarations of the first followed by those of the second |
| Xmlns.UriByPrefix | pkg/xsd/schema.go:165 | "" when no entry has the prefix, otherwise the uri of the first entry that has it |
| Xmlns.PrefixByUri | pkg/xsd/schema.go:312 | "" when no entry has the uri, otherwise the prefix of the first entry that has it |
| XmlnsOverrides.ParseXmlnsOverrides | pkg/xsd/go_xmlns_override.go:10-22 | the loop computes the table of the specification function ParsedXmlnsOverrides, or its error |
| XmlnsOverrides.ParseFailsIffInvalidEntry | pkg/xsd/go_xmlns_override.go:13-18 | the parse fails iff some entry does not split around '=' into exactly two non-empty fields |
| XmlnsOverrides.ParseReportsFirstInvalidEntry | pkg/xsd/go_xmlns_override.go:16-18 | a failed parse reports the first invalid entry; all earlier entries are valid |
| XmlnsOverrides.PrefixFailure | pkg/xsd/go_xmlns_override.go:16-18 | once a prefix of the list fails, the whole list fails with the same error |
| XmlnsOverrides.ParsedKeys | pkg/xsd/go_xmlns_override.go:11-21 | after a successful parse every entry is valid, and the table's keys are exactly the entries' namespaces |
| XmlnsOverrides.ParsedLastEntryWins | pkg/xsd/go_xmlns_override.go:19 | the last entry for a namespace decides its package |
| XmlnsOverrides.DoubledSeparatorAccepted | pkg/xsd/go_xmlns_override.go:13-16 | "a==b" has the fields a and b and is accepted as a to b |
| XmlnsOverrides.MissingSideRejected | pkg/xsd/go_xmlns_override.go:13-16 | "a=" and "=b" are rejected |
| XmlnsOverrides.ThreeFieldsRejected | pkg/xsd/go_xmlns_override.go:13-18 | "a=b=c" is rejected and fails a list that also holds a valid entry |
| XmlnsOverrides.Override | pkg/xsd/go_xmlns_override.go:24-26 | the mapped package, or "" for a namespace without an entry |
| TypeOverrides.ParseTypeOverride | pkg/xsd/go_type_override.go:14-22 | an entry fails with the "expected at least 1 '='" error iff it has no '=' |
| TypeOverrides.ParseTypeOverrideRoundTrip | pkg/xsd/go_type_override.go:14-22 | a parsed entry gives back the string as uri ":" type "=" goType, split at the first '=' and at the last ':' before it; an entry with '=' fails only when its key has no ':' |
| TypeOverrides.SplitPositions | pkg/xsd/go_type_override.go:14-22 | a uri may contain ':' and the Go type may contain '=': both survive the parse |
| TypeOverrides.AddOverride | pkg/xsd/go_type_override.go:25-30 | the namespace gains the type with its Go type; its other types and the other namespaces are untouched |
| TypeOverrides.ParseTypeOverrides | pkg/xsd/go_type_override.go:10-33 | the loop computes the table of the specification function ParsedTypeOverrides, or its error |
| TypeOverrides.TypePrefixFailure | pkg/xsd/go_type_override.go:15-17 | once a prefix of the list fails, the whole list fails with the same error |
| TypeOverrides.MissingEqualsFails | pkg/xsd/go_type_override.go:15-17 | any entry without '=' fails the whole parse |
| TypeOverrides.ParsedTypeOverridesLastWins | pkg/xsd/go_type_override.go:12-31 | the last entry for a (namespace, type) pair decides its Go type |
| TypeOverrides.AddParsedKeeps | pkg/xsd/go_type_override.go:25-30 | adding an entry for another (namespace, type) pair keeps an existing mapping |
| TypeOverrides.AddParsedAdds | pkg/xsd/go_type_override.go:25-30 | after adding an entry its own mapping holds |
| TypeOverrides.ParsedNamespacesNonEmpty | pkg/xsd/go_type_override.go:25-30 | every namespace in a parsed table has at least one type |
| TypeOverrides.OverrideType | pkg/xsd/go_type_override.go:35-41 | not overridden exactly when the namespace has no entry; a namespace with entries overrides every type name, with "" for an unlisted one |
| Annotations.FirstDocumentation | pkg/xsd/annotation.go:17-21 | the first documentation whose source equals the key ignoring case, or none |
| Annotations.GetName | pkg/xsd/annotation.go:15-24 | "" for a nil annotation or when no documentation has source "Name"; otherwise the inner XML of the first one that does |
| Annotations.GoComments | pkg/xsd/annotation.go:26-37 | nil iff the annotation is nil or has no "Definition" documentation; otherwise at least one line, and no line contains '\n' or '\r' |
| Annotations.CommentsRejoin | pkg/xsd/annotation.go:29-33 | the lines joined with '\n' are the unescaped definition with every '\r' removed |
| Enums.EnumGoName | pkg/xsd/enum.go:22-29 | the annotation's "Name" documentation when non-empty, otherwise ToCamel of the lower-cased value |
| Enums.CaseInsensitiveEnumNames | pkg/xsd/enum.go:22-29 | two unnamed enumerations whose values differ only in case get one Go name |
| Enums.NamedEnumIgnoresValue | pkg/xsd/enum.go:22-37 | a named enumeration keeps its Go name whatever its value, and its XML name is the value |
| StaticTypes.StaticType | pkg/xsd/types.go:323-329 | succeeds iff the name is in the catalog, with the catalog's Go type; otherwise fails with "Type xsd:<name> not implemented" |
| StaticTypes.CatalogValues | pkg/xsd/types.go:289-321 | every catalog entry maps to string, time.Time, int, int64, uint64, float64 or bool |
| StaticTypes.CatalogDates | pkg/xsd/types.go:292-293 | dateTime and date map to time.Time |
| StaticTypes.CatalogIntegers | pkg/xsd/types.go:302-305 | integer maps to int64 and nonNegativeInteger to uint64 |
| StaticTypes.CatalogDecimalAndBoolean | pkg/xsd/types.go:308-310 | decimal maps to float64 and boolean to bool |
| StaticTypes.CatalogGaps | pkg/xsd/types.go:289-329 | QName and duration are not in the catalog and fail |
| Names.TypeGoName | pkg/xsd/types.go:246-248 | a built-in type's Go name is the Go type itself; a dangling handle has no name |
| Names.NamedElementNames | pkg/xsd/element.go:43-57 | a named element's field name is ToCamel(name) and its XML name the name; its Go name is the camelized override when set, else the field name |
| Names.ReferencedElementNames | pkg/xsd/element.go:43-49 | an unnamed element takes its field name from the referenced element's Go name and its XML name from that element's XML name |
| Attributes.Modifiers | pkg/xsd/attribute.go:68-74 | "attr,omitempty" iff the attribute is optional, otherwise "attr" |
| Attributes.OptionalOnlyWhenExplicit | pkg/xsd/attribute.go:83-85 | an unspecified or "required" use gives "attr"; only "optional" gives "attr,omitempty" |
| Attributes.XmlName | pkg/xsd/attribute.go:76-81 | the name when set; otherwise the local part of the reference (the whole reference when it has no ':') |
| Attributes.GoType | pkg/xsd/attribute.go:35-40 | "string" when no type is bound, otherwise the bound type's Go name |
| Attributes.GoForeignModule | pkg/xsd/attribute.go:50-66 | "" for an untyped or built-in attribute; non-empty only for a target in another schema, and then that schema's package name followed by "." |
| Attributes.Compile | pkg/xsd/attribute.go:87-102 | records the schema; succeeds iff the reference (when set) finds an attribute and the type (when set) finds a type; binds exactly the declaration FindReferencedAttribute finds and the type and world FindReferencedType returns; a lookup error is passed on and a missing target fails with the source's message; only imported modules of the world change |
| Attributes.BindReference | pkg/xsd/attribute.go:89-94 | binds exactly the declaration FindReferencedAttribute finds, which has the reference's local name; a lookup error is passed on; no declaration fails with "Cannot resolve attribute reference" |
| Attributes.BindType | pkg/xsd/attribute.go:95-101 | binds exactly the type FindReferencedType finds and takes the world it returns, in which the type exists and only imported modules changed; a lookup error is passed on; no type fails with "Cannot resolve attribute type" |
| Attributes.CompileKeepsGoName | pkg/xsd/attribute.go:87-102 | compiling changes neither the Go name, the XML name nor the modifiers |
| Attributes.UntypedAttributeIsPlain | pkg/xsd/attribute.go:35-53 | an attribute without a type compiles to a plain string with Go type "string" and no package qualifier |
| Elements.ElemAttributes | pkg/xsd/element.go:27-32 | no attributes without an inline complex type |
| Elements.ElemElements | pkg/xsd/element.go:34-41 | no child elements without an inline complex type and with no type or a simple or built-in type |
| Elements.GoTypeName | pkg/xsd/element.go:69-76 | a typed element takes the Go type name of its bound type, and "" while the type is unbound; an untyped plain string is "string"; an untyped structured element uses its own Go name |
| Elements.GoMemLayout | pkg/xsd/element.go:59-67 | "[]" iff the element is an array; "*" iff it is single, minOccurs is "0" and its type name is not "string"; "" otherwise |
| Elements.SingleOccurrenceIsNotArray | pkg/xsd/element.go:104-110 | maxOccurs "", "1" and "0" are not arrays; "2" is |
| Elements.PlainStringIsNeverPointer | pkg/xsd/element.go:59-76 | an untyped plain string element is never a pointer |
| Elements.GoForeignModule | pkg/xsd/element.go:78-90 | non-empty only for a referenced element or type in another schema, and then that schema's package name followed by "."; "" without a reference or type |
| Elements.PrefixNameWithParent | pkg/xsd/element.go:139-145 | no change without a parent; otherwise the override becomes parent Go name + "-" + own Go name |
| Elements.PrefixKeepsFieldAndXmlName | pkg/xsd/element.go:43-57 | prefixing sets a non-empty override and changes the Go name only: field name and XML name stay |
| Elements.FieldNameIgnoresOverride | pkg/xsd/element.go:43-49 | the field name and the XML name do not depend on the name override |
| Deduplication.DeduplicateInPlace | pkg/xsd/extension.go:57-69 | the compacted prefix of the array equals the specification function Dedup of the original contents |
| Deduplication.DedupKeys | pkg/xsd/extension.go:57-69 | the result has the same set of Go names as the input, no two entries share one, and it is no longer than the input |
| Deduplication.DedupSubsequence | pkg/xsd/extension.go:57-69 | the result keeps the input's relative order |
| Deduplication.DedupKeepsFirst | pkg/xsd/extension.go:60-66 | the first entry with each Go name is kept |
| Deduplication.DedupOnlyFirsts | pkg/xsd/extension.go:60-66 | every kept entry is the first of its Go name in the input |
| Deduplication.DedupDistinct | pkg/xsd/extension.go:71-83 | an input with distinct Go names is returned unchanged |
| Deduplication.DedupIdempotent | pkg/xsd/extension.go:57-69 | deduplicating twice is deduplicating once |
| Deduplication.DedupPush | pkg/xsd/extension.go:61-66 | one more entry is kept iff its Go name is not yet in the result |
| Deduplication.DedupPrefix | pkg/xsd/extension.go:57-69 | appending to the input only appends to the result |
| Deduplication.DedupKeepsLeading | pkg/xsd/extension.go:17-21 | a leading run with distinct names survives the deduplication, so own attributes win over same-named base ones |
| Deduplication.DedupAppendStep | pkg/xsd/extension.go:22-26 | appending a group's attributes and deduplicating keeps the earlier list in front and adds exactly the new names |
| Deduplication.DedupChainKeys | pkg/xsd/extension.go:22-26 | after all groups are appended, the names are those of the start and of every group |
| Deduplication.DedupChainPrefix | pkg/xsd/extension.go:22-26 | after all groups are appended, the start stays in front and no two entries share a name |
| Types.InjectSchema | pkg/xsd/types.go:22-29 | same length; every attribute carries the given schema and is otherwise unchanged |
| Types.InjectSchemaIntoAttributes | pkg/xsd/types.go:22-29 | the loop computes InjectSchema |
| Types.InjectSchemaKeys | pkg/xsd/types.go:22-29 | injecting the schema keeps the set of Go names and their distinctness |
| Types.ExtAttributesOwnFirst | pkg/xsd/extension.go:16-28 | own attributes come first, no two results share a Go name, and the names are those of own, base and group attributes |
| Types.ExtOwnAndBaseKeys | pkg/xsd/extension.go:17-21 | own plus base attributes have exactly the names of both |
| Types.RestrictionAttributesShape | pkg/xsd/restriction.go:38-49 | every result carries the restriction's schema; no two share a Go name; the names are the inherited and direct ones; the inherited ones come first |
| Types.GroupAttributesOrder | pkg/xsd/attributegroup.go:18-24 | direct attributes come first; without a bound type they are all there is |
| Types.MarkOverrides | pkg/xsd/extension.go:40-54 | same length; an element is flagged FieldOverride iff its field name is an attribute's Go name or an earlier element's field name |
| Types.MarkFieldOverrides | pkg/xsd/extension.go:46-53 | the loop computes MarkOverrides |
| Types.ExtElementsShape | pkg/xsd/extension.go:30-55 | no element is dropped or reordered, only FieldOverride changes, and it is set exactly on the clashing elements |
| Types.ExtMergedOwnFirst | pkg/xsd/extension.go:30-38 | the sequence's own elements come first, and with a base type no two merged elements share a Go name |
| Types.ComplexTextNeedsExtension | pkg/xsd/types.go:77-79 | a complex type contains text iff its content has an extension whose base is "xsd:string" or whose base type contains text |
| Types.TypeGoTypeNameBasics | pkg/xsd/types.go:70-75 | a built-in type's Go type name is its Go type; a simple type without restriction is "string"; a group and a complex type without simple content use their Go name |
| Types.SimpleTypeNameFollowsBase | pkg/xsd/types.go:182-187 | a restricted simple type takes the Go type name of its base |
| Types.TemplateFlags | pkg/xsd/types.go:85-99 | a template flag is set only on a used override; a built-in type has none; a simple type never includes a complex-type template |
| Types.SimpleTypeEnums | pkg/xsd/types.go:233-238 | no enumerations without a restriction, otherwise the restriction's enumerations in order |
| Types.FlatTypes | pkg/xsd/types.go:225-287 | built-in and simple types have no attributes, only complex types have elements, declared simple types and groups contain text, a built-in type has no schema, a group's attributes are its own |
| Numbering.AttrGoNameFacts | pkg/xsd/attribute.go:24-33 | counts of 2 or more lengthen the Go name, count 1 leaves it bare, and it reads only the name, the reference and the count |
| Numbering.NumberedShape | pkg/xsd/types.go:115-126 | numbering changes only DuplicateCount, and every count is at least 1 |
| Numbering.DistinctNamesCountOne | pkg/xsd/types.go:115-126 | attributes with distinct Go names all get count 1 and keep their names |
| Numbering.SameNameCountsOneTwo | pkg/xsd/types.go:113-126 | two attributes with one Go name get counts 1 and 2 |
| Numbering.IdNames | pkg/xsd/attribute.go:24-33 | "id" and "Id" both give Id; "Id" with count 2 gives Id2, which is also the Go name of "id2" |
| Numbering.IdAndIdBecomeIdAndId2 | pkg/xsd/types.go:113-126 | "id" then "Id" become the fields Id and Id2 |
| Numbering.SuffixCollision | pkg/xsd/types.go:115-126 | as written, when x's bare name equals z's name numbered 2, x, y, z (z named like y) still get counts 1, 1, 2, so x and z share a Go name |
| Numbering.CollisionCounts | pkg/xsd/types.go:115-126 | "id2", "id", "Id" get counts 1, 1, 2 |
| Numbering.AsWrittenCollision | pkg/xsd/types.go:115-126 | as written, "id2", "id", "Id" get the Go names Id2, Id, Id2: two fields clash |
| Numbering.AsWrittenRecompileFlip | pkg/xsd/types.go:115-126 | as written, numbering "id", "Id" gives Id, Id2, and numbering that result again gives Id, Id |
| Numbering.FreeCount | pkg/xsd/types.go:120-123 | the corrected count is at least the as-written one and gives a Go name no earlier attribute has |
| Numbering.FreeCountLeast | pkg/xsd/types.go:120-123 | every count below the corrected one gives a name already taken, so the corrected count is the least free one |
| Numbering.NextFreeCount | pkg/xsd/types.go:120-123 | the search loop returns FreeCount |
| Numbering.NumberAttributes | pkg/xsd/types.go:115-126 | the corrected loop leaves the array equal to NumberedUnique of its old contents |
| Numbering.NumberedUniqueShape | pkg/xsd/types.go:115-126 | corrected numbering changes only DuplicateCount, and every count is at least 1 |
| Numbering.NumberedUniqueDistinct | pkg/xsd/types.go:115-126 | after corrected numbering no two attributes share a Go name |
| Numbering.UniqueAgreesWhenDistinct | pkg/xsd/types.go:115-126 | whenever the as-written numbering gives distinct names, the corrected one gives the same counts |
| Numbering.UsedIsGivenNames | pkg/xsd/types.go:115-126 | the names the corrected loop records are exactly the Go names it gives |
| Numbering.NumberingOnlyReadsNames | pkg/xsd/types.go:116-123 | the counts depend only on names, references and old counts, so compiling each attribute first does not change them |
| Numbering.NumberedGoNames | pkg/xsd/types.go:113-126 | the corrected numbering with Attribute.GoName changes only counts and leaves all Go names distinct |
| Numbering.CorrectedRecompileStable | pkg/xsd/types.go:115-126 | with the corrected counter "id", "Id" give Id, Id2, and numbering again changes nothing |
| Numbering.DifferentNamesCountsOne | pkg/xsd/types.go:115-126 | two attributes whose names differ, the first keeping its name at count 1, both get count 1 |
| Compile.CompileAttribute | pkg/xsd/attribute.go:87-102 | the attribute gets its schema and only its bindings change; the world keeps every declaration |
| Compile.CompileAttributeList | pkg/xsd/restriction.go:19-22 | every attribute of the list is compiled, in order |
| Compile.CompileAndNumber | pkg/xsd/types.go:113-126 | every attribute is bound as Attributes.Compile binds it in a world of the pass and gets the corrected count of NumberedGoNames; the Go names of the result are distinct |
| Compile.TypeCompile | pkg/xsd/types.go:286-287 | compiling a built-in type or a dangling handle changes nothing; exhausted fuel is reported; after a successful compile the slot holds the compiled declaration (`DeclCompiled`): a complex type with the same shape, bound to the schema and with its content selected, a simple type bound to the schema unless it already had one, an attribute group bound to the schema with its reference resolved |
| Compile.ResolveBase | pkg/xsd/extension.go:97-100 | the base is exactly the type FindReferencedType finds, in the world it returns; a lookup error is passed on; no type fails with "Cannot build ...: unknown type" |
| Compile.UseOverride | pkg/xsd/types.go:163-167 | a template override for the Go name is marked used both in the type and in the schema's table; without one nothing changes |
| Compile.CtCompile | pkg/xsd/types.go:101-168 | succeeds only without a refused combination; keeps the type's shape; binds its schema; selects complex content before simple content; without content binds each direct attribute as Attributes.Compile does and numbers them apart with the corrected count; records a template override |
| Compile.OverrideKept | pkg/xsd/types.go:163-167 | compiling keeps the keys of the template override table and each override up to its used flag |
| Compile.CtChildren | pkg/xsd/types.go:101-161 | as CtCompile, before the template override, which is left unchanged |
| Compile.CtSequences | pkg/xsd/types.go:102-111 | a sequence together with an xsd:all fails; otherwise both are compiled in place |
| Compile.CtNumbering | pkg/xsd/types.go:113-126 | without content each direct attribute is bound as Attributes.Compile binds it in a world of the pass and gets the corrected count, so the Go names are distinct; with content the stored list is unchanged |
| Compile.CtContent | pkg/xsd/types.go:128-148 | both content kinds fail; content with more than one direct attribute, a sequence or an xsd:all fails; otherwise the selected content is compiled |
| Compile.CtChoice | pkg/xsd/types.go:150-161 | a choice with content, a sequence or an xsd:all fails; otherwise it is compiled |
| Compile.StCompile | pkg/xsd/types.go:209-223 | the schema is set only when none is; the restriction's base is the type FindReferencedType finds in a world of the pass; an empty base fails; a template override is marked used |
| Compile.ContentCompile | pkg/xsd/content.go:77-88 | the schema is set; the extension's and the restriction's bases are the types FindReferencedType finds in a world of the pass; complex content with both fails |
| Compile.ExtensionCompile | pkg/xsd/extension.go:89-123 | an empty base fails; otherwise the base is the type FindReferencedType finds in a world of the pass; the sequence is compiled as Sequence.compile compiles it and its elements are bound in the pass; every attribute group is compiled and each reference resolved in the pass (`GroupsBetween`); the direct attributes are numbered in a world of the pass (`ExtNumberedBetween`): when Attributes() there returns the direct list, they are compiled and numbered apart with the corrected counter (`AttrsNumberedBetween`), and otherwise left as declared |
| Compile.SkippedNumberingRejected | pkg/xsd/extension.go:16-28 | an extension with no bound base and no groups lists exactly its direct attributes, so leaving an unbound one as declared is not a numbering of it |
| Compile.ExtNumbering | pkg/xsd/extension.go:111-122 | the listed attributes are compiled and numbered with the corrected counter; only the direct list changes and keeps its length; when Attributes() returned the direct list, each direct attribute is bound as Attributes.Compile binds it in a world of the pass, gets the count NumberedGoNames gives it, and no two share a Go name; otherwise the direct list is unchanged |
| Compile.RestrictionCompile | pkg/xsd/restriction.go:17-36 | an empty base fails; otherwise the schema is set, each direct attribute is bound as Attributes.Compile binds it in a world of the pass, the enumerations are kept and the base is the type FindReferencedType finds |
| Compile.GroupCompile | pkg/xsd/attributegroup.go:26-51 | the schema is set; a reference is bound to exactly the type FindReferencedType finds, and without one the bound type is kept; a group with neither reference nor type binds each attribute as Attributes.Compile does and numbers them apart with the corrected count |
| Compile.ElementListCompile | pkg/xsd/sequence.go:20-23 | every element keeps its declaration and is bound exactly as ElementCompile binds it, reference then type, in a world of the pass |
| Compile.GroupListCompile | pkg/xsd/extension.go:103-107 | every attribute group of the list is compiled, and the world keeps every declaration; each group is bound to the schema with name, reference and attribute count kept, and each reference is resolved by FindReferencedType in a world of the pass |
| Compile.ChoiceListCompile | pkg/xsd/sequence.go:26-31 | every choice keeps its bounds, and each of its direct elements is bound as ElementCompile binds it in a world of the pass |
| Compile.Flatten | pkg/xsd/sequence.go:24-31 | the elements are the element list followed by each choice's elements, in order |
| Compile.SequenceCompile | pkg/xsd/sequence.go:19-37 | the elements keep their declarations, the flattened list is the element list followed by the choices' elements, and xsd:any particles of a sequence are bound |
| Compile.SequenceListCompile | pkg/xsd/choice.go:34-36 | every sequence is compiled and flattened, and each of its direct elements is bound as ElementCompile binds it in a world of the pass |
| Compile.Propagate | pkg/xsd/choice.go:24-29 | an unbounded choice makes the element unbounded, otherwise maxOccurs is kept; an empty minOccurs becomes "0"; nothing else changes |
| Compile.PropagateAll | pkg/xsd/choice.go:19-30 | Propagate is applied to every element |
| Compile.PropagateElements | pkg/xsd/choice.go:19-30 | the loop computes PropagateAll |
| Compile.InheritElements | pkg/xsd/choice.go:33-46 | the loop collects the propagated copies of every sequence's elements |
| Compile.ChoiceCompile | pkg/xsd/choice.go:17-50 | the choice keeps its bounds and hands them to its direct elements; each nested sequence is flattened; the elements are the direct ones followed by the sequences' elements with the bounds handed down, deduplicated by Go name |
| Compile.BothTypesError | pkg/xsd/element.go:127-129 | an element with both an inline complex type and a named type fails as not implemented |
| Compile.ElementCompile | pkg/xsd/element.go:112-137 | the element keeps its declaration; its reference is bound to exactly what FindReferencedElement finds and its type to what FindReferencedType then finds; a complex type with a named type fails; an inlined element without a name fails; an inlined element is registered last, prefixed under a parent |
| Compile.ElementResolve | pkg/xsd/element.go:113-125 | succeeds iff the reference, when set, finds an element and the type, when set, then finds a type; binds exactly those results and returns the world of the last lookup; a lookup error is passed on and a missing element fails with "Cannot resolve element reference" |
| Compile.RegisterInlined | pkg/xsd/schema.go:349-359 | fails iff the element has no name; otherwise the prefixed element is appended to the inlined list |
| Compile.SchemaCompile | pkg/xsd/schema.go:82-104 | an empty target namespace becomes the package name; every top-level element is bound; other schemas and the source fields keep their skeleton |
| Compile.CompileTopElements | pkg/xsd/schema.go:88-91 | every top-level element is bound to the schema, and nothing but elements changes in this schema's skeleton |
| Compile.CompileTypeDecls | pkg/xsd/schema.go:92-103 | attribute groups, complex types and simple types are compiled without adding or removing a declaration |
| SchemaLookup.ModuleLookup | pkg/xsd/schema.go:167-172 | none iff no imported module has the key; otherwise a module registered under it |
| SchemaLookup.ModulePut | pkg/xsd/schema.go:331-333 | the key then maps to the module, and every other key keeps its module |
| SchemaLookup.ModulePutUnique | pkg/xsd/schema.go:331-333 | the imported modules keep one entry per key, as a Go map does |
| SchemaLookup.Sanitize | pkg/xsd/schema.go:316 | same length; every '-' and '.' becomes '_' and nothing else changes |
| SchemaLookup.GoPackageName | pkg/xsd/schema.go:308-317 | a non-empty override wins; otherwise the prefix bound to the target namespace, else the file's base name without ".xsd", with '-' and '.' replaced by '_' |
| SchemaLookup.RegisterImportedModule | pkg/xsd/schema.go:331-333 | the module is registered under its package name in this schema only; nothing else changes |
| SchemaLookup.XmlnsByPrefixSound | pkg/xsd/schema.go:158-176 | a uri found for a prefix is declared for that prefix in some schema; the schema's own table wins |
| SchemaLookup.XmlnsInModulesSound | pkg/xsd/schema.go:167-172 | a uri found through the imported modules is declared in some schema |
| SchemaLookup.ReservedPrefixes | pkg/xsd/schema.go:159-163 | "" maps to the own target namespace and "xml" to http://www.w3.org/XML/1998/namespace |
| SchemaLookup.XmlnsByPrefix | pkg/xsd/schema.go:150-156 | fails with "Unknown xmlns prefix" iff the lookup finds nothing |
| SchemaLookup.FirstImportWith | pkg/xsd/schema.go:182-186 | the first direct import with the namespace, or none |
| SchemaLookup.SchemaByXmlnsSound | pkg/xsd/schema.go:178-194 | a schema found for a namespace owns it: its target namespace or a direct import's namespace is that namespace |
| SchemaLookup.SchemaByXmlnsInModulesSound | pkg/xsd/schema.go:187-192 | a schema found through the imported modules owns the namespace |
| SchemaLookup.OwnNamespace | pkg/xsd/schema.go:179-181 | a schema's own target namespace finds that schema |
| SchemaLookup.SchemaByPrefix | pkg/xsd/schema.go:146-148 | fails iff the prefix is unknown; a schema found owns the prefix's namespace |
| SchemaLookup.GetAttribute | pkg/xsd/schema.go:254-261 | the first attribute with that name in this schema, or none when no attribute has it |
| SchemaLookup.GetElement | pkg/xsd/schema.go:263-270 | the first element with that name in this schema, or none when no element has it |
| SchemaLookup.GetType | pkg/xsd/schema.go:272-292 | complex types, then simple types, then attribute groups, then the static catalog; none iff the name is in none of them |
| SchemaLookup.FindReferencedAttribute | pkg/xsd/schema.go:106-112 | succeeds iff the prefix finds a loaded schema, and then returns GetAttribute of the local name in it; a prefix that finds no schema is an internal error |
| SchemaLookup.FindReferencedElement | pkg/xsd/schema.go:114-123 | succeeds iff the prefix finds a loaded schema, and then returns GetElement of the local name in it; a foreign owner is registered as an imported module, an own-schema reference leaves the world unchanged; a prefix that finds no schema is an internal error |
| SchemaLookup.UnownedType | pkg/xsd/schema.go:126-136 | without an owning schema an override wins; otherwise the namespace must be XML Schema's, else it fails |
| SchemaLookup.OwnedType | pkg/xsd/schema.go:140-143 | in an owning schema an override for its namespace wins over GetType |
| SchemaLookup.FindReferencedType | pkg/xsd/schema.go:125-144 | an unknown prefix fails; with an owning schema the result is OwnedType and a foreign owner is registered; without one the result is UnownedType in the unchanged world |
| SchemaLookup.FindOwnedType | pkg/xsd/schema.go:137-143 | the result is OwnedType; a foreign owning schema is registered as an imported module; a reference into the own schema registers nothing |
| SchemaLookup.OwnedTypeIgnoresModules | pkg/xsd/schema.go:137-143 | registering imported modules does not change what a reference into a loaded schema resolves to |
| SchemaLookup.OverrideBeatsDeclaration | pkg/xsd/schema.go:140-142 | an override for the owning schema's namespace is returned instead of a declared type |
| SchemaLookup.SelfReferenceRegistersNothing | pkg/xsd/schema.go:137-139 | a type or element reference into the own schema leaves the world unchanged |
| SchemaLookup.UnownedXsdReference | pkg/xsd/schema.go:126-135 | an unowned XML Schema reference without override succeeds iff its name is in the static catalog, with that built-in type |
| SchemaExport.DeduplicateElementsLossfree | pkg/xsd/schema.go:204-216 | the loop leaves the array equal to Lossfree of its old contents, as written or corrected |
| SchemaExport.LossfreeVisit | pkg/xsd/schema.go:207-213 | one turn renames the element as LossfreeStep says and touches no other slot |
| SchemaExport.LossfreeShape | pkg/xsd/schema.go:204-216 | the length is kept, and each element is either unchanged or renamed "<GoName>-n" with n at least 1 |
| SchemaExport.LossfreeRenumbers | pkg/xsd/schema.go:204-216 | corrected: the k-th repeat of a Go name is renamed "<GoName>-k", and the map counts each name's occurrences |
| SchemaExport.LossfreeDistinctSuffixes | pkg/xsd/schema.go:212-213 | corrected: two repeats of one Go name get different overrides |
| SchemaExport.FirstOccurrenceKept | pkg/xsd/schema.go:207-211 | the first element of each Go name is untouched; a later one gets a numbered override |
| SchemaExport.AsWrittenRepeatsSuffix | pkg/xsd/schema.go:212-213 | as written, the third of three same-named elements gets "-1" again |
| SchemaExport.AsWrittenCollision | pkg/xsd/schema.go:212-213 | as written, three elements "a" become a, A-1, A-1, two fields both named A1 |
| SchemaExport.ExportableElements | pkg/xsd/schema.go:218-220 | the top-level elements then the inlined ones, renamed in the schema's own lists |
| SchemaExport.ExportableElementsRenames | pkg/xsd/schema.go:218-220 | each exported element is its declaration renumbered among all of them with the corrected count: the k-th repeat of a Go name is renamed "<GoName>-k" |
| SchemaExport.UnshadowedMembers | pkg/xsd/schema.go:222-236 | a type is kept iff its Go name is not a top-level element's, in the original order |
| SchemaExport.UnshadowedNothingTaken | pkg/xsd/schema.go:238-252 | with no element names every type is kept |
| SchemaExport.ElementNameCache | pkg/xsd/schema.go:223-226 | the loop collects the Go names of the top-level elements |
| SchemaExport.KeepUnshadowed | pkg/xsd/schema.go:228-235 | the loop computes Unshadowed |
| SchemaExport.ExportableComplexTypes | pkg/xsd/schema.go:222-236 | exactly the complex types whose Go name no top-level element has, in order |
| SchemaExport.ExportableSimpleTypes | pkg/xsd/schema.go:238-252 | exactly the simple types whose Go name no top-level element has, in order |
| SchemaExport.EmptyIffNoDeclarations | pkg/xsd/schema.go:196-198 | a schema is empty iff it has no elements, complex types or simple types |
| SchemaExport.GoImportsNeeded | pkg/xsd/schema.go:319-329 | the imports are sorted and a permutation of encoding/xml (when needed) and one path per imported module |
| SchemaExport.GoImportsNeededContents | pkg/xsd/schema.go:319-329 | one import per imported module plus encoding/xml when the schema has elements or complex types, and nothing else |
| SchemaExport.PrependDeclsLists | pkg/xsd/schema.go:336-342 | each declaration list is the other schema's list followed by this schema's |
| SchemaExport.Merge | pkg/xsd/schema.go:335-346 | as written: the world keeps its size |
| SchemaExport.MergeEffect | pkg/xsd/schema.go:335-346 | as written: declarations are prepended, each of the other schema's modules is registered in itself, and this schema's modules change only where it is one of them |
| SchemaExport.RegisterEachWithItself | pkg/xsd/schema.go:343-345 | the shadowing loop registers each module under its key in that same module |
| SchemaExport.RegisterOnlyModules | pkg/xsd/schema.go:343-345 | the shadowing loop changes only imported modules, and only of the modules it visits |
| SchemaExport.RegisterKeepsOtherKeys | pkg/xsd/schema.go:343-345 | the shadowing loop leaves keys it does not visit alone |
| SchemaExport.MergeShadowingLosesModule | pkg/xsd/schema.go:343-344 | as written, a module only the other schema imports is missing after the merge; the corrected merge has it |
| SchemaExport.MergeInclude | pkg/xsd/schema.go:335-346 | corrected: declarations are prepended and only the imported modules differ from that |
| SchemaExport.MergeIncludeModules | pkg/xsd/workspace.go:85-87 | corrected: a key of the included schema maps to its module, other keys keep theirs, and keys stay unique |
| SchemaExport.IsElementInlined | pkg/xsd/schema.go:361-371 | inlined iff the element equals none of the top-level elements |
| Workspaces.PackageNamesDistinct | pkg/xsd/workspace.go:99-112 | the cached package names are pairwise distinct iff no two cached schemas share a Go package name |
| Workspaces.DuplicatePackageMessage | pkg/xsd/workspace.go:106 | the error text ends with the package name in quotes |
| Workspaces.DuplicateMessageNamesPackage | pkg/xsd/workspace.go:106 | two package names give one error text only when they are equal |
| Workspaces.FirstRepeat | pkg/xsd/workspace.go:100-109 | the loop finds a value iff two keys share it, and the value it reports is held by two keys |
| Workspaces.Workspace.CheckPackageNames | pkg/xsd/workspace.go:99-112 | nil iff the cached schemas' package names are distinct; otherwise a malformed-workspace error naming a package two cached paths share |
| Workspaces.Workspace.constructor | pkg/xsd/workspace.go:17-20 | an empty cache with the modules path and override table |
| Workspaces.NewWorkspace | pkg/xsd/workspace.go:15-32 | a bad override list fails before loading; on success the root path is cached and the error is nil iff package names are distinct |
| Workspaces.Workspace.LoadXsd | pkg/xsd/workspace.go:34-97 | a cached path returns its schema without change; an unreadable one fails; with cache=true the path enters the cache before dependencies load; the new schema carries modules path, file path and package override; existing schemas and cache entries are kept |
| Workspaces.Workspace.LoadParsed | pkg/xsd/workspace.go:60-97 | sets the three fields, caches when asked, then loads dependencies and compiles |
| Workspaces.Workspace.LoadDependencies | pkg/xsd/workspace.go:69-94 | includes, then imports; the schema keeps its source fields |
| Workspaces.Workspace.LoadIncludes | pkg/xsd/workspace.go:71-88 | every include is loaded; the original declarations stay at the end of their lists; an error stops the loop |
| Workspaces.Workspace.IncludeOne | pkg/xsd/workspace.go:72-87 | one include is loaded and merged in front; a missing included schema is a nil dereference |
| Workspaces.Workspace.LocateInclude | pkg/xsd/schema.go:395-401 | an include with a location is loaded with cache=true; one without keeps a nil schema |
| Workspaces.Workspace.LoadImports | pkg/xsd/workspace.go:90-94 | every import with a location is loaded; imports without one are unchanged; the declarations are not touched |
| Workspaces.Workspace.ImportOne | pkg/xsd/schema.go:380-386 | an import with a location is loaded with cache=false and only its schema pointer changes |
| Templates.TemplateKeys | pkg/xsd2go/template.go:93-112 | a base name has a template iff the listing has it with ".incl" or ".elem" |
| Templates.ExpectedTemplates | pkg/xsd2go/template.go:93-112 | one entry per base name with a ".incl" or ".elem" file, named after it, flagged for each suffix present |
| Templates.CutSuffixIff | pkg/xsd2go/template.go:94 | the cut finds k exactly when the name is k followed by the suffix |
| Templates.BuiltIsExpected | pkg/xsd2go/template.go:93-112 | the table built name by name is the expected table, whatever the order of the names |
| Templates.ExpectedStep | pkg/xsd2go/template.go:94-111 | one more file changes the expected table exactly as one turn of the loop does |
| Templates.GetAllTemplates | pkg/xsd2go/template.go:86-115 | a listing error is returned with no table; otherwise the expected table |
| Templates.OtherFilesIgnored | pkg/xsd2go/template.go:93-112 | a file with neither suffix adds no entry |
| Templates.BothSuffixesBothFlags | pkg/xsd2go/template.go:96-110 | a base name with both files gets both flags, whichever comes first |
| Text.IndexOf | pkg/xsd/common.go:13 | -1 iff the character is absent, otherwise its first position |
| Text.LastIndexOf | pkg/xsd/go_type_override.go:20 | -1 iff the character is absent, otherwise its last position |
| Text.Fields | pkg/xsd/go_xmlns_override.go:13-15 | every field is non-empty and free of the separator |
| Text.FieldsAreSplitParts | pkg/xsd/go_xmlns_override.go:13-15 | the fields are exactly the non-empty parts Split gives, in order: the maximal separator-free runs |
| Text.SplitOnce | pkg/xsd/go_type_override.go:14 | the whole string without a separator; otherwise the parts before and after the first one |
| Text.Split | pkg/xsd/annotation.go:32 | at least one part, none containing the separator |
| Text.JoinSplit | pkg/xsd/annotation.go:32 | joining the parts with the separator gives the string back |
| Text.RemoveChar | pkg/xsd/annotation.go:31 | the character no longer occurs, every other character occurs as often as before, and the string does not grow |
| Text.RemoveCharAppend | pkg/xsd/annotation.go:31 | removing from a concatenation concatenates the removals, so the kept characters stay in order |
| Text.ReplaceChar | pkg/xsd/schema.go:316 | same length; each occurrence of one character is replaced by the other |
| Text.CutSuffix | pkg/xsd2go/template.go:94 | found iff the suffix ends the string; then the rest plus the suffix is the string, otherwise the string is unchanged |
| Text.Itoa | pkg/xsd/attribute.go:30 | a non-empty string of decimal digits whose decimal value is the number, without a leading zero from 10 on |
| Text.ItoaInjective | pkg/xsd/attribute.go:30 | distinct counts print differently |
| Text.Atoi | pkg/xsd/element.go:108 | succeeds only on a string of digits after an optional sign; for such a string it succeeds iff the signed value lies in the int64 range, and returns that value; a string starting with another character fails, and so does a lone sign |
| Text.AtoiItoa | pkg/xsd/element.go:108 | Atoi reads back every number Itoa prints within the int64 range |
| Text.SortStrings | pkg/xsd/schema.go:327 | the result is a permutation of the input |
| Text.SortStringsSorted | pkg/xsd/schema.go:327 | the sorted list is in byte order |

## Left out

- Reading, opening and decoding XSD files (`ReadSchemaFromFile`, `parseSchema`, `UnmarshalXML`) are not modelled. `LoadXsd` takes a map from path to parsed schema, and a missing path fails as an unreadable file would.
- Resolving a schemaLocation against the including file's directory (`filepath.Join`, `filepath.Dir`, `filepath.Clean`) is a function parameter.
- Rendering is not part of this model: `GenerateTypes`, `parseTemplate`, the template package and the embedded template file system. `GetAllTemplates` takes the directory listing, or its error, as a parameter.
- `strcase.ToCamel` is modelled for ASCII only, without the acronym table. No proved property depends on its exact output beyond the three facts in `Numbering.AttrGoNameFacts` and the concrete names in `Numbering.IdNames`.
- `strings.EqualFold` and `strings.ToLower` are modelled for ASCII only. `html.UnescapeString` is a parameter.
- Go map iteration order is not modelled. `importedModules` is an association list kept in insertion order. Lookups through it search that order. `Workspace.compile` reports some repeated package name rather than the one Go's map order would report.
- Workspaces.DuplicatePackageMessage: the message ends after the quoted package name. The rest of the source's text lists two target namespaces, which depend on map order.
- Pointer sharing is replaced by handles into the world for the `Schema` pointers and for the bindings of references and types (`refAttr`, `refElm`, `typ`): a binding names a declaration by its schema and position. Declarations themselves are values. A compile method returns the new node, and its caller stores it in the slot it compiled. Where the source writes through a slice that may be a copy (`&ct.Attributes()[idx]`), `Compile.Landed` decides whether the write lands.
- Compile.Landed: a list that `Attributes()` returns and that is not the stored `AttributesDirect` counts as a fresh copy. In Go, `append` at extension.go:19 and 24 and at attributegroup.go:20 may reuse the spare capacity of `AttributesDirect`, and `deduplicateAttributes` (extension.go:57-69) compacts the slice it is given in place. Writes through such a slice can therefore reach the stored list, or reorder it, and the model does not follow them. Conversely, a fresh list equal in value to `AttributesDirect` counts as the stored one: with a direct list `[x]` at full capacity and a base type with an attribute of the same Go name as `x`, the append at extension.go:19 reallocates and `deduplicateAttributes` returns `[x]` in the new array, so Go loses the writes while the model lands them.
- Workspaces.Workspace.IncludeOne: the included schema's declarations are copied into the including schema by value. In Go both schemas share the pointers, and the included schema also stays in the cache (`Include.load` uses cache=true). A later compile of one copy is therefore not seen in the other.
- SchemaExport.MergeInclude: copies the included schema's lists and modules by value, as `IncludeOne` does; the sharing of pointers between the two schemas is not modelled.
- SchemaExport.ExportableElements: the Go names that decide the renaming are read from the world before the loop. This matters only when an element's Go name comes from an element renamed in the same loop.
- SchemaExport.ExportableElements: renames with the corrected count (the last argument of `Lossfree` is false). Three top-level elements "a" are exported as a, A-1 and A-2, where the source as written gives a, A-1 and A-1 (see Findings). `DeduplicateElementsLossfree` and `AsWrittenCollision` model the loop as written.
- SchemaExport.ExportableElementsRenames: states the corrected renaming, for the reason given for `ExportableElements`.
- The recursion through base types, element references, imported modules and nested loads has no bound in the source. The model bounds it by a fuel parameter. `Compile.TypeCompile`, `Workspaces.Workspace.LoadXsd` and the name functions of `Names` answer `OutOfFuel` or "" when the bound is reached. `Workspace` gives `SchemaCompile` one more than the number of type declarations in the world (`TypeDepth`) as fuel. The model does not prove that this bound is enough: a compile re-enters a base type at each level, so the fuel spent depends on the nesting as well as on the chain. A base chain whose nesting needs more fuel than the bound, and a cycle of base types (which recurses forever in Go), both end in `OutOfFuel`.
- Warnings written to stdout and stderr (schema.go:84, workspace.go:39) are not modelled.
- `Workspace` never sets the schema's `typeOverrides` or `TemplateOverrides`. They are plain fields the lookups and compile read.
- The comment at workspace.go:63-64 says included schemas are not cached, but `Include.load` passes cache=true and `Import.load` passes cache=false. The model follows the code.
- An include without schemaLocation leaves `IncludedSchema` nil, and the merge then dereferences it. The model fails with `NilDereference`.
- `Schema.ContainsDocumentation`, `Documentation`, `xsd:any` contents, and `parser.go` (a stale duplicate declaration) are not part of this model.
- Compile.CompileTypeDecls: states only that no declaration is added or removed. The properties of each compiled type are stated by `CtCompile`, `StCompile` and `GroupCompile`.
- Compile.CompileAndNumber: the compile pass numbers attributes with the corrected counter (`NumberedGoNames`), not the loop as written. The same holds for `Compile.CtNumbering`, `Compile.CtChildren`, `Compile.CtCompile`, `Compile.ExtensionCompile`, `Compile.ExtNumbering` and `Compile.GroupCompile`. As written, the counts can clash (first Findings row). A type that is compiled twice also changes: schema.go:96-99 compiles every complex type, and extension.go:101 compiles a base type again, so "id", "Id" go from Id, Id2 to Id, Id (`Numbering.AsWrittenRecompileFlip`). Under the corrected counter the second compile changes nothing (`Numbering.CorrectedRecompileStable`).
- Compile.SchemaCompile: states that every top-level element is bound to the schema, but not what its reference and type are bound to. The elements are written back into the schema during the pass, so the world in which each was bound is not a frozen stage of the pass. The binding of each element is stated by `Compile.ElementCompile`.
- Compile.CompileTopElements: same as `Compile.SchemaCompile`.
- Compile.ChoiceListCompile: states the bindings of each choice's direct elements. The deduplicated list of its nested sequences' elements is stated by `Compile.ChoiceCompile`, not repeated per item.
- Compile.GroupListCompile: states each group's shape and reference binding, not the compiled attributes of a plain group. Those are stated by `GroupCompile`.

## Findings

| source | as written | input that shows it | evidently intended | confidence | as-written member | corrected member |
|---|---|---|---|---|---|---|
| pkg/xsd/types.go:115-126 | the count for an attribute comes from its bare Go name, and the numbered name is recorded but never checked | attributes "id2", "id", "Id": Go names Id2, Id, Id2 | every attribute of one type gets a distinct Go name | not executed | Numbering.AsWrittenCollision | Numbering.NumberedUniqueDistinct |
| pkg/xsd/schema.go:212-213 | the count is bumped under the renamed element's Go name, so the bare name's count stays 1 | three top-level elements "a": A, A-1, A-1 | the k-th repeat is renamed "-k", so repeats of one Go name get distinct overrides (the overrides can still camelize onto another element's name: "A-1" gives A1, as does an element "a1") | not executed | SchemaExport.AsWrittenCollision | SchemaExport.LossfreeDistinctSuffixes |
| pkg/xsd/schema.go:343-344 | the loop variable `sch` shadows the receiver, so each module is registered in itself; `merge` has no caller in the repository, so the defect is latent | an included schema that imports a module the including one does not | the imported modules of the included schema are copied into the including one, as workspace.go:85-87 does | not executed | SchemaExport.MergeShadowingLosesModule | SchemaExport.MergeIncludeModules |
| pkg/xsd/types.go:115-126 | the count of a second compile is looked up under the numbered Go name stored by the first, which no earlier attribute has | attributes "id", "Id" of a complex type that another type extends: schema.go:96-99 compiles it and extension.go:101 compiles it again, Id, Id2 become Id, Id | compiling a type again keeps its field names | not executed | Numbering.AsWrittenRecompileFlip | Numbering.CorrectedRecompileStable |
