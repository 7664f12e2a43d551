/** Resolution of qualified references (schema.go): a prefix to a namespace
    URI, a URI to the schema that owns it, and a local name to the first
    declaration of that name; plus the Go package name of a schema and the
    registry of modules a schema imports from. */
module SchemaLookup {
  import opened Results
  import opened Text
  import opened Common
  import opened Xmlns
  import opened TypeOverrides
  import opened StaticTypes
  import opened Decls

  const XmlNamespace := "http://www.w3.org/XML/1998/namespace"
  const XmlSchemaNamespace := "http://www.w3.org/2001/XMLSchema"

  // ---------------------------------------------------------------------
  // The imported-modules registry: a Go map kept as a list of pairs.

  /** The schema registered under key, if any. */
  function ModuleLookup(mods: seq<(string, SchemaId)>, key: string): (r: Option<SchemaId>)
    ensures r.None? <==> forall i :: 0 <= i < |mods| ==> mods[i].0 != key
    ensures r.Some? ==> exists i :: 0 <= i < |mods| && mods[i] == (key, r.value)
  {
    if mods == [] then None
    else if mods[0].0 == key then Some(mods[0].1)
    else
      var r := ModuleLookup(mods[1..], key);
      assert forall i :: 1 <= i < |mods| ==> mods[i] == mods[1..][i - 1];
      if r.Some? then assert mods[1..][0] == mods[1]; r else r
  }

  /** Whether some pair of the registry has key k. */
  predicate HasKey(mods: seq<(string, SchemaId)>, k: string) {
    exists i :: 0 <= i < |mods| && mods[i].0 == k
  }

  /** Map assignment mods[key] = id: replaces the pair for key, or appends one. */
  function ModulePut(mods: seq<(string, SchemaId)>, key: string, id: SchemaId): (r: seq<(string, SchemaId)>)
    ensures ModuleLookup(r, key) == Some(id)
    ensures forall k :: k != key ==> ModuleLookup(r, k) == ModuleLookup(mods, k)
    ensures forall k :: HasKey(r, k) <==> k == key || HasKey(mods, k)
  {
    if mods == [] then [(key, id)]
    else if mods[0].0 == key then
      var r := [(key, id)] + mods[1..];
      assert r[1..] == mods[1..];
      assert forall i :: 0 <= i < |r| ==> r[i].0 == mods[i].0;
      r
    else
      var rest := ModulePut(mods[1..], key, id);
      assert forall i :: 1 <= i < |mods| ==> mods[i] == mods[1..][i - 1];
      var r := [mods[0]] + rest;
      assert r[1..] == rest;
      HasKeyCons(r);
      HasKeyCons(mods);
      r
  }

  /** A key is in a non-empty registry iff it is the head's or in the tail. */
  lemma HasKeyCons(mods: seq<(string, SchemaId)>)
    requires mods != []
    ensures forall k :: HasKey(mods, k) <==> mods[0].0 == k || HasKey(mods[1..], k)
  {
    forall k | HasKey(mods, k) && mods[0].0 != k ensures HasKey(mods[1..], k) {
      var i :| 0 <= i < |mods| && mods[i].0 == k;
      assert mods[1..][i - 1] == mods[i];
    }
    forall k | HasKey(mods[1..], k) ensures HasKey(mods, k) {
      var i :| 0 <= i < |mods[1..]| && mods[1..][i].0 == k;
      assert mods[i + 1] == mods[1..][i];
    }
  }

  /** At most one pair per key, as in a Go map. */
  predicate UniqueKeys(mods: seq<(string, SchemaId)>) {
    mods == [] || (!HasKey(mods[1..], mods[0].0) && UniqueKeys(mods[1..]))
  }

  /** Registering keeps the registry a map: at most one pair per key. */
  lemma {:induction false} ModulePutUnique(mods: seq<(string, SchemaId)>, key: string, id: SchemaId)
    requires UniqueKeys(mods)
    ensures UniqueKeys(ModulePut(mods, key, id))
  {
    if mods == [] {
    } else if mods[0].0 == key {
      assert ModulePut(mods, key, id)[1..] == mods[1..];
    } else {
      ModulePutUnique(mods[1..], key, id);
      assert ModulePut(mods, key, id)[1..] == ModulePut(mods[1..], key, id);
    }
  }

  // ---------------------------------------------------------------------
  // Go package name.

  /** Replaces the characters Go package names cannot hold. */
  function Sanitize(s: string): (r: string)
    ensures |r| == |s| && '-' !in r && '.' !in r
    ensures forall i :: 0 <= i < |s| ==> r[i] == if s[i] == '-' || s[i] == '.' then '_' else s[i]
  {
    ReplaceChar(ReplaceChar(s, '-', '_'), '.', '_')
  }

  /** Schema.GoPackageName: a configured override wins as given; otherwise
      the prefix the schema binds to its own target namespace, falling back
      to the file name without ".xsd"; '-' and '.' then become '_'. */
  function GoPackageName(s: Schema): (name: string)
    ensures s.goPackageNameOverride != "" ==> name == s.goPackageNameOverride
    ensures s.goPackageNameOverride == "" ==> '-' !in name && '.' !in name
    ensures s.goPackageNameOverride == "" && PrefixByUri(s.xmlns, s.targetNamespace) != "" ==>
              name == Sanitize(PrefixByUri(s.xmlns, s.targetNamespace))
    ensures s.goPackageNameOverride == "" && PrefixByUri(s.xmlns, s.targetNamespace) == "" ==>
              name == Sanitize(TrimSuffix(BaseName(s.filePath), ".xsd"))
  {
    if s.goPackageNameOverride != "" then s.goPackageNameOverride
    else
      var prefix := PrefixByUri(s.xmlns, s.targetNamespace);
      var prefix' := if prefix == "" then TrimSuffix(BaseName(s.filePath), ".xsd") else prefix;
      Sanitize(prefix')
  }

  /** registerImportedModule: records the module under its Go package name in
      the schema's registry; nothing else in the world changes. */
  function RegisterImportedModule(w: World, sch: SchemaId, imported: SchemaId): (w': World)
    requires sch < |w| && imported < |w|
    ensures |w'| == |w|
    ensures forall i :: 0 <= i < |w| && i != sch ==> w'[i] == w[i]
    ensures w'[sch] == w[sch].(importedModules := w'[sch].importedModules)
    ensures ModuleLookup(w'[sch].importedModules, GoPackageName(w[imported])) == Some(imported)
    ensures forall k :: k != GoPackageName(w[imported]) ==>
              ModuleLookup(w'[sch].importedModules, k) == ModuleLookup(w[sch].importedModules, k)
  {
    w[sch := w[sch].(importedModules := ModulePut(w[sch].importedModules, GoPackageName(w[imported]), imported))]
  }

  // ---------------------------------------------------------------------
  // Prefix to namespace URI.

  /** xmlnsByPrefixInternal: "" is the schema's own target namespace and
      "xml" the reserved XML namespace; any other prefix is looked up in the
      schema's own table, then in its imported modules in registry order.
      The search through imported modules is bounded by fuel because the
      import graph may have cycles. */
  function XmlnsByPrefixInternal(w: World, sch: SchemaId, prefix: string, fuel: nat): string
    decreases fuel, 0
  {
    if sch >= |w| then ""
    else if prefix == "" then w[sch].targetNamespace
    else if prefix == "xml" then XmlNamespace
    else
      var uri := UriByPrefix(w[sch].xmlns, prefix);
      if uri != "" then uri
      else if fuel == 0 then ""
      else XmlnsInModules(w, w[sch].importedModules, prefix, fuel - 1)
  }

  /** The loop over imported modules: the first non-empty answer. */
  function XmlnsInModules(w: World, mods: seq<(string, SchemaId)>, prefix: string, fuel: nat): string
    decreases fuel, 1, |mods|
  {
    if mods == [] then ""
    else
      var uri := XmlnsByPrefixInternal(w, mods[0].1, prefix, fuel);
      if uri != "" then uri else XmlnsInModules(w, mods[1..], prefix, fuel)
  }

  /** Whether some schema of the world binds prefix to uri in its own table. */
  predicate DeclaredSomewhere(w: World, prefix: string, uri: string) {
    exists i :: 0 <= i < |w| && UriByPrefix(w[i].xmlns, prefix) == uri
  }

  /** A prefix other than "" and "xml" resolves only to a URI that some schema
      of the world declares for it, whatever the order of the registry; and
      the schema's own declaration wins over its imported modules'. */
  lemma {:induction false} XmlnsByPrefixSound(w: World, sch: SchemaId, prefix: string, fuel: nat)
    requires prefix != "" && prefix != "xml"
    ensures var uri := XmlnsByPrefixInternal(w, sch, prefix, fuel);
            uri != "" ==> DeclaredSomewhere(w, prefix, uri)
    ensures sch < |w| && UriByPrefix(w[sch].xmlns, prefix) != "" ==>
              XmlnsByPrefixInternal(w, sch, prefix, fuel) == UriByPrefix(w[sch].xmlns, prefix)
    decreases fuel, 0
  {
    if sch < |w| && UriByPrefix(w[sch].xmlns, prefix) == "" && fuel > 0 {
      XmlnsInModulesSound(w, w[sch].importedModules, prefix, fuel - 1);
    }
  }

  lemma {:induction false} XmlnsInModulesSound(w: World, mods: seq<(string, SchemaId)>, prefix: string, fuel: nat)
    requires prefix != "" && prefix != "xml"
    ensures var uri := XmlnsInModules(w, mods, prefix, fuel);
            uri != "" ==> DeclaredSomewhere(w, prefix, uri)
    decreases fuel, 1, |mods|
  {
    if mods != [] {
      XmlnsByPrefixSound(w, mods[0].1, prefix, fuel);
      XmlnsInModulesSound(w, mods[1..], prefix, fuel);
    }
  }

  /** The two reserved prefixes never consult any table. */
  lemma ReservedPrefixes(w: World, sch: SchemaId, fuel: nat)
    requires sch < |w|
    ensures XmlnsByPrefixInternal(w, sch, "", fuel) == w[sch].targetNamespace
    ensures XmlnsByPrefixInternal(w, sch, "xml", fuel) == "http://www.w3.org/XML/1998/namespace"
  {
  }

  /** xmlnsByPrefix: an unknown prefix is an internal error. */
  function XmlnsByPrefix(w: World, sch: SchemaId, prefix: string): (r: Result<string>)
    ensures r.Ok? ==> r.value != "" && r.value == XmlnsByPrefixInternal(w, sch, prefix, |w|)
    ensures r.Fail? <==> XmlnsByPrefixInternal(w, sch, prefix, |w|) == ""
  {
    var uri := XmlnsByPrefixInternal(w, sch, prefix, |w|);
    if uri == "" then Fail(InternalError("Unknown xmlns prefix: " + prefix)) else Ok(uri)
  }

  // ---------------------------------------------------------------------
  // Namespace URI to owning schema.

  /** The first import of the list whose namespace attribute is xmlns. */
  function FirstImportWith(imports: seq<Import>, xmlns: string): (r: Option<nat>)
    ensures r.None? <==> forall k :: 0 <= k < |imports| ==> imports[k].namespace != xmlns
    ensures r.Some? ==> r.value < |imports| && imports[r.value].namespace == xmlns &&
                        forall k :: 0 <= k < r.value ==> imports[k].namespace != xmlns
  {
    if imports == [] then None
    else if imports[0].namespace == xmlns then Some(0)
    else
      var k := FirstImportWith(imports[1..], xmlns);
      assert forall i :: 1 <= i < |imports| ==> imports[i] == imports[1..][i - 1];
      if k.None? then None else Some(k.value + 1)
  }

  /** findReferencedSchemaByXmlns: the schema itself when its target namespace
      matches; else the schema loaded for the first import declaring that
      namespace (none when that import was never loaded, without looking
      further); else the first hit among the imported modules. */
  function SchemaByXmlns(w: World, sch: SchemaId, xmlns: string, fuel: nat): Option<SchemaId>
    decreases fuel, 0
  {
    if sch >= |w| then None
    else if w[sch].targetNamespace == xmlns then Some(sch)
    else
      var k := FirstImportWith(w[sch].imports, xmlns);
      if k.Some? then w[sch].imports[k.value].importedSchema
      else if fuel == 0 then None
      else SchemaByXmlnsInModules(w, w[sch].importedModules, xmlns, fuel - 1)
  }

  function SchemaByXmlnsInModules(w: World, mods: seq<(string, SchemaId)>, xmlns: string, fuel: nat): Option<SchemaId>
    decreases fuel, 1, |mods|
  {
    if mods == [] then None
    else
      var s := SchemaByXmlns(w, mods[0].1, xmlns, fuel);
      if s.Some? then s else SchemaByXmlnsInModules(w, mods[1..], xmlns, fuel)
  }

  /** Whether id may stand for namespace xmlns: its target namespace is xmlns,
      or some loaded import that declares xmlns points at it. */
  predicate OwnsNamespace(w: World, xmlns: string, id: SchemaId) {
    (id < |w| && w[id].targetNamespace == xmlns) ||
    exists s, k :: 0 <= s < |w| && 0 <= k < |w[s].imports| &&
                   w[s].imports[k].namespace == xmlns && w[s].imports[k].importedSchema == Some(id)
  }

  /** Whatever the registry order, a schema found for a namespace owns it. */
  lemma {:induction false} SchemaByXmlnsSound(w: World, sch: SchemaId, xmlns: string, fuel: nat)
    ensures var r := SchemaByXmlns(w, sch, xmlns, fuel);
            r.Some? ==> OwnsNamespace(w, xmlns, r.value)
    decreases fuel, 0
  {
    if sch < |w| && w[sch].targetNamespace != xmlns {
      var k := FirstImportWith(w[sch].imports, xmlns);
      if k.Some? {
        var r := SchemaByXmlns(w, sch, xmlns, fuel);
        if r.Some? {
          assert w[sch].imports[k.value].namespace == xmlns && w[sch].imports[k.value].importedSchema == Some(r.value);
        }
      } else if fuel > 0 {
        SchemaByXmlnsInModulesSound(w, w[sch].importedModules, xmlns, fuel - 1);
      }
    }
  }

  lemma {:induction false} SchemaByXmlnsInModulesSound(w: World, mods: seq<(string, SchemaId)>, xmlns: string, fuel: nat)
    ensures var r := SchemaByXmlnsInModules(w, mods, xmlns, fuel);
            r.Some? ==> OwnsNamespace(w, xmlns, r.value)
    decreases fuel, 1, |mods|
  {
    if mods != [] {
      SchemaByXmlnsSound(w, mods[0].1, xmlns, fuel);
      SchemaByXmlnsInModulesSound(w, mods[1..], xmlns, fuel);
    }
  }

  /** A schema whose own target namespace is asked for is its own owner. */
  lemma OwnNamespace(w: World, sch: SchemaId, fuel: nat)
    requires sch < |w|
    ensures SchemaByXmlns(w, sch, w[sch].targetNamespace, fuel) == Some(sch)
  {
  }

  /** findReferencedSchemaByPrefix: resolve the prefix, then its owner. */
  function SchemaByPrefix(w: World, sch: SchemaId, prefix: string): (r: Result<Option<SchemaId>>)
    ensures r.Fail? <==> XmlnsByPrefix(w, sch, prefix).Fail?
    ensures r.Ok? && r.value.Some? ==> OwnsNamespace(w, XmlnsByPrefix(w, sch, prefix).value, r.value.value)
  {
    var uri :- XmlnsByPrefix(w, sch, prefix);
    SchemaByXmlnsSound(w, sch, uri, |w|);
    Ok(SchemaByXmlns(w, sch, uri, |w|))
  }

  // ---------------------------------------------------------------------
  // Symbol tables: first declaration of a name.

  function FirstAttributeNamed(attrs: seq<Attribute>, name: string): (r: Option<nat>)
    ensures r.None? <==> forall i :: 0 <= i < |attrs| ==> attrs[i].name != name
    ensures r.Some? ==> r.value < |attrs| && attrs[r.value].name == name &&
                        forall i :: 0 <= i < r.value ==> attrs[i].name != name
  {
    if attrs == [] then None
    else if attrs[0].name == name then Some(0)
    else
      var k := FirstAttributeNamed(attrs[1..], name);
      assert forall i :: 1 <= i < |attrs| ==> attrs[i] == attrs[1..][i - 1];
      if k.None? then None else Some(k.value + 1)
  }

  function FirstElementNamed(elems: seq<Element>, name: string): (r: Option<nat>)
    ensures r.None? <==> forall i :: 0 <= i < |elems| ==> elems[i].name != name
    ensures r.Some? ==> r.value < |elems| && elems[r.value].name == name &&
                        forall i :: 0 <= i < r.value ==> elems[i].name != name
  {
    if elems == [] then None
    else if elems[0].name == name then Some(0)
    else
      var k := FirstElementNamed(elems[1..], name);
      assert forall i :: 1 <= i < |elems| ==> elems[i] == elems[1..][i - 1];
      if k.None? then None else Some(k.value + 1)
  }

  function FirstComplexTypeNamed(ts: seq<ComplexType>, name: string): (r: Option<nat>)
    ensures r.None? <==> forall i :: 0 <= i < |ts| ==> ts[i].name != name
    ensures r.Some? ==> r.value < |ts| && ts[r.value].name == name &&
                        forall i :: 0 <= i < r.value ==> ts[i].name != name
  {
    if ts == [] then None
    else if ts[0].name == name then Some(0)
    else
      var k := FirstComplexTypeNamed(ts[1..], name);
      assert forall i :: 1 <= i < |ts| ==> ts[i] == ts[1..][i - 1];
      if k.None? then None else Some(k.value + 1)
  }

  function FirstSimpleTypeNamed(ts: seq<SimpleType>, name: string): (r: Option<nat>)
    ensures r.None? <==> forall i :: 0 <= i < |ts| ==> ts[i].name != name
    ensures r.Some? ==> r.value < |ts| && ts[r.value].name == name &&
                        forall i :: 0 <= i < r.value ==> ts[i].name != name
  {
    if ts == [] then None
    else if ts[0].name == name then Some(0)
    else
      var k := FirstSimpleTypeNamed(ts[1..], name);
      assert forall i :: 1 <= i < |ts| ==> ts[i] == ts[1..][i - 1];
      if k.None? then None else Some(k.value + 1)
  }

  function FirstGroupNamed(gs: seq<AttributeGroup>, name: string): (r: Option<nat>)
    ensures r.None? <==> forall i :: 0 <= i < |gs| ==> gs[i].name != name
    ensures r.Some? ==> r.value < |gs| && gs[r.value].name == name &&
                        forall i :: 0 <= i < r.value ==> gs[i].name != name
  {
    if gs == [] then None
    else if gs[0].name == name then Some(0)
    else
      var k := FirstGroupNamed(gs[1..], name);
      assert forall i :: 1 <= i < |gs| ==> gs[i] == gs[1..][i - 1];
      if k.None? then None else Some(k.value + 1)
  }

  /** Schema.GetAttribute: the first top-level attribute with that name. */
  function GetAttribute(w: World, sch: SchemaId, name: string): (r: Option<DeclRef>)
    requires sch < |w|
    ensures r.None? <==> forall i :: 0 <= i < |w[sch].attributes| ==> w[sch].attributes[i].name != name
    ensures r.Some? ==> r.value.schema == sch && AttributeAt(w, r.value).Some? &&
                        AttributeAt(w, r.value).value.name == name &&
                        forall i :: 0 <= i < r.value.index ==> w[sch].attributes[i].name != name
  {
    var k := FirstAttributeNamed(w[sch].attributes, name);
    if k.Some? then Some(DeclRef(sch, k.value)) else None
  }

  /** Schema.GetElement: the first top-level element with that name. */
  function GetElement(w: World, sch: SchemaId, name: string): (r: Option<DeclRef>)
    requires sch < |w|
    ensures r.None? <==> forall i :: 0 <= i < |w[sch].elements| ==> w[sch].elements[i].name != name
    ensures r.Some? ==> r.value.schema == sch && ElementAt(w, r.value).Some? &&
                        ElementAt(w, r.value).value.name == name &&
                        forall i :: 0 <= i < r.value.index ==> w[sch].elements[i].name != name
  {
    var k := FirstElementNamed(w[sch].elements, name);
    if k.Some? then Some(DeclRef(sch, k.value)) else None
  }

  /** Schema.GetType: complex types first, then simple types, then attribute
      groups, then the static catalog. */
  function GetType(w: World, sch: SchemaId, name: string): (r: Option<TypeRef>)
    requires sch < |w|
    ensures r.Some? ==> TypeAt(w, r.value).Some?
    ensures FirstComplexTypeNamed(w[sch].complexTypes, name).Some? ==>
              r == Some(ComplexRef(sch, FirstComplexTypeNamed(w[sch].complexTypes, name).value))
    ensures r.Some? && r.value.SimpleRef? ==>
              (forall i :: 0 <= i < |w[sch].complexTypes| ==> w[sch].complexTypes[i].name != name) &&
              r.value.schema == sch && w[sch].simpleTypes[r.value.index].name == name
    ensures r.Some? && r.value.GroupRef? ==>
              (forall i :: 0 <= i < |w[sch].complexTypes| ==> w[sch].complexTypes[i].name != name) &&
              (forall i :: 0 <= i < |w[sch].simpleTypes| ==> w[sch].simpleTypes[i].name != name) &&
              r.value.schema == sch && w[sch].attributeGroups[r.value.index].name == name
    ensures r.Some? && r.value.Static? ==> IsStaticType(name) && r.value.goName == StaticTypeCatalog[name]
    ensures r.None? <==>
              (forall i :: 0 <= i < |w[sch].complexTypes| ==> w[sch].complexTypes[i].name != name) &&
              (forall i :: 0 <= i < |w[sch].simpleTypes| ==> w[sch].simpleTypes[i].name != name) &&
              (forall i :: 0 <= i < |w[sch].attributeGroups| ==> w[sch].attributeGroups[i].name != name) &&
              !IsStaticType(name)
  {
    var c := FirstComplexTypeNamed(w[sch].complexTypes, name);
    if c.Some? then Some(ComplexRef(sch, c.value))
    else
      var s := FirstSimpleTypeNamed(w[sch].simpleTypes, name);
      if s.Some? then Some(SimpleRef(sch, s.value))
      else
        var g := FirstGroupNamed(w[sch].attributeGroups, name);
        if g.Some? then Some(GroupRef(sch, g.value))
        else if IsStaticType(name) then Some(Static(StaticTypeCatalog[name]))
        else None
  }

  // ---------------------------------------------------------------------
  // findReferenced*.

  /** findReferencedAttribute: an unresolvable prefix or a prefix whose
      namespace has no loaded schema is an internal error; otherwise the
      first attribute of that name in the owner, if any. */
  function FindReferencedAttribute(w: World, sch: SchemaId, ref: string): (r: Result<Option<DeclRef>>)
    ensures var owner := SchemaByPrefix(w, sch, NsPrefix(ref));
            r.Ok? <==> owner.Ok? && owner.value.Some? && owner.value.value < |w|
    ensures var owner := SchemaByPrefix(w, sch, NsPrefix(ref));
            r.Ok? ==> r.value == GetAttribute(w, owner.value.value, LocalName(ref))
    ensures SchemaByPrefix(w, sch, NsPrefix(ref)) == Ok(None) ==> r.Fail? && r.error.InternalError?
  {
    var inner :- SchemaByPrefix(w, sch, NsPrefix(ref));
    if inner.None? || inner.value >= |w| then Fail(InternalError("referenced attribute '" + ref + "' cannot be found."))
    else Ok(GetAttribute(w, inner.value, LocalName(ref)))
  }

  /** findReferencedElement: as for attributes; a schema other than the
      referring one is registered as an imported module. */
  function FindReferencedElement(w: World, sch: SchemaId, ref: string): (r: Result<(World, Option<DeclRef>)>)
    requires sch < |w|
    ensures var owner := SchemaByPrefix(w, sch, NsPrefix(ref));
            r.Ok? <==> owner.Ok? && owner.value.Some? && owner.value.value < |w|
    ensures SchemaByPrefix(w, sch, NsPrefix(ref)) == Ok(None) ==> r.Fail? && r.error.InternalError?
    ensures r.Ok? ==> |r.value.0| == |w| && forall i :: 0 <= i < |w| && i != sch ==> r.value.0[i] == w[i]
    ensures r.Ok? ==> r.value.0[sch] == w[sch].(importedModules := r.value.0[sch].importedModules)
    ensures var owner := SchemaByPrefix(w, sch, NsPrefix(ref));
            r.Ok? ==> r.value.1 == GetElement(w, owner.value.value, LocalName(ref))
    ensures var owner := SchemaByPrefix(w, sch, NsPrefix(ref));
            r.Ok? && owner.value.value != sch ==>
              ModuleLookup(r.value.0[sch].importedModules, GoPackageName(w[owner.value.value])) == owner.value
    ensures var owner := SchemaByPrefix(w, sch, NsPrefix(ref));
            r.Ok? && owner.value.value == sch ==> r.value.0 == w
    ensures r.Ok? && r.value.1.Some? ==>
              ElementAt(r.value.0, r.value.1.value).Some? && ElementAt(r.value.0, r.value.1.value).value.name == LocalName(ref)
  {
    var inner :- SchemaByPrefix(w, sch, NsPrefix(ref));
    if inner.None? || inner.value >= |w| then Fail(InternalError("referenced element '" + ref + "' cannot be found."))
    else
      var w' := if inner.value != sch then RegisterImportedModule(w, sch, inner.value) else w;
      assert w'[inner.value].elements == w[inner.value].elements;
      Ok((w', GetElement(w', inner.value, LocalName(ref))))
  }

  /** A type reference whose namespace has no loaded schema: a type override
      for the namespace the prefix stands for, else a built-in type when that
      namespace is XML Schema's, else an internal error. */
  function UnownedType(w: World, sch: SchemaId, ref: string): (r: Result<Option<TypeRef>>)
    requires sch < |w|
    ensures r.Ok? ==> r.value.Some? && r.value.value.Static?
    ensures OverrideType(w[sch].typeOverrides, UriByPrefix(w[sch].xmlns, NsPrefix(ref)), LocalName(ref)).1 ==>
              r == Ok(Some(Static(OverrideType(w[sch].typeOverrides, UriByPrefix(w[sch].xmlns, NsPrefix(ref)), LocalName(ref)).0)))
    ensures (UriByPrefix(w[sch].xmlns, NsPrefix(ref)) != XmlSchemaNamespace &&
             UriByPrefix(w[sch].xmlns, NsPrefix(ref)) !in w[sch].typeOverrides) ==> r.Fail?
  {
    var xmlnsUri := UriByPrefix(w[sch].xmlns, NsPrefix(ref));
    var (typeName, overridden) := OverrideType(w[sch].typeOverrides, xmlnsUri, LocalName(ref));
    if overridden then Ok(Some(Static(typeName)))
    else if xmlnsUri == XmlSchemaNamespace then
      var goName :- StaticType(LocalName(ref));
      Ok(Some(Static(goName)))
    else Fail(InternalError("referenced type '" + ref + "' cannot be found."))
  }

  /** A type reference into a loaded schema: an override for that schema's
      target namespace wins, else the schema's own declaration, if any. */
  function OwnedType(w: World, sch: SchemaId, inner: SchemaId, ref: string): (t: Option<TypeRef>)
    requires sch < |w| && inner < |w|
    ensures t.Some? ==> TypeAt(w, t.value).Some?
    ensures w[inner].targetNamespace in w[sch].typeOverrides ==>
              t == Some(Static(OverrideType(w[sch].typeOverrides, w[inner].targetNamespace, LocalName(ref)).0))
    ensures w[inner].targetNamespace !in w[sch].typeOverrides ==> t == GetType(w, inner, LocalName(ref))
  {
    var (typeName, overridden) := OverrideType(w[sch].typeOverrides, w[inner].targetNamespace, LocalName(ref));
    if overridden then Some(Static(typeName)) else GetType(w, inner, LocalName(ref))
  }

  /** findReferencedType: an owner other than the referring schema is
      registered as an imported module before its declarations are read. */
  function FindReferencedType(w: World, sch: SchemaId, ref: string): (r: Result<(World, Option<TypeRef>)>)
    requires sch < |w|
    ensures r.Ok? ==> |r.value.0| == |w| && forall i :: 0 <= i < |w| && i != sch ==> r.value.0[i] == w[i]
    ensures r.Ok? ==> r.value.0[sch] == w[sch].(importedModules := r.value.0[sch].importedModules)
    ensures r.Ok? && r.value.1.Some? ==> TypeAt(r.value.0, r.value.1.value).Some?
    ensures SchemaByPrefix(w, sch, NsPrefix(ref)).Fail? ==> r.Fail?
    ensures var owner := SchemaByPrefix(w, sch, NsPrefix(ref));
            owner.Ok? && owner.value.Some? && owner.value.value < |w| ==>
              r.Ok? && r.value.1 == OwnedType(w, sch, owner.value.value, ref) &&
              (owner.value.value != sch ==>
                 ModuleLookup(r.value.0[sch].importedModules, GoPackageName(w[owner.value.value])) == owner.value) &&
              (owner.value.value == sch ==> r.value.0 == w)
    ensures SchemaByPrefix(w, sch, NsPrefix(ref)) == Ok(None) ==>
              (r.Ok? <==> UnownedType(w, sch, ref).Ok?) &&
              (r.Ok? ==> r.value == (w, UnownedType(w, sch, ref).value))
  {
    var inner :- SchemaByPrefix(w, sch, NsPrefix(ref));
    if inner.None? || inner.value >= |w| then
      var t :- UnownedType(w, sch, ref);
      Ok((w, t))
    else
      Ok(FindOwnedType(w, sch, inner.value, ref))
  }

  /** findReferencedType once the owner is a loaded schema. */
  function FindOwnedType(w: World, sch: SchemaId, inner: SchemaId, ref: string): (r: (World, Option<TypeRef>))
    requires sch < |w| && inner < |w|
    ensures |r.0| == |w| && forall i :: 0 <= i < |w| && i != sch ==> r.0[i] == w[i]
    ensures r.0[sch] == w[sch].(importedModules := r.0[sch].importedModules)
    ensures r.1.Some? ==> TypeAt(r.0, r.1.value).Some?
    ensures r.1 == OwnedType(w, sch, inner, ref)
    ensures inner != sch ==> ModuleLookup(r.0[sch].importedModules, GoPackageName(w[inner])) == Some(inner)
    ensures inner == sch ==> r.0 == w
  {
    var w' := if inner != sch then RegisterImportedModule(w, sch, inner) else w;
    assert w'[inner] == w[inner].(importedModules := w'[inner].importedModules);
    assert w'[sch].typeOverrides == w[sch].typeOverrides;
    OwnedTypeIgnoresModules(w, w', sch, inner, ref);
    (w', OwnedType(w', sch, inner, ref))
  }

  /** Registering imported modules does not change what a reference into a
      loaded schema resolves to. */
  lemma OwnedTypeIgnoresModules(w: World, w': World, sch: SchemaId, inner: SchemaId, ref: string)
    requires sch < |w| && inner < |w| && |w'| == |w|
    requires w'[sch] == w[sch].(importedModules := w'[sch].importedModules)
    requires w'[inner] == w[inner].(importedModules := w'[inner].importedModules)
    ensures OwnedType(w', sch, inner, ref) == OwnedType(w, sch, inner, ref)
  {
    var name := LocalName(ref);
    assert FirstComplexTypeNamed(w'[inner].complexTypes, name) == FirstComplexTypeNamed(w[inner].complexTypes, name);
    assert FirstSimpleTypeNamed(w'[inner].simpleTypes, name) == FirstSimpleTypeNamed(w[inner].simpleTypes, name);
    assert FirstGroupNamed(w'[inner].attributeGroups, name) == FirstGroupNamed(w[inner].attributeGroups, name);
  }

  /** A type override for the owner's namespace wins over the owner's own
      declarations, even for a type name the override table does not list. */
  lemma OverrideBeatsDeclaration(w: World, sch: SchemaId, ref: string)
    requires sch < |w|
    requires SchemaByPrefix(w, sch, NsPrefix(ref)).Ok?
    requires var inner := SchemaByPrefix(w, sch, NsPrefix(ref)).value;
             inner.Some? && inner.value < |w| && w[inner.value].targetNamespace in w[sch].typeOverrides
    ensures var inner := SchemaByPrefix(w, sch, NsPrefix(ref)).value.value;
            FindReferencedType(w, sch, ref).Ok? &&
            FindReferencedType(w, sch, ref).value.1 ==
              Some(Static(OverrideType(w[sch].typeOverrides, w[inner].targetNamespace, LocalName(ref)).0))
  {
  }

  /** The referring schema registers a module only when the owner is another
      schema: resolving a reference to one's own declarations leaves the
      world unchanged. */
  lemma SelfReferenceRegistersNothing(w: World, sch: SchemaId, ref: string)
    requires sch < |w|
    requires SchemaByPrefix(w, sch, NsPrefix(ref)) == Ok(Some(sch))
    ensures FindReferencedType(w, sch, ref).Ok? && FindReferencedType(w, sch, ref).value.0 == w
    ensures FindReferencedElement(w, sch, ref).Ok? && FindReferencedElement(w, sch, ref).value.0 == w
  {
  }

  /** A reference with no owning schema and no override, whose prefix is bound
      to the XML Schema namespace, is a built-in type or a failure. */
  lemma UnownedXsdReference(w: World, sch: SchemaId, ref: string)
    requires sch < |w|
    requires SchemaByPrefix(w, sch, NsPrefix(ref)) == Ok(None)
    requires UriByPrefix(w[sch].xmlns, NsPrefix(ref)) == XmlSchemaNamespace
    requires XmlSchemaNamespace !in w[sch].typeOverrides
    ensures FindReferencedType(w, sch, ref).Ok? <==> IsStaticType(LocalName(ref))
    ensures FindReferencedType(w, sch, ref).Ok? ==>
              FindReferencedType(w, sch, ref).value == (w, Some(Static(StaticTypeCatalog[LocalName(ref)])))
  {
  }
}
