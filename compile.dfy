/** The compile pass (schema.go, element.go, types.go, sequence.go,
    choice.go, content.go, extension.go, restriction.go, attributegroup.go,
    any.go): every declaration is bound to its schema and to the
    declarations and types it references, child element lists are
    flattened, attribute names are numbered apart, and unsupported
    combinations stop the pass.

    Each compile method takes the world and the node it compiles and returns
    the new world and the new node, or the error the source panics with.
    A top-level type reached through a handle is read from the world,
    compiled, and written back. The chain of base types followed through
    handles is bounded by `fuel`; the source recurses without bound there,
    and the model answers OutOfFuel instead. */
module Compile {
  import opened Results
  import opened Text
  import opened Common
  import opened Decls
  import opened Names
  import opened SchemaLookup
  import opened Types
  import opened Elements
  import opened Numbering
  import opened Deduplication
  import Attr = Attributes

  // ---------------------------------------------------------------------
  // What compile never changes
  // ---------------------------------------------------------------------

  /** Compile changes declarations in place, the inlined-element list (which
      only grows), the imported modules and the template-override flags; it
      never adds or removes a declaration and never touches what a schema's
      package name or namespace lookups are computed from. */
  predicate Stable(s: Schema, t: Schema) {
    Skeleton(t) == Skeleton(s) &&
    |t.attributeGroups| == |s.attributeGroups| && |t.complexTypes| == |s.complexTypes| &&
    |t.simpleTypes| == |s.simpleTypes| &&
    s.inlinedElements <= t.inlinedElements
  }

  /** A schema without the parts compile updates. */
  function Skeleton(s: Schema): Schema {
    s.(attributeGroups := [], complexTypes := [], simpleTypes := [], importedModules := [],
       inlinedElements := [], templateOverrides := Skeletons(s.templateOverrides))
  }

  /** Template overrides with the used flag cleared: what compile keeps. */
  function Skeletons(m: map<string, Override>): (r: map<string, Override>)
    ensures r.Keys == m.Keys
  {
    map k | k in m :: m[k].(templateUsed := false)
  }

  /** The fields loadXsd sets or reads before compile, which compile keeps. */
  predicate SameSource(s: Schema, t: Schema) {
    t.modulesPath == s.modulesPath && t.filePath == s.filePath &&
    t.goPackageNameOverride == s.goPackageNameOverride &&
    t.includes == s.includes && t.imports == s.imports && t.xmlns == s.xmlns
  }

  predicate Frozen(w: World, w': World) {
    |w'| == |w| && forall i :: 0 <= i < |w| ==> Stable(w[i], w'[i])
  }

  lemma FrozenTrans(a: World, b: World, c: World)
    requires Frozen(a, b) && Frozen(b, c)
    ensures Frozen(a, c)
  {
    forall i | 0 <= i < |a| ensures Stable(a[i], c[i]) {
      assert a[i].inlinedElements <= b[i].inlinedElements <= c[i].inlinedElements;
    }
  }

  /** A frozen world still resolves every handle the old one resolved, and
      every schema keeps its Go package name. */
  lemma FrozenKeepsHandles(w: World, w': World, t: TypeRef)
    requires Frozen(w, w')
    ensures TypeAt(w, t).Some? ==> TypeAt(w', t).Some?
    ensures forall i :: 0 <= i < |w| ==> GoPackageName(w'[i]) == GoPackageName(w[i])
  {
  }

  /** A frozen world still resolves every declaration handle, to the same
      declaration. */
  lemma FrozenKeepsDecls(w: World, w': World, d: DeclRef)
    requires Frozen(w, w')
    ensures ElementAt(w, d).Some? ==> ElementAt(w', d) == ElementAt(w, d)
    ensures AttributeAt(w, d).Some? ==> AttributeAt(w', d) == AttributeAt(w, d)
  {
    if d.schema < |w| {
      assert Stable(w[d.schema], w'[d.schema]);
      assert Skeleton(w'[d.schema]).elements == Skeleton(w[d.schema]).elements;
      assert Skeleton(w'[d.schema]).attributes == Skeleton(w[d.schema]).attributes;
    }
  }

  lemma ModulesOnlyFrozen(w: World, w': World, sch: SchemaId)
    requires Attr.ModulesOnly(w, w', sch)
    ensures Frozen(w, w')
  {
    forall i | 0 <= i < |w| ensures Stable(w[i], w'[i]) {
      if i == sch {
        assert w'[i] == w[i].(importedModules := w'[i].importedModules);
      }
    }
  }

  lemma FrozenRefl(w: World)
    ensures Frozen(w, w)
  {
    forall i | 0 <= i < |w| ensures Stable(w[i], w[i]) {
    }
  }

  // ---------------------------------------------------------------------
  // What a compiled node was bound to. A pass resolves each reference in
  // the world of its turn: earlier steps of the pass may have registered
  // imported modules, and a registered module can change what a prefix
  // means. So a binding is stated against some world between the pass's
  // first and last.
  // ---------------------------------------------------------------------

  /** `ref`, read in schema `sch` of world `m`, names the type `t`. */
  predicate ResolvesType(m: World, sch: SchemaId, ref: string, t: TypeRef) {
    sch < |m| && FindReferencedType(m, sch, ref).Ok? && FindReferencedType(m, sch, ref).value.1 == Some(t)
  }

  /** A pass from `w` to `w'` bound the base `ref` to `t`. */
  ghost predicate BaseBetween(w: World, w': World, sch: SchemaId, ref: string, t: TypeRef) {
    exists m :: Frozen(w, m) && Frozen(m, w') && ResolvesType(m, sch, ref, t)
  }

  /** A pass from `w` to `w'` turned `a` into `a'` by Attribute.compile. */
  ghost predicate AttrBetween(w: World, w': World, a: Attribute, a': Attribute, sch: SchemaId) {
    exists m :: Frozen(w, m) && Frozen(m, w') && sch < |m| &&
      Attr.Compile(m, a, sch).Ok? && Attr.Compile(m, a, sch).value.1 == a'
  }

  lemma BaseWiden(w0: World, w: World, w': World, w1: World, sch: SchemaId, ref: string, t: TypeRef)
    requires Frozen(w0, w) && Frozen(w', w1) && BaseBetween(w, w', sch, ref, t)
    ensures BaseBetween(w0, w1, sch, ref, t)
  {
    var m :| Frozen(w, m) && Frozen(m, w') && ResolvesType(m, sch, ref, t);
    FrozenTrans(w0, w, m);
    FrozenTrans(m, w', w1);
  }

  lemma AttrWiden(w0: World, w: World, w': World, w1: World, a: Attribute, a': Attribute, sch: SchemaId)
    requires Frozen(w0, w) && Frozen(w', w1) && AttrBetween(w, w', a, a', sch)
    ensures AttrBetween(w0, w1, a, a', sch)
  {
    var m :| Frozen(w, m) && Frozen(m, w') && sch < |m| &&
             Attr.Compile(m, a, sch).Ok? && Attr.Compile(m, a, sch).value.1 == a';
    FrozenTrans(w0, w, m);
    FrozenTrans(m, w', w1);
  }

  lemma AttrListWiden(w0: World, w: World, w': World, w1: World, xs: seq<Attribute>, ys: seq<Attribute>, sch: SchemaId)
    requires Frozen(w0, w) && Frozen(w', w1) && |ys| == |xs|
    requires forall i :: 0 <= i < |xs| ==> AttrBetween(w, w', xs[i], ys[i].(duplicateCount := xs[i].duplicateCount), sch)
    ensures forall i :: 0 <= i < |xs| ==> AttrBetween(w0, w1, xs[i], ys[i].(duplicateCount := xs[i].duplicateCount), sch)
  {
    forall i | 0 <= i < |xs| ensures AttrBetween(w0, w1, xs[i], ys[i].(duplicateCount := xs[i].duplicateCount), sch) {
      AttrWiden(w0, w, w', w1, xs[i], ys[i].(duplicateCount := xs[i].duplicateCount), sch);
    }
  }

  /** A pass from `w` to `w'` compiled the list `xs` into `ys` and numbered
      it apart: each attribute is compiled in a world of the pass and
      carries the count the corrected numbering gives it. */
  ghost predicate AttrsNumberedBetween(w: World, w': World, xs: seq<Attribute>, ys: seq<Attribute>, sch: SchemaId) {
    |ys| == |xs| && Distinct(NamesOf(AttrGoName, ys)) &&
    forall i :: 0 <= i < |xs| ==>
      ys[i].duplicateCount == NumberedGoNames(xs)[i].duplicateCount &&
      AttrBetween(w, w', xs[i], ys[i].(duplicateCount := xs[i].duplicateCount), sch)
  }

  lemma AttrsNumberedWiden(w0: World, w: World, w': World, w1: World, xs: seq<Attribute>, ys: seq<Attribute>, sch: SchemaId)
    requires Frozen(w0, w) && Frozen(w', w1) && AttrsNumberedBetween(w, w', xs, ys, sch)
    ensures AttrsNumberedBetween(w0, w1, xs, ys, sch)
  {
    AttrListWiden(w0, w, w', w1, xs, ys, sch);
  }

  // Writing a compiled top-level declaration back into the world.

  function PutGroup(w: World, s: SchemaId, i: nat, ag: AttributeGroup): (w': World)
    requires s < |w| && i < |w[s].attributeGroups|
    ensures Frozen(w, w') && w'[s].attributeGroups[i] == ag
  {
    w[s := w[s].(attributeGroups := w[s].attributeGroups[i := ag])]
  }

  function PutComplexType(w: World, s: SchemaId, i: nat, ct: ComplexType): (w': World)
    requires s < |w| && i < |w[s].complexTypes|
    ensures Frozen(w, w') && w'[s].complexTypes[i] == ct
  {
    w[s := w[s].(complexTypes := w[s].complexTypes[i := ct])]
  }

  function PutSimpleType(w: World, s: SchemaId, i: nat, st: SimpleType): (w': World)
    requires s < |w| && i < |w[s].simpleTypes|
    ensures Frozen(w, w') && w'[s].simpleTypes[i] == st
  {
    w[s := w[s].(simpleTypes := w[s].simpleTypes[i := st])]
  }

  // ---------------------------------------------------------------------
  // Attribute lists and the collision counter
  // ---------------------------------------------------------------------

  /** An attribute after compile: the same declaration, bound. */
  predicate CompiledAttr(a: Attribute, a': Attribute, sch: SchemaId) {
    a'.schema == Some(sch) && a' == a.(schema := a'.schema, refAttr := a'.refAttr, boundType := a'.boundType)
  }

  /** Attribute.compile as one step of a compile pass. */
  method CompileAttribute(w: World, a: Attribute, sch: SchemaId) returns (r: Result<(World, Attribute)>)
    requires sch < |w|
    ensures r == Attr.Compile(w, a, sch)
    ensures r.Ok? ==> Frozen(w, r.value.0) && CompiledAttr(a, r.value.1, sch)
  {
    r := Attr.Compile(w, a, sch);
    if r.Ok? {
      ModulesOnlyFrozen(w, r.value.0, sch);
    }
  }

  /** Compiles each attribute of a list in turn, stopping at the first that
      fails (restriction.go:19-22 and the compile half of each numbering
      loop). */
  method CompileAttributeList(w: World, attrs: seq<Attribute>, sch: SchemaId) returns (r: Result<(World, seq<Attribute>)>)
    requires sch < |w|
    ensures r.Ok? ==> Frozen(w, r.value.0) && |r.value.1| == |attrs|
    ensures r.Ok? ==> forall i :: 0 <= i < |attrs| ==> CompiledAttr(attrs[i], r.value.1[i], sch)
    ensures r.Ok? ==> forall i :: 0 <= i < |attrs| ==> AttrBetween(w, r.value.0, attrs[i], r.value.1[i], sch)
  {
    var cur := w;
    var out: seq<Attribute> := [];
    var i := 0;
    FrozenRefl(w);
    while i < |attrs|
      invariant 0 <= i <= |attrs| && |out| == i
      invariant Frozen(w, cur)
      invariant forall k :: 0 <= k < i ==> CompiledAttr(attrs[k], out[k], sch)
      invariant forall k :: 0 <= k < i ==> AttrBetween(w, cur, attrs[k], out[k], sch)
    {
      var res := CompileAttribute(cur, attrs[i], sch);
      if res.Fail? {
        return Fail(res.error);
      }
      FrozenTrans(w, cur, res.value.0);
      AttrListStep(w, cur, attrs, out, sch, res.value.0, res.value.1);
      cur := res.value.0;
      out := out + [res.value.1];
      i := i + 1;
    }
    r := Ok((cur, out));
  }

  /** One turn of CompileAttributeList: the new attribute is bound in the
      world of its turn, and the earlier ones stay bound. */
  lemma AttrListStep(w: World, cur: World, attrs: seq<Attribute>, out: seq<Attribute>, sch: SchemaId, next: World, a': Attribute)
    requires |out| < |attrs| && Frozen(w, cur) && Frozen(cur, next) && sch < |cur|
    requires forall k :: 0 <= k < |out| ==> AttrBetween(w, cur, attrs[k], out[k], sch)
    requires Attr.Compile(cur, attrs[|out|], sch) == Ok((next, a'))
    ensures forall k :: 0 <= k <= |out| ==> AttrBetween(w, next, attrs[k], (out + [a'])[k], sch)
  {
    FrozenRefl(w);
    FrozenRefl(next);
    forall k | 0 <= k <= |out| ensures AttrBetween(w, next, attrs[k], (out + [a'])[k], sch) {
      if k < |out| {
        AttrWiden(w, w, cur, next, attrs[k], out[k], sch);
      } else {
        assert Frozen(w, cur) && Frozen(cur, next) && Attr.Compile(cur, attrs[k], sch).value.1 == a';
      }
    }
  }

  /** The numbering loop of ComplexType.compile, AttributeGroup.compile and
      Extension.compile: compile every listed attribute, then give each its
      duplicate count. Compile never changes what a Go name is computed from,
      so the counts are those of the declared list. The counter is the
      corrected one (see Numbering), under which no two attributes of the
      list end up with one Go name. */
  method CompileAndNumber(w: World, attrs: seq<Attribute>, sch: SchemaId) returns (r: Result<(World, seq<Attribute>)>)
    requires sch < |w|
    ensures r.Ok? ==> Frozen(w, r.value.0) && |r.value.1| == |attrs|
    ensures r.Ok? ==> Distinct(NamesOf(AttrGoName, r.value.1))
    ensures r.Ok? ==> forall i :: 0 <= i < |attrs| ==>
      r.value.1[i].duplicateCount == NumberedGoNames(attrs)[i].duplicateCount &&
      CompiledAttr(attrs[i].(duplicateCount := r.value.1[i].duplicateCount), r.value.1[i], sch)
    ensures r.Ok? ==> forall i :: 0 <= i < |attrs| ==>
      AttrBetween(w, r.value.0, attrs[i], r.value.1[i].(duplicateCount := attrs[i].duplicateCount), sch)
  {
    var c := CompileAttributeList(w, attrs, sch);
    if c.Fail? {
      return Fail(c.error);
    }
    var compiled := c.value.1;
    var a := new Attribute[|compiled|](i requires 0 <= i < |compiled| => compiled[i]);
    assert a[..] == compiled;
    AttrGoNameFacts();
    NumberAttributes(AttrGoName, a);
    var numbered := a[..];
    NumberCompiled(attrs, compiled, sch);
    NumberedKeepsBindings(w, c.value.0, attrs, compiled, numbered, sch);
    r := Ok((c.value.0, numbered));
  }

  /** Numbering the compiled list gives the counts the declared list would
      get, and changes nothing else. */
  lemma NumberCompiled(attrs: seq<Attribute>, compiled: seq<Attribute>, sch: SchemaId)
    requires |compiled| == |attrs|
    requires forall i :: 0 <= i < |attrs| ==> CompiledAttr(attrs[i], compiled[i], sch)
    ensures var numbered := NumberedGoNames(compiled);
      |numbered| == |attrs| && Distinct(NamesOf(AttrGoName, numbered)) &&
      forall i :: 0 <= i < |attrs| ==>
        numbered[i].duplicateCount == NumberedGoNames(attrs)[i].duplicateCount &&
        numbered[i] == compiled[i].(duplicateCount := numbered[i].duplicateCount)
  {
    AttrGoNameFacts();
    NumberedUniqueDistinct(AttrGoName, compiled);
    NumberedUniqueShape(AttrGoName, compiled);
    NumberingOnlyReadsNames(AttrGoName, compiled, attrs);
  }

  /** The numbered list keeps the bindings Attributes.Compile made. */
  lemma NumberedKeepsBindings(w: World, w': World, attrs: seq<Attribute>, compiled: seq<Attribute>, numbered: seq<Attribute>, sch: SchemaId)
    requires |compiled| == |attrs| && |numbered| == |attrs|
    requires forall i :: 0 <= i < |attrs| ==> CompiledAttr(attrs[i], compiled[i], sch)
    requires forall i :: 0 <= i < |attrs| ==> AttrBetween(w, w', attrs[i], compiled[i], sch)
    requires forall i :: 0 <= i < |attrs| ==> numbered[i] == compiled[i].(duplicateCount := numbered[i].duplicateCount)
    ensures forall i :: 0 <= i < |attrs| ==>
      CompiledAttr(attrs[i].(duplicateCount := numbered[i].duplicateCount), numbered[i], sch)
    ensures forall i :: 0 <= i < |attrs| ==>
      AttrBetween(w, w', attrs[i], numbered[i].(duplicateCount := attrs[i].duplicateCount), sch)
  {
    forall i | 0 <= i < |attrs|
      ensures AttrBetween(w, w', attrs[i], numbered[i].(duplicateCount := attrs[i].duplicateCount), sch)
    {
      assert numbered[i].(duplicateCount := attrs[i].duplicateCount) == compiled[i];
    }
  }

  /** Writes through `&x.Attributes()[idx]` reach the stored direct list only
      when Attributes() returned that list itself; otherwise they go to a
      copy and are lost. Lists are values here, so a returned list equal to
      the direct one is taken to be it. */
  function Landed(direct: seq<Attribute>, listed: seq<Attribute>, numbered: seq<Attribute>): (r: seq<Attribute>)
    ensures listed == direct ==> r == numbered
    ensures listed != direct ==> r == direct
  {
    if listed == direct then numbered else direct
  }

  // ---------------------------------------------------------------------
  // Types reached through handles
  // ---------------------------------------------------------------------

  /** What the slot of a declared type holds once it has been compiled in
      schema `sch`: the same declaration, bound to a schema as the compile
      method of its kind does it. */
  predicate DeclCompiled(d: TypeDecl, d': Option<TypeDecl>, sch: SchemaId) {
    match d
    case ComplexDecl(ct) =>
      d'.Some? && d'.value.ComplexDecl? && !CtConflict(ct) &&
      SameComplexType(ct, d'.value.ct) && d'.value.ct.schema == Some(sch) && d'.value.ct.content == SelectContent(ct)
    case SimpleDecl(st) =>
      d'.Some? && d'.value.SimpleDecl? && d'.value.st.name == st.name &&
      d'.value.st.restriction.Some? == st.restriction.Some? &&
      d'.value.st.schema == (if st.schema.None? then Some(sch) else st.schema) &&
      (st.restriction.Some? ==> d'.value.st.restriction.value.typ.Some?)
    case GroupDecl(ag) =>
      d'.Some? && d'.value.GroupDecl? && GroupShape(ag, d'.value.ag, sch)
    case StaticDecl(_) => d' == Some(d)
  }

  /** Type.compile through a handle: the declaration is read from the world,
      compiled in the referring schema `sch`, and written back; a built-in
      type compiles to nothing. */
  method TypeCompile(w: World, t: TypeRef, sch: SchemaId, parent: Option<Element>, fuel: nat) returns (r: Result<World>)
    requires sch < |w|
    ensures r.Ok? ==> Frozen(w, r.value)
    ensures fuel > 0 && (t.Static? || TypeAt(w, t).None?) ==> r == Ok(w)
    ensures fuel == 0 ==> r == Fail(OutOfFuel)
    ensures r.Ok? && TypeAt(w, t).Some? ==> DeclCompiled(TypeAt(w, t).value, TypeAt(r.value, t), sch)
    decreases fuel, 0, 1
  {
    if fuel == 0 {
      return Fail(OutOfFuel);
    }
    match t
    case Static(_) =>
      r := Ok(w);
    case ComplexRef(s, i) =>
      if s < |w| && i < |w[s].complexTypes| {
        r := ComplexSlotCompile(w, s, i, sch, parent, fuel);
      } else {
        r := Ok(w);
      }
    case SimpleRef(s, i) =>
      if s < |w| && i < |w[s].simpleTypes| {
        r := SimpleSlotCompile(w, s, i, sch, parent, fuel);
      } else {
        r := Ok(w);
      }
    case GroupRef(s, i) =>
      if s < |w| && i < |w[s].attributeGroups| {
        r := GroupSlotCompile(w, s, i, sch, parent, fuel);
      } else {
        r := Ok(w);
      }
  }

  /** TypeCompile on a live complex type slot. */
  method ComplexSlotCompile(w: World, s: SchemaId, i: nat, sch: SchemaId, parent: Option<Element>, fuel: nat)
    returns (r: Result<World>)
    requires sch < |w| && s < |w| && i < |w[s].complexTypes| && fuel > 0
    ensures r.Ok? ==> Frozen(w, r.value)
    ensures r.Ok? ==> DeclCompiled(ComplexDecl(w[s].complexTypes[i]), TypeAt(r.value, ComplexRef(s, i)), sch)
    decreases fuel, 0, 0
  {
    var res := CtCompile(w, w[s].complexTypes[i], sch, parent, fuel - 1);
    if res.Fail? {
      return Fail(res.error);
    }
    r := Ok(PutComplexType(res.value.0, s, i, res.value.1));
    FrozenTrans(w, res.value.0, r.value);
  }

  /** TypeCompile on a live simple type slot. */
  method SimpleSlotCompile(w: World, s: SchemaId, i: nat, sch: SchemaId, parent: Option<Element>, fuel: nat)
    returns (r: Result<World>)
    requires sch < |w| && s < |w| && i < |w[s].simpleTypes| && fuel > 0
    ensures r.Ok? ==> Frozen(w, r.value)
    ensures r.Ok? ==> DeclCompiled(SimpleDecl(w[s].simpleTypes[i]), TypeAt(r.value, SimpleRef(s, i)), sch)
    decreases fuel, 0, 0
  {
    var res := StCompile(w, w[s].simpleTypes[i], sch, parent, fuel - 1);
    if res.Fail? {
      return Fail(res.error);
    }
    r := Ok(PutSimpleType(res.value.0, s, i, res.value.1));
    FrozenTrans(w, res.value.0, r.value);
  }

  /** TypeCompile on a live attribute group slot. */
  method GroupSlotCompile(w: World, s: SchemaId, i: nat, sch: SchemaId, parent: Option<Element>, fuel: nat)
    returns (r: Result<World>)
    requires sch < |w| && s < |w| && i < |w[s].attributeGroups| && fuel > 0
    ensures r.Ok? ==> Frozen(w, r.value)
    ensures r.Ok? ==> DeclCompiled(GroupDecl(w[s].attributeGroups[i]), TypeAt(r.value, GroupRef(s, i)), sch)
    decreases fuel, 0, 0
  {
    var res := GroupCompile(w, w[s].attributeGroups[i], sch, parent, fuel - 1);
    if res.Fail? {
      return Fail(res.error);
    }
    r := Ok(PutGroup(res.value.0, s, i, res.value.1));
    FrozenTrans(w, res.value.0, r.value);
  }

  /** Resolves a base type reference (extension.go:97-100,
      restriction.go:31-34, attributegroup.go:28-33): an unknown type is
      an error naming `what` and the reference. */
  method ResolveBase(w: World, sch: SchemaId, ref: string, what: string) returns (r: Result<(World, TypeRef)>)
    requires sch < |w|
    ensures r.Ok? ==> Frozen(w, r.value.0) && TypeAt(r.value.0, r.value.1).Some?
    ensures FindReferencedType(w, sch, ref).Ok? && FindReferencedType(w, sch, ref).value.1.None? ==>
      r == Fail(CannotResolve("Cannot build " + what + ": unknown type: " + ref))
    ensures FindReferencedType(w, sch, ref).Fail? ==> r == Fail(FindReferencedType(w, sch, ref).error)
    ensures r.Ok? <==> FindReferencedType(w, sch, ref).Ok? && FindReferencedType(w, sch, ref).value.1.Some?
    ensures r.Ok? ==> r.value.0 == FindReferencedType(w, sch, ref).value.0 && ResolvesType(w, sch, ref, r.value.1)
  {
    var found := FindReferencedType(w, sch, ref);
    if found.Fail? {
      return Fail(found.error);
    }
    if found.value.1.None? {
      return Fail(CannotResolve("Cannot build " + what + ": unknown type: " + ref));
    }
    ModulesOnlyFrozen(w, found.value.0, sch);
    r := Ok((found.value.0, found.value.1.value));
  }

  // ---------------------------------------------------------------------
  // Complex and simple types
  // ---------------------------------------------------------------------

  /** The content child ComplexType.compile selects: complex content wins,
      then simple content; with neither the field keeps its value. */
  function SelectContent(ct: ComplexType): ContentSel {
    if ct.complexContent.Some? then UsesComplexContent
    else if ct.simpleContent.Some? then UsesSimpleContent
    else ct.content
  }

  /** The combinations ComplexType.compile refuses (types.go:107-109,
      130-132, 137-146, 150-159). */
  predicate CtConflict(ct: ComplexType) {
    var hasContent := ContentOf(ct.(content := SelectContent(ct))).Some?;
    (ct.sequence.Some? && ct.sequenceAll.Some?) ||
    (ct.complexContent.Some? && ct.simpleContent.Some?) ||
    (hasContent && (|ct.attributesDirect| > 1 || ct.sequence.Some? || ct.sequenceAll.Some?)) ||
    (ct.choice.Some? && (hasContent || ct.sequence.Some? || ct.sequenceAll.Some?))
  }

  /** What compile keeps of a complex type. */
  predicate SameComplexType(ct: ComplexType, ct': ComplexType) {
    ct'.name == ct.name && ct'.mixed == ct.mixed &&
    |ct'.attributesDirect| == |ct.attributesDirect| &&
    ct'.sequence.Some? == ct.sequence.Some? && ct'.sequenceAll.Some? == ct.sequenceAll.Some? &&
    ct'.simpleContent.Some? == ct.simpleContent.Some? && ct'.complexContent.Some? == ct.complexContent.Some? &&
    ct'.choice.Some? == ct.choice.Some?
  }

  /** A template override of the schema for `goName`, marked used. */
  function UseOverride(w: World, sch: SchemaId, goName: string, current: Override): (r: (World, Override))
    requires sch < |w|
    ensures Frozen(w, r.0)
    ensures goName in w[sch].templateOverrides ==>
      r.1 == w[sch].templateOverrides[goName].(templateUsed := true) && r.0[sch].templateOverrides[goName] == r.1
    ensures goName !in w[sch].templateOverrides ==> r == (w, current)
  {
    if goName in w[sch].templateOverrides then
      var tmpl := w[sch].templateOverrides[goName].(templateUsed := true);
      var s' := w[sch].(templateOverrides := w[sch].templateOverrides[goName := tmpl]);
      assert s'.templateOverrides.Keys == w[sch].templateOverrides.Keys;
      (w[sch := s'], tmpl)
    else (w, current)
  }

  /** ComplexType.compile (types.go:101-168). */
  method CtCompile(w: World, ct: ComplexType, sch: SchemaId, parent: Option<Element>, fuel: nat) returns (r: Result<(World, ComplexType)>)
    requires sch < |w|
    ensures r.Ok? ==> Frozen(w, r.value.0)
    ensures r.Ok? ==> !CtConflict(ct)
    ensures r.Ok? ==> var ct' := r.value.1;
      SameComplexType(ct, ct') && ct'.schema == Some(sch) && ct'.content == SelectContent(ct)
    ensures r.Ok? && ContentOf(ct).None? ==> Distinct(NamesOf(AttrGoName, r.value.1.attributesDirect))
    ensures r.Ok? && ToCamel(ct.name) in w[sch].templateOverrides ==>
      r.value.1.override == w[sch].templateOverrides[ToCamel(ct.name)].(templateUsed := true)
    ensures r.Ok? && ToCamel(ct.name) !in w[sch].templateOverrides ==> r.value.1.override == ct.override
    ensures r.Ok? && ContentOf(ct).None? ==> forall i :: 0 <= i < |ct.attributesDirect| ==>
      r.value.1.attributesDirect[i].duplicateCount == NumberedGoNames(ct.attributesDirect)[i].duplicateCount &&
      AttrBetween(w, r.value.0, ct.attributesDirect[i],
                  r.value.1.attributesDirect[i].(duplicateCount := ct.attributesDirect[i].duplicateCount), sch)
    decreases fuel, 1, ct, 2
  {
    var body := CtChildren(w, ct, sch, parent, fuel);
    if body.Fail? {
      return Fail(body.error);
    }
    var cur := body.value.0;
    var used := UseOverride(cur, sch, ToCamel(ct.name), body.value.1.override);
    FrozenTrans(w, cur, used.0);
    OverrideKept(w, cur, sch, ToCamel(ct.name));
    if ContentOf(ct).None? {
      FrozenRefl(w);
      AttrListWiden(w, w, cur, used.0, ct.attributesDirect, body.value.1.attributesDirect, sch);
    }
    r := Ok((used.0, body.value.1.(override := used.1)));
  }

  /** ComplexType.compile up to the template override (types.go:102-161). */
  method CtChildren(w: World, ct: ComplexType, sch: SchemaId, parent: Option<Element>, fuel: nat) returns (r: Result<(World, ComplexType)>)
    requires sch < |w|
    ensures r.Ok? ==> Frozen(w, r.value.0)
    ensures r.Ok? ==> !CtConflict(ct)
    ensures r.Ok? ==> var ct' := r.value.1;
      SameComplexType(ct, ct') && ct'.schema == Some(sch) && ct'.content == SelectContent(ct) &&
      ct'.override == ct.override
    ensures r.Ok? && ContentOf(ct).None? ==> Distinct(NamesOf(AttrGoName, r.value.1.attributesDirect))
    ensures r.Ok? && ContentOf(ct).None? ==> forall i :: 0 <= i < |ct.attributesDirect| ==>
      r.value.1.attributesDirect[i].duplicateCount == NumberedGoNames(ct.attributesDirect)[i].duplicateCount &&
      AttrBetween(w, r.value.0, ct.attributesDirect[i],
                  r.value.1.attributesDirect[i].(duplicateCount := ct.attributesDirect[i].duplicateCount), sch)
    decreases fuel, 1, ct, 1
  {
    var seqs := CtSequences(w, ct, sch, parent, fuel);
    if seqs.Fail? {
      return Fail(seqs.error);
    }
    var numbered := CtNumbering(seqs.value.0, seqs.value.1, sch);
    if numbered.Fail? {
      return Fail(numbered.error);
    }
    FrozenTrans(w, seqs.value.0, numbered.value.0);
    var content := CtContent(numbered.value.0, ct, numbered.value.1, sch, parent, fuel);
    if content.Fail? {
      return Fail(content.error);
    }
    FrozenTrans(w, numbered.value.0, content.value.0);
    var choice := CtChoice(content.value.0, ct, content.value.1, sch, parent, fuel);
    if choice.Fail? {
      return Fail(choice.error);
    }
    FrozenTrans(w, content.value.0, choice.value.0);
    if ContentOf(ct).None? {
      FrozenTrans(numbered.value.0, content.value.0, choice.value.0);
      AttrListWiden(w, seqs.value.0, numbered.value.0, choice.value.0, ct.attributesDirect, choice.value.1.attributesDirect, sch);
    }
    r := choice;
  }

  /** A frozen world keeps every template override but its used flag. */
  lemma OverrideKept(w: World, w': World, sch: SchemaId, k: string)
    requires Frozen(w, w') && sch < |w|
    ensures k in w'[sch].templateOverrides <==> k in w[sch].templateOverrides
    ensures k in w[sch].templateOverrides ==>
      w'[sch].templateOverrides[k].(templateUsed := true) == w[sch].templateOverrides[k].(templateUsed := true)
  {
    assert Stable(w[sch], w'[sch]);
    if k in w[sch].templateOverrides {
      assert Skeletons(w'[sch].templateOverrides)[k] == Skeletons(w[sch].templateOverrides)[k];
    }
  }

  /** The sequence and the xsd:all children (types.go:102-111). */
  method CtSequences(w: World, ct: ComplexType, sch: SchemaId, parent: Option<Element>, fuel: nat)
    returns (r: Result<(World, ComplexType)>)
    requires sch < |w|
    ensures r.Ok? ==> Frozen(w, r.value.0) && !(ct.sequence.Some? && ct.sequenceAll.Some?)
    ensures r.Ok? ==> var n := r.value.1;
      n == ct.(schema := Some(sch), sequence := n.sequence, sequenceAll := n.sequenceAll) &&
      n.sequence.Some? == ct.sequence.Some? && n.sequenceAll.Some? == ct.sequenceAll.Some?
    decreases fuel, 1, ct, 0
  {
    var cur := w;
    var node := ct.(schema := Some(sch));
    if ct.sequence.Some? {
      var res := SequenceCompile(cur, ct.sequence.value, sch, parent, false, fuel);
      if res.Fail? {
        return Fail(res.error);
      }
      cur, node := res.value.0, node.(sequence := Some(res.value.1));
    }
    if ct.sequenceAll.Some? {
      if ct.sequence.Some? {
        return Fail(NotImplemented("xsd:complexType " + ct.name + " defines xsd:sequence and xsd:all"));
      }
      var res := SequenceCompile(cur, ct.sequenceAll.value, sch, parent, true, fuel);
      if res.Fail? {
        return Fail(res.error);
      }
      FrozenTrans(w, cur, res.value.0);
      cur, node := res.value.0, node.(sequenceAll := Some(res.value.1));
    }
    r := Ok((cur, node));
  }

  /** The numbering loop of ComplexType.compile (types.go:113-126): writes
      through `&ct.Attributes()[idx]` reach the direct attributes only while
      no content is selected; with content they go to the content's list
      copy and are lost, though the attributes are still compiled. */
  method CtNumbering(w: World, node: ComplexType, sch: SchemaId) returns (r: Result<(World, ComplexType)>)
    requires sch < |w|
    ensures r.Ok? ==> Frozen(w, r.value.0)
    ensures r.Ok? ==> var n := r.value.1;
      n == node.(attributesDirect := n.attributesDirect) && |n.attributesDirect| == |node.attributesDirect|
    ensures r.Ok? && ContentOf(node).None? ==> Distinct(NamesOf(AttrGoName, r.value.1.attributesDirect))
    ensures r.Ok? && ContentOf(node).Some? ==> r.value.1 == node
    ensures r.Ok? && ContentOf(node).None? ==> forall i :: 0 <= i < |node.attributesDirect| ==>
      r.value.1.attributesDirect[i].duplicateCount == NumberedGoNames(node.attributesDirect)[i].duplicateCount &&
      AttrBetween(w, r.value.0, node.attributesDirect[i],
                  r.value.1.attributesDirect[i].(duplicateCount := node.attributesDirect[i].duplicateCount), sch)
  {
    var listed := CtAttributes(w, node, TypeDepth(w));
    var numbered := CompileAndNumber(w, listed, sch);
    if numbered.Fail? {
      return Fail(numbered.error);
    }
    if ContentOf(node).None? {
      r := Ok((numbered.value.0, node.(attributesDirect := numbered.value.1)));
    } else {
      r := Ok((numbered.value.0, node));
    }
  }

  /** Content selection, its checks and its compile (types.go:128-148). */
  method CtContent(w: World, ct: ComplexType, node: ComplexType, sch: SchemaId, parent: Option<Element>, fuel: nat)
    returns (r: Result<(World, ComplexType)>)
    requires sch < |w|
    requires node.complexContent == ct.complexContent && node.simpleContent == ct.simpleContent
    ensures r.Ok? ==> Frozen(w, r.value.0)
    ensures r.Ok? ==> !(ct.complexContent.Some? && ct.simpleContent.Some?)
    ensures r.Ok? && ContentOf(node.(content := SelectContent(ct))).Some? ==>
      |ct.attributesDirect| <= 1 && ct.sequence.None? && ct.sequenceAll.None?
    ensures r.Ok? ==> var n := r.value.1;
      n == node.(content := SelectContent(ct), complexContent := n.complexContent, simpleContent := n.simpleContent) &&
      n.complexContent.Some? == ct.complexContent.Some? && n.simpleContent.Some? == ct.simpleContent.Some?
    decreases fuel, 1, ct, 0
  {
    var node1 := node.(content := SelectContent(ct));
    if ct.complexContent.Some? && ct.simpleContent.Some? {
      return Fail(NotImplemented("xsd:complexType " + ct.name + " defines xsd:simpleContent and xsd:complexContent together"));
    }
    if ContentOf(node1).None? {
      return Ok((w, node1));
    }
    if |ct.attributesDirect| > 1 {
      return Fail(NotImplemented("xsd:complexType " + ct.name + " defines direct attribute and xsd:content"));
    }
    if ct.sequence.Some? {
      return Fail(NotImplemented("xsd:complexType " + ct.name + " defines xsd:sequence and xsd:content"));
    }
    if ct.sequenceAll.Some? {
      return Fail(NotImplemented("xsd:complexType " + ct.name + " defines xsd:all and xsd:content"));
    }
    if node1.content == UsesComplexContent {
      var res := ContentCompile(w, ct.complexContent.value, sch, parent, true, fuel);
      if res.Fail? {
        return Fail(res.error);
      }
      r := Ok((res.value.0, node1.(complexContent := Some(res.value.1))));
    } else {
      var res := ContentCompile(w, ct.simpleContent.value, sch, parent, false, fuel);
      if res.Fail? {
        return Fail(res.error);
      }
      r := Ok((res.value.0, node1.(simpleContent := Some(res.value.1))));
    }
  }

  /** The choice child and its checks (types.go:150-161). */
  method CtChoice(w: World, ct: ComplexType, node: ComplexType, sch: SchemaId, parent: Option<Element>, fuel: nat)
    returns (r: Result<(World, ComplexType)>)
    requires sch < |w|
    requires node.choice == ct.choice
    ensures r.Ok? ==> Frozen(w, r.value.0)
    ensures r.Ok? && ct.choice.Some? ==> ContentOf(node).None? && ct.sequence.None? && ct.sequenceAll.None?
    ensures r.Ok? ==> var n := r.value.1;
      n == node.(choice := n.choice) && n.choice.Some? == ct.choice.Some?
    decreases fuel, 1, ct, 0
  {
    if ct.choice.None? {
      return Ok((w, node));
    }
    if ContentOf(node).Some? {
      return Fail(NotImplemented("xsd:complexType " + ct.name + " defines xsd:choice and xsd:content"));
    }
    if ct.sequence.Some? {
      return Fail(NotImplemented("xsd:complexType " + ct.name + " defines xsd:choice and xsd:sequence"));
    }
    if ct.sequenceAll.Some? {
      return Fail(NotImplemented("xsd:complexType " + ct.name + " defines xsd:all and xsd:sequence"));
    }
    var res := ChoiceCompile(w, ct.choice.value, sch, parent, fuel);
    if res.Fail? {
      return Fail(res.error);
    }
    r := Ok((res.value.0, node.(choice := Some(res.value.1))));
  }

  /** SimpleType.compile (types.go:209-223): the schema is recorded only
      when none is recorded yet. */
  method StCompile(w: World, st: SimpleType, sch: SchemaId, parent: Option<Element>, fuel: nat) returns (r: Result<(World, SimpleType)>)
    requires sch < |w|
    ensures r.Ok? ==> Frozen(w, r.value.0)
    ensures r.Ok? ==> var st' := r.value.1;
      st'.name == st.name && st'.restriction.Some? == st.restriction.Some? &&
      st'.schema == (if st.schema.None? then Some(sch) else st.schema)
    ensures r.Ok? && st.restriction.Some? ==> r.value.1.restriction.value.typ.Some?
    ensures st.restriction.Some? && st.restriction.value.base == "" ==> r.Fail?
    ensures r.Ok? && ToCamel(st.name) in w[sch].templateOverrides ==>
      r.value.1.override == w[sch].templateOverrides[ToCamel(st.name)].(templateUsed := true)
    ensures r.Ok? && ToCamel(st.name) !in w[sch].templateOverrides ==> r.value.1.override == st.override
    ensures r.Ok? && st.restriction.Some? ==>
      BaseBetween(w, r.value.0, sch, st.restriction.value.base, r.value.1.restriction.value.typ.value)
    decreases fuel, 1, st
  {
    var cur := w;
    var node := st.(schema := if st.schema.None? then Some(sch) else st.schema);
    if st.restriction.Some? {
      var res := RestrictionCompile(cur, st.restriction.value, sch, parent, fuel);
      if res.Fail? {
        return Fail(res.error);
      }
      cur, node := res.value.0, node.(restriction := Some(res.value.1));
    }
    var used := UseOverride(cur, sch, ToCamel(st.name), node.override);
    FrozenTrans(w, cur, used.0);
    if st.restriction.Some? {
      FrozenRefl(w);
      BaseWiden(w, w, cur, used.0, sch, st.restriction.value.base, node.restriction.value.typ.value);
    }
    r := Ok((used.0, node.(override := used.1)));
  }

  // ---------------------------------------------------------------------
  // Content, extension, restriction, attribute group
  // ---------------------------------------------------------------------

  /** SimpleContent.compile and ComplexContent.compile (content.go:40-48,
      77-88): only complex content refuses to have both children. */
  method ContentCompile(w: World, c: Content, sch: SchemaId, parent: Option<Element>, isComplex: bool, fuel: nat)
    returns (r: Result<(World, Content)>)
    requires sch < |w|
    ensures r.Ok? ==> Frozen(w, r.value.0)
    ensures r.Ok? ==> var c' := r.value.1;
      c'.schema == Some(sch) && c'.extension.Some? == c.extension.Some? && c'.restriction.Some? == c.restriction.Some?
    ensures isComplex && c.extension.Some? && c.restriction.Some? ==> r.Fail?
    ensures r.Ok? && c.extension.Some? ==> r.value.1.extension.value.typ.Some?
    ensures r.Ok? && c.restriction.Some? ==> r.value.1.restriction.value.typ.Some?
    ensures r.Ok? && c.extension.Some? ==>
      BaseBetween(w, r.value.0, sch, c.extension.value.base, r.value.1.extension.value.typ.value)
    ensures r.Ok? && c.restriction.Some? ==>
      BaseBetween(w, r.value.0, sch, c.restriction.value.base, r.value.1.restriction.value.typ.value)
    decreases fuel, 1, c
  {
    var cur := w;
    var node := c.(schema := Some(sch));
    if c.extension.Some? {
      var res := ExtensionCompile(cur, c.extension.value, sch, parent, fuel);
      if res.Fail? {
        return Fail(res.error);
      }
      cur, node := res.value.0, node.(extension := Some(res.value.1));
    }
    if c.restriction.Some? {
      if isComplex && c.extension.Some? {
        return Fail(NotImplemented("xsd:complexContent defines xsd:restriction and xsd:extension"));
      }
      var res := RestrictionCompile(cur, c.restriction.value, sch, parent, fuel);
      if res.Fail? {
        return Fail(res.error);
      }
      FrozenTrans(w, cur, res.value.0);
      FrozenRefl(w);
      FrozenRefl(res.value.0);
      if c.extension.Some? {
        BaseWiden(w, w, cur, res.value.0, sch, c.extension.value.base, node.extension.value.typ.value);
      }
      BaseWiden(w, cur, res.value.0, res.value.0, sch, c.restriction.value.base, res.value.1.typ.value);
      cur, node := res.value.0, node.(restriction := Some(res.value.1));
    }
    r := Ok((cur, node));
  }

  /** Extension.compile (extension.go:89-123). */
  method ExtensionCompile(w: World, ext: Extension, sch: SchemaId, parent: Option<Element>, fuel: nat)
    returns (r: Result<(World, Extension)>)
    requires sch < |w|
    ensures r.Ok? ==> Frozen(w, r.value.0)
    ensures ext.base == "" ==> r.Fail?
    ensures r.Ok? ==> var ext' := r.value.1;
      ext'.base == ext.base && |ext'.attributesDirect| == |ext.attributesDirect| &&
      |ext'.attributeGroups| == |ext.attributeGroups| && ext'.sequence.Some? == ext.sequence.Some? &&
      ext'.typ.Some? && TypeAt(r.value.0, ext'.typ.value).Some?
    ensures r.Ok? ==> BaseBetween(w, r.value.0, sch, ext.base, r.value.1.typ.value)
    ensures r.Ok? && ext.sequence.Some? ==>
      SequenceShape(ext.sequence.value, r.value.1.sequence.value, sch, false) &&
      ElemsBetween(w, r.value.0, ext.sequence.value.elementList, r.value.1.sequence.value.elementList, sch)
    ensures r.Ok? ==> GroupsBetween(w, r.value.0, ext.attributeGroups, r.value.1.attributeGroups, sch)
    ensures r.Ok? ==> (r.value.1.attributesDirect == ext.attributesDirect ||
                       AttrsNumberedBetween(w, r.value.0, ext.attributesDirect, r.value.1.attributesDirect, sch))
    ensures r.Ok? ==> ExtNumberedBetween(w, r.value.0, ext, r.value.1, sch)
    decreases fuel, 1, ext
  {
    var cur := w;
    var node := ext;
    FrozenRefl(w);
    ghost var atSeq := w;
    if ext.sequence.Some? {
      var res := SequenceCompile(cur, ext.sequence.value, sch, parent, false, fuel);
      if res.Fail? {
        return Fail(res.error);
      }
      atSeq := res.value.0;
      cur, node := res.value.0, node.(sequence := Some(res.value.1));
    }
    if ext.base == "" {
      return Fail(NotImplemented("xsd:extension/@base empty, cannot extend unknown type"));
    }
    ghost var atBase := cur;
    var base := ResolveBase(cur, sch, ext.base, "xsd:extension");
    if base.Fail? {
      return Fail(base.error);
    }
    ghost var resolved := base.value.0;
    cur, node := base.value.0, node.(typ := Some(base.value.1));
    var compiled := TypeCompile(cur, base.value.1, sch, parent, fuel);
    if compiled.Fail? {
      return Fail(compiled.error);
    }
    cur := compiled.value;

    ghost var atGroups := cur;
    var groups := GroupListCompile(cur, ext.attributeGroups, sch, parent, fuel);
    if groups.Fail? {
      return Fail(groups.error);
    }
    cur := groups.value.0;
    node := node.(attributeGroups := groups.value.1);

    var numbered := ExtNumbering(cur, node, sch);
    if numbered.Fail? {
      return Fail(numbered.error);
    }
    ExtensionRelay(w, atSeq, atBase, resolved, atGroups, cur, numbered.value.0, ext, node, numbered.value.1, base.value.1, sch);
    r := numbered;
  }

  /** The bindings each stage of Extension.compile made, widened to the
      whole pass: the sequence from `w` to `atSeq`, the base resolved in
      `atBase`, the groups from `atGroups` to `cur`, and the numbering from
      `cur` to `w'`. */
  lemma ExtensionRelay(w: World, atSeq: World, atBase: World, resolved: World, atGroups: World, cur: World, w': World,
                       ext: Extension, node: Extension, ext': Extension, t: TypeRef, sch: SchemaId)
    requires Frozen(w, atSeq) && Frozen(atSeq, atBase) && Frozen(atBase, resolved) && Frozen(resolved, atGroups)
    requires Frozen(atGroups, cur) && Frozen(cur, w')
    requires ResolvesType(atBase, sch, ext.base, t) && TypeAt(resolved, t).Some?
    requires ext.sequence.Some? ==> (node.sequence.Some? &&
      ElemsBetween(w, atSeq, ext.sequence.value.elementList, node.sequence.value.elementList, sch))
    requires GroupsBetween(atGroups, cur, ext.attributeGroups, node.attributeGroups, sch)
    requires node.attributesDirect == ext.attributesDirect
    requires ext' == node.(attributesDirect := ext'.attributesDirect)
    requires ExtAttributes(cur, node, TypeDepth(cur)) == node.attributesDirect ==>
      AttrsNumberedBetween(cur, w', node.attributesDirect, ext'.attributesDirect, sch)
    requires ExtAttributes(cur, node, TypeDepth(cur)) != node.attributesDirect ==> ext'.attributesDirect == node.attributesDirect
    ensures Frozen(w, w') && TypeAt(w', t).Some? && BaseBetween(w, w', sch, ext.base, t)
    ensures ext.sequence.Some? ==>
      ElemsBetween(w, w', ext.sequence.value.elementList, ext'.sequence.value.elementList, sch)
    ensures GroupsBetween(w, w', ext.attributeGroups, ext'.attributeGroups, sch)
    ensures ext'.attributesDirect == ext.attributesDirect ||
      AttrsNumberedBetween(w, w', ext.attributesDirect, ext'.attributesDirect, sch)
    ensures ExtNumberedBetween(w, w', ext, ext', sch)
  {
    FrozenRefl(w);
    FrozenRefl(w');
    FrozenTrans(w, atSeq, atBase);
    FrozenTrans(resolved, atGroups, cur);
    FrozenTrans(resolved, cur, w');
    FrozenKeepsHandles(resolved, w', t);
    FrozenTrans(atBase, resolved, w');
    assert Frozen(w, atBase) && Frozen(atBase, w') && ResolvesType(atBase, sch, ext.base, t);
    FrozenTrans(atSeq, atBase, w');
    FrozenTrans(w, atBase, w');
    if ext.sequence.Some? {
      ElemListWiden(w, w, atSeq, w', ext.sequence.value.elementList, node.sequence.value.elementList, sch);
    }
    FrozenTrans(w, atBase, resolved);
    FrozenTrans(w, resolved, atGroups);
    GroupsWiden(w, atGroups, cur, w', ext.attributeGroups, node.attributeGroups, sch);
    FrozenTrans(w, atGroups, cur);
    if ExtAttributes(cur, node, TypeDepth(cur)) == node.attributesDirect {
      AttrsNumberedWiden(w, cur, w', w', node.attributesDirect, ext'.attributesDirect, sch);
    }
    ExtNumberedWitness(w, cur, w', ext, node, ext', sch);
  }

  /** The numbering world `cur` of Extension.compile witnesses
      ExtNumberedBetween. */
  lemma ExtNumberedWitness(w: World, cur: World, w': World, ext: Extension, node: Extension, ext': Extension, sch: SchemaId)
    requires Frozen(w, cur) && Frozen(cur, w')
    requires node.attributesDirect == ext.attributesDirect
    requires ext' == node.(attributesDirect := ext'.attributesDirect)
    requires ExtAttributes(cur, node, TypeDepth(cur)) == node.attributesDirect ==>
      AttrsNumberedBetween(cur, w', node.attributesDirect, ext'.attributesDirect, sch)
    requires ExtAttributes(cur, node, TypeDepth(cur)) != node.attributesDirect ==> ext'.attributesDirect == node.attributesDirect
    ensures ExtNumberedBetween(w, w', ext, ext', sch)
  {
    assert ext'.(attributesDirect := ext.attributesDirect) == node;
  }

  /** A pass from `w` to `w'` ran the numbering loop of Extension.compile
      on `ext` in some world `m` of the pass, giving the direct list of
      `ext'`: when Attributes() in `m` returned the direct list, it was
      compiled and numbered apart; otherwise it was left as declared. */
  ghost predicate ExtNumberedBetween(w: World, w': World, ext: Extension, ext': Extension, sch: SchemaId) {
    exists m :: Frozen(w, m) && Frozen(m, w') &&
      var node := ext'.(attributesDirect := ext.attributesDirect);
      (ExtAttributes(m, node, TypeDepth(m)) == ext.attributesDirect ==>
         AttrsNumberedBetween(m, w', ext.attributesDirect, ext'.attributesDirect, sch)) &&
      (ExtAttributes(m, node, TypeDepth(m)) != ext.attributesDirect ==> ext'.attributesDirect == ext.attributesDirect)
  }

  /** An attribute compiled in a pass is bound to the compiling schema. */
  lemma CompiledHasSchema(w: World, w': World, a: Attribute, a': Attribute, sch: SchemaId)
    requires AttrBetween(w, w', a, a', sch)
    ensures a'.schema == Some(sch)
  {
  }

  /** An extension with no base bound and no groups lists exactly its direct
      attributes, so the numbering loop must compile them: a direct list left
      as declared, with an attribute not yet bound to a schema, is not a
      numbering of it. */
  lemma SkippedNumberingRejected(w: World, w': World, ext: Extension, sch: SchemaId)
    requires ext.typ.None? && ext.attributeGroups == []
    requires |ext.attributesDirect| >= 1 && ext.attributesDirect[0].schema.None?
    ensures !ExtNumberedBetween(w, w', ext, ext, sch)
  {
    if ExtNumberedBetween(w, w', ext, ext, sch) {
      var m :| Frozen(w, m) && Frozen(m, w') &&
        var node := ext.(attributesDirect := ext.attributesDirect);
        (ExtAttributes(m, node, TypeDepth(m)) == ext.attributesDirect ==>
           AttrsNumberedBetween(m, w', ext.attributesDirect, ext.attributesDirect, sch)) &&
        (ExtAttributes(m, node, TypeDepth(m)) != ext.attributesDirect ==> ext.attributesDirect == ext.attributesDirect);
      assert ExtGroupLists(m, ext, TypeDepth(m)) == [];
      assert ExtAttributes(m, ext, TypeDepth(m)) == ext.attributesDirect;
      CompiledHasSchema(m, w', ext.attributesDirect[0], ext.attributesDirect[0], sch);
    }
  }

  /** The numbering loop of Extension.compile (extension.go:111-122): the
      listed attributes are compiled and numbered apart, and the numbers land
      in the stored direct list when Attributes() returned it. */
  method ExtNumbering(w: World, node: Extension, sch: SchemaId) returns (r: Result<(World, Extension)>)
    requires sch < |w|
    ensures r.Ok? ==> Frozen(w, r.value.0)
    ensures r.Ok? ==> var listed := ExtAttributes(w, node, TypeDepth(w));
      r.value.1 == node.(attributesDirect := r.value.1.attributesDirect) &&
      |r.value.1.attributesDirect| == |node.attributesDirect| &&
      (listed == node.attributesDirect ==> Distinct(NamesOf(AttrGoName, r.value.1.attributesDirect))) &&
      (listed != node.attributesDirect ==> r.value.1.attributesDirect == node.attributesDirect)
    ensures r.Ok? && ExtAttributes(w, node, TypeDepth(w)) == node.attributesDirect ==>
      AttrsNumberedBetween(w, r.value.0, node.attributesDirect, r.value.1.attributesDirect, sch)
  {
    var listed := ExtAttributes(w, node, TypeDepth(w));
    var numbered := CompileAndNumber(w, listed, sch);
    if numbered.Fail? {
      return Fail(numbered.error);
    }
    r := Ok((numbered.value.0, node.(attributesDirect := Landed(node.attributesDirect, listed, numbered.value.1))));
  }

  /** Restriction.compile (restriction.go:17-36): the direct attributes and
      any nested simple content are compiled before the base is resolved. */
  method RestrictionCompile(w: World, res0: Restriction, sch: SchemaId, parent: Option<Element>, fuel: nat)
    returns (r: Result<(World, Restriction)>)
    requires sch < |w|
    ensures r.Ok? ==> Frozen(w, r.value.0)
    ensures res0.base == "" ==> r.Fail?
    ensures r.Ok? ==> var r' := r.value.1;
      r'.schema == Some(sch) && r'.base == res0.base && r'.enumsDirect == res0.enumsDirect &&
      |r'.attributesDirect| == |res0.attributesDirect| &&
      (forall i :: 0 <= i < |res0.attributesDirect| ==> CompiledAttr(res0.attributesDirect[i], r'.attributesDirect[i], sch)) &&
      r'.simpleContent.Some? == res0.simpleContent.Some? &&
      r'.typ.Some? && TypeAt(r.value.0, r'.typ.value).Some?
    ensures r.Ok? ==> BaseBetween(w, r.value.0, sch, res0.base, r.value.1.typ.value)
    ensures r.Ok? ==> forall i :: 0 <= i < |res0.attributesDirect| ==>
      AttrBetween(w, r.value.0, res0.attributesDirect[i], r.value.1.attributesDirect[i], sch)
    decreases fuel, 1, res0
  {
    var cur := w;
    var node := res0.(schema := Some(sch));
    var attrs := CompileAttributeList(cur, res0.attributesDirect, sch);
    if attrs.Fail? {
      return Fail(attrs.error);
    }
    ghost var atAttrs := attrs.value.0;
    FrozenRefl(atAttrs);
    cur, node := attrs.value.0, node.(attributesDirect := attrs.value.1);
    if res0.simpleContent.Some? {
      var res := ContentCompile(cur, res0.simpleContent.value, sch, parent, false, fuel);
      if res.Fail? {
        return Fail(res.error);
      }
      FrozenTrans(w, cur, res.value.0);
      FrozenTrans(atAttrs, cur, res.value.0);
      cur, node := res.value.0, node.(simpleContent := Some(res.value.1));
    }
    if res0.base == "" {
      return Fail(NotImplemented("xsd:extension/@base empty, cannot extend unknown type"));
    }
    ghost var atBase := cur;
    var base := ResolveBase(cur, sch, res0.base, "xsd:extension");
    if base.Fail? {
      return Fail(base.error);
    }
    FrozenTrans(w, cur, base.value.0);
    FrozenTrans(atAttrs, cur, base.value.0);
    cur, node := base.value.0, node.(typ := Some(base.value.1));
    var compiled := TypeCompile(cur, base.value.1, sch, parent, fuel);
    if compiled.Fail? {
      return Fail(compiled.error);
    }
    FrozenTrans(w, cur, compiled.value);
    FrozenTrans(atAttrs, cur, compiled.value);
    FrozenTrans(atBase, cur, compiled.value);
    FrozenKeepsHandles(cur, compiled.value, base.value.1);
    assert Frozen(w, atBase) && Frozen(atBase, compiled.value) && ResolvesType(atBase, sch, res0.base, base.value.1);
    FrozenRefl(w);
    forall i | 0 <= i < |res0.attributesDirect|
      ensures AttrBetween(w, compiled.value, res0.attributesDirect[i], node.attributesDirect[i], sch)
    {
      AttrWiden(w, w, atAttrs, compiled.value, res0.attributesDirect[i], node.attributesDirect[i], sch);
    }
    r := Ok((compiled.value, node));
  }

  /** What AttributeGroup.compile makes of `ag`, apart from the bindings:
      the group is bound to the schema, a reference gets its type, and the
      declared attributes keep their number. */
  predicate GroupShape(ag: AttributeGroup, ag': AttributeGroup, sch: SchemaId) {
    ag'.schema == Some(sch) && ag'.name == ag.name && ag'.ref == ag.ref &&
    |ag'.attributesDirect| == |ag.attributesDirect| &&
    (ag.ref != "" ==> ag'.typ.Some?) && (ag.ref == "" ==> ag'.typ == ag.typ)
  }

  /** A pass from `w` to `w'` compiled each group of `ags` into the group of
      `ags'` at the same position, resolving each reference in a world of the
      pass. */
  ghost predicate GroupsBetween(w: World, w': World, ags: seq<AttributeGroup>, ags': seq<AttributeGroup>, sch: SchemaId) {
    |ags'| == |ags| &&
    forall i :: 0 <= i < |ags| ==>
      GroupShape(ags[i], ags'[i], sch) && (ags[i].ref != "" ==> BaseBetween(w, w', sch, ags[i].ref, ags'[i].typ.value))
  }

  lemma GroupsWiden(w0: World, w: World, w': World, w1: World, ags: seq<AttributeGroup>, ags': seq<AttributeGroup>, sch: SchemaId)
    requires Frozen(w0, w) && Frozen(w', w1) && GroupsBetween(w, w', ags, ags', sch)
    ensures GroupsBetween(w0, w1, ags, ags', sch)
  {
    forall i | 0 <= i < |ags| && ags[i].ref != "" ensures BaseBetween(w0, w1, sch, ags[i].ref, ags'[i].typ.value) {
      BaseWiden(w0, w, w', w1, sch, ags[i].ref, ags'[i].typ.value);
    }
  }

  /** One turn of GroupListCompile: the groups compiled so far and this one
      all lie within the whole pass. */
  lemma GroupListStep(w: World, cur: World, next: World, ags: seq<AttributeGroup>, out: seq<AttributeGroup>, ag': AttributeGroup, sch: SchemaId)
    requires |out| < |ags| && Frozen(w, cur) && Frozen(cur, next)
    requires GroupsBetween(w, cur, ags[..|out|], out, sch)
    requires GroupShape(ags[|out|], ag', sch)
    requires ags[|out|].ref != "" ==> ResolvesType(cur, sch, ags[|out|].ref, ag'.typ.value)
    ensures GroupsBetween(w, next, ags[..|out| + 1], out + [ag'], sch)
  {
    FrozenRefl(next);
    GroupsWiden(w, w, cur, next, ags[..|out|], out, sch);
    FrozenRefl(cur);
    if ags[|out|].ref != "" {
      assert Frozen(w, cur) && Frozen(cur, next) && ResolvesType(cur, sch, ags[|out|].ref, ag'.typ.value);
    }
  }

  /** AttributeGroup.compile (attributegroup.go:26-51). */
  method GroupCompile(w: World, ag: AttributeGroup, sch: SchemaId, parent: Option<Element>, fuel: nat)
    returns (r: Result<(World, AttributeGroup)>)
    requires sch < |w|
    ensures r.Ok? ==> Frozen(w, r.value.0)
    ensures r.Ok? ==> var ag' := r.value.1;
      ag'.schema == Some(sch) && ag'.name == ag.name && ag'.ref == ag.ref &&
      |ag'.attributesDirect| == |ag.attributesDirect|
    ensures r.Ok? && ag.ref != "" ==> r.value.1.typ.Some? && TypeAt(r.value.0, r.value.1.typ.value).Some?
    ensures r.Ok? && ag.ref == "" ==> r.value.1.typ == ag.typ
    ensures r.Ok? && ag.typ.None? && ag.ref == "" ==> Distinct(NamesOf(AttrGoName, r.value.1.attributesDirect))
    ensures r.Ok? && ag.ref != "" ==> ResolvesType(w, sch, ag.ref, r.value.1.typ.value)
    ensures r.Ok? && ag.typ.None? && ag.ref == "" ==> forall i :: 0 <= i < |ag.attributesDirect| ==>
      r.value.1.attributesDirect[i].duplicateCount == NumberedGoNames(ag.attributesDirect)[i].duplicateCount &&
      AttrBetween(w, r.value.0, ag.attributesDirect[i],
                  r.value.1.attributesDirect[i].(duplicateCount := ag.attributesDirect[i].duplicateCount), sch)
    decreases fuel, 1, ag
  {
    var cur := w;
    var node := ag.(schema := Some(sch));
    if ag.ref != "" {
      var base := ResolveBase(cur, sch, ag.ref, "xsd:attributeGroup");
      if base.Fail? {
        return Fail(base.error);
      }
      cur, node := base.value.0, node.(typ := Some(base.value.1));
      var compiled := TypeCompile(cur, base.value.1, sch, parent, fuel);
      if compiled.Fail? {
        return Fail(compiled.error);
      }
      FrozenTrans(w, cur, compiled.value);
      FrozenKeepsHandles(cur, compiled.value, base.value.1);
      cur := compiled.value;
    }
    var listed := GroupAttributes(cur, node, TypeDepth(cur));
    var numbered := CompileAndNumber(cur, listed, sch);
    if numbered.Fail? {
      return Fail(numbered.error);
    }
    FrozenTrans(w, cur, numbered.value.0);
    if node.typ.Some? {
      FrozenKeepsHandles(cur, numbered.value.0, node.typ.value);
    }
    if node.typ.None? {
      assert listed == node.attributesDirect + [];
    }
    node := node.(attributesDirect := Landed(node.attributesDirect, listed, numbered.value.1));
    r := Ok((numbered.value.0, node));
  }

  // ---------------------------------------------------------------------
  // Sequences, choices, elements
  // ---------------------------------------------------------------------

  /** The elements a list of compiled choices contributes, in order. */
  function ChoiceElements(choices: seq<Choice>): seq<Element> {
    if choices == [] then [] else ChoiceElements(choices[..|choices| - 1]) + choices[|choices| - 1].allElements
  }

  /** What compile keeps of an element: everything it was declared with. */
  predicate SameElement(e: Element, e': Element) {
    e'.name == e.name && e'.typ == e.typ && e'.ref == e.ref &&
    e'.minOccurs == e.minOccurs && e'.maxOccurs == e.maxOccurs &&
    e'.complexType.Some? == e.complexType.Some? && e'.simpleType == e.simpleType
  }

  /** The world Element.compile reads the type reference in: the one its
      reference lookup left behind (element.go:113-125). */
  function AfterRef(w: World, e: Element, sch: SchemaId): (w': World)
    requires sch < |w|
    ensures |w'| == |w|
  {
    if e.ref != "" && FindReferencedElement(w, sch, e.ref).Ok? then FindReferencedElement(w, sch, e.ref).value.0 else w
  }

  /** What Element.compile binds, read in the world `m` of its turn: the
      declaration the reference names and the type the type names. The
      cardinality and the inline type are left to other predicates. */
  predicate ElementBound(m: World, e: Element, e': Element, sch: SchemaId) {
    sch < |m| && e'.schema == Some(sch) &&
    e'.name == e.name && e'.typ == e.typ && e'.ref == e.ref &&
    e'.complexType.Some? == e.complexType.Some? && e'.simpleType == e.simpleType &&
    (e.ref != "" ==>
       FindReferencedElement(m, sch, e.ref).Ok? && e'.refElm == FindReferencedElement(m, sch, e.ref).value.1) &&
    (e.typ != "" ==>
       FindReferencedType(AfterRef(m, e, sch), sch, e.typ).Ok? &&
       e'.refType == FindReferencedType(AfterRef(m, e, sch), sch, e.typ).value.1)
  }

  /** A pass from `w` to `w'` bound `e` as `e'`. */
  ghost predicate ElemBetween(w: World, w': World, e: Element, e': Element, sch: SchemaId) {
    exists m :: Frozen(w, m) && Frozen(m, w') && ElementBound(m, e, e', sch)
  }

  lemma ElemWiden(w0: World, w: World, w': World, w1: World, e: Element, e': Element, sch: SchemaId)
    requires Frozen(w0, w) && Frozen(w', w1) && ElemBetween(w, w', e, e', sch)
    ensures ElemBetween(w0, w1, e, e', sch)
  {
    var m :| Frozen(w, m) && Frozen(m, w') && ElementBound(m, e, e', sch);
    FrozenTrans(w0, w, m);
    FrozenTrans(m, w', w1);
  }

  lemma ElemListWiden(w0: World, w: World, w': World, w1: World, xs: seq<Element>, ys: seq<Element>, sch: SchemaId)
    requires Frozen(w0, w) && Frozen(w', w1) && |ys| == |xs|
    requires forall i :: 0 <= i < |xs| ==> ElemBetween(w, w', xs[i], ys[i], sch)
    ensures forall i :: 0 <= i < |xs| ==> ElemBetween(w0, w1, xs[i], ys[i], sch)
  {
    forall i | 0 <= i < |xs| ensures ElemBetween(w0, w1, xs[i], ys[i], sch) {
      ElemWiden(w0, w, w', w1, xs[i], ys[i], sch);
    }
  }

  /** A pass from `w` to `w'` bound each element of `xs` as the element of
      `ys` at the same position. */
  ghost predicate ElemsBetween(w: World, w': World, xs: seq<Element>, ys: seq<Element>, sch: SchemaId) {
    |ys| == |xs| && forall i :: 0 <= i < |xs| ==> ElemBetween(w, w', xs[i], ys[i], sch)
  }

  /** One turn of SequenceListCompile: the bindings made by earlier
      sequences and by this one all lie within the whole pass. */
  lemma SeqListStep(w: World, cur: World, next: World, ss: seq<Sequence>, out: seq<Sequence>, s': Sequence, sch: SchemaId)
    requires |out| < |ss| && Frozen(w, cur) && Frozen(cur, next)
    requires forall k :: 0 <= k < |out| ==> ElemsBetween(w, cur, ss[k].elementList, out[k].elementList, sch)
    requires ElemsBetween(cur, next, ss[|out|].elementList, s'.elementList, sch)
    ensures forall k :: 0 <= k <= |out| ==> ElemsBetween(w, next, ss[k].elementList, (out + [s'])[k].elementList, sch)
  {
    FrozenRefl(w);
    FrozenRefl(next);
    forall k | 0 <= k <= |out| ensures ElemsBetween(w, next, ss[k].elementList, (out + [s'])[k].elementList, sch) {
      if k < |out| {
        ElemListWiden(w, w, cur, next, ss[k].elementList, out[k].elementList, sch);
      } else {
        ElemListWiden(w, cur, next, next, ss[k].elementList, s'.elementList, sch);
      }
    }
  }

  /** One turn of ChoiceListCompile, as SeqListStep. */
  lemma ChoiceListStep(w: World, cur: World, next: World, cs: seq<Choice>, out: seq<Choice>, c': Choice, sch: SchemaId)
    requires |out| < |cs| && Frozen(w, cur) && Frozen(cur, next)
    requires forall k :: 0 <= k < |out| ==> ElemsBetween(w, cur, cs[k].elementList, out[k].elementList, sch)
    requires ElemsBetween(cur, next, cs[|out|].elementList, c'.elementList, sch)
    ensures forall k :: 0 <= k <= |out| ==> ElemsBetween(w, next, cs[k].elementList, (out + [c'])[k].elementList, sch)
  {
    FrozenRefl(w);
    FrozenRefl(next);
    forall k | 0 <= k <= |out| ensures ElemsBetween(w, next, cs[k].elementList, (out + [c'])[k].elementList, sch) {
      if k < |out| {
        ElemListWiden(w, w, cur, next, cs[k].elementList, out[k].elementList, sch);
      } else {
        ElemListWiden(w, cur, next, next, cs[k].elementList, c'.elementList, sch);
      }
    }
  }

  /** One turn of ElementListCompile. */
  lemma ElemListStep(w: World, cur: World, els: seq<Element>, out: seq<Element>, sch: SchemaId, next: World, e': Element)
    requires |out| < |els| && Frozen(w, cur) && Frozen(cur, next)
    requires forall k :: 0 <= k < |out| ==> ElemBetween(w, cur, els[k], out[k], sch)
    requires ElementBound(cur, els[|out|], e', sch)
    ensures forall k :: 0 <= k <= |out| ==> ElemBetween(w, next, els[k], (out + [e'])[k], sch)
  {
    FrozenRefl(w);
    forall k | 0 <= k <= |out| ensures ElemBetween(w, next, els[k], (out + [e'])[k], sch) {
      if k < |out| {
        ElemWiden(w, w, cur, next, els[k], out[k], sch);
      } else {
        assert Frozen(w, cur) && Frozen(cur, next) && ElementBound(cur, els[k], e', sch);
      }
    }
  }

  /** Handing the choice's cardinality down keeps what the element is
      bound to. */
  lemma PropagateKeepsBinding(w: World, w': World, choiceMax: string, xs: seq<Element>, ys: seq<Element>, sch: SchemaId)
    requires |ys| == |xs| && forall i :: 0 <= i < |xs| ==> ElemBetween(w, w', xs[i], ys[i], sch)
    ensures forall i :: 0 <= i < |xs| ==> ElemBetween(w, w', xs[i], PropagateAll(choiceMax, ys)[i], sch)
  {
    forall i | 0 <= i < |xs| ensures ElemBetween(w, w', xs[i], PropagateAll(choiceMax, ys)[i], sch) {
      var m :| Frozen(w, m) && Frozen(m, w') && ElementBound(m, xs[i], ys[i], sch);
      assert ElementBound(m, xs[i], Propagate(choiceMax, ys[i]), sch);
    }
  }

  /** Compiles the elements of one list in order (the element loops of
      sequence.go:20-23, 52-55 and choice.go:19-22). */
  method ElementListCompile(w: World, els: seq<Element>, sch: SchemaId, parent: Option<Element>, fuel: nat)
    returns (r: Result<(World, seq<Element>)>)
    requires sch < |w|
    ensures r.Ok? ==> Frozen(w, r.value.0) && |r.value.1| == |els|
    ensures r.Ok? ==> forall i :: 0 <= i < |els| ==> SameElement(els[i], r.value.1[i]) && r.value.1[i].schema == Some(sch)
    ensures r.Ok? ==> forall i :: 0 <= i < |els| ==> ElemBetween(w, r.value.0, els[i], r.value.1[i], sch)
    decreases fuel, 1, els
  {
    var cur := w;
    var out: seq<Element> := [];
    var i := 0;
    FrozenRefl(w);
    while i < |els|
      invariant 0 <= i <= |els| && |out| == i
      invariant Frozen(w, cur)
      invariant forall k :: 0 <= k < i ==> SameElement(els[k], out[k]) && out[k].schema == Some(sch)
      invariant forall k :: 0 <= k < i ==> ElemBetween(w, cur, els[k], out[k], sch)
    {
      var res := ElementCompile(cur, els[i], sch, parent, false, fuel);
      if res.Fail? {
        return Fail(res.error);
      }
      ElemListStep(w, cur, els, out, sch, res.value.0, res.value.1);
      FrozenTrans(w, cur, res.value.0);
      cur := res.value.0;
      out := out + [res.value.1];
      i := i + 1;
    }
    r := Ok((cur, out));
  }

  /** Compiles the attribute groups of an extension in order
      (extension.go:105-108). */
  method GroupListCompile(w: World, ags: seq<AttributeGroup>, sch: SchemaId, parent: Option<Element>, fuel: nat)
    returns (r: Result<(World, seq<AttributeGroup>)>)
    requires sch < |w|
    ensures r.Ok? ==> Frozen(w, r.value.0) && |r.value.1| == |ags|
    ensures r.Ok? ==> GroupsBetween(w, r.value.0, ags, r.value.1, sch)
    decreases fuel, 1, ags
  {
    var cur := w;
    var out: seq<AttributeGroup> := [];
    var i := 0;
    FrozenRefl(w);
    while i < |ags|
      invariant 0 <= i <= |ags| && |out| == i
      invariant Frozen(w, cur)
      invariant GroupsBetween(w, cur, ags[..i], out, sch)
    {
      var res := GroupCompile(cur, ags[i], sch, parent, fuel);
      if res.Fail? {
        return Fail(res.error);
      }
      GroupListStep(w, cur, res.value.0, ags, out, res.value.1, sch);
      FrozenTrans(w, cur, res.value.0);
      cur := res.value.0;
      out := out + [res.value.1];
      i := i + 1;
    }
    assert ags[..i] == ags;
    r := Ok((cur, out));
  }

  /** Compiles the choices of a sequence in order (sequence.go:26-31,
      58-63). */
  method ChoiceListCompile(w: World, cs: seq<Choice>, sch: SchemaId, parent: Option<Element>, fuel: nat)
    returns (r: Result<(World, seq<Choice>)>)
    requires sch < |w|
    ensures r.Ok? ==> Frozen(w, r.value.0) && |r.value.1| == |cs|
    ensures r.Ok? ==> forall i :: 0 <= i < |cs| ==> ChoiceShape(cs[i], r.value.1[i], sch)
    ensures r.Ok? ==> forall i :: 0 <= i < |cs| ==> ElemsBetween(w, r.value.0, cs[i].elementList, r.value.1[i].elementList, sch)
    decreases fuel, 1, cs
  {
    var cur := w;
    var out: seq<Choice> := [];
    var i := 0;
    FrozenRefl(w);
    while i < |cs|
      invariant 0 <= i <= |cs| && |out| == i
      invariant Frozen(w, cur)
      invariant forall k :: 0 <= k < i ==> ChoiceShape(cs[k], out[k], sch)
      invariant forall k :: 0 <= k < i ==> ElemsBetween(w, cur, cs[k].elementList, out[k].elementList, sch)
    {
      var res := ChoiceCompile(cur, cs[i], sch, parent, fuel);
      if res.Fail? {
        return Fail(res.error);
      }
      assert ElemsBetween(cur, res.value.0, cs[i].elementList, res.value.1.elementList, sch);
      ChoiceListStep(w, cur, res.value.0, cs, out, res.value.1, sch);
      FrozenTrans(w, cur, res.value.0);
      var c' := res.value.1;
      cur := res.value.0;
      out := out + [c'];
      i := i + 1;
    }
    r := Ok((cur, out));
  }

  /** The flattened list of a sequence: its direct elements, then each
      choice's elements in order. */
  method Flatten(els: seq<Element>, choices: seq<Choice>) returns (all: seq<Element>)
    ensures all == els + ChoiceElements(choices)
  {
    all := els;
    var j := 0;
    while j < |choices|
      invariant 0 <= j <= |choices|
      invariant all == els + ChoiceElements(choices[..j])
    {
      assert choices[..j + 1][..j] == choices[..j];
      all := all + choices[j].allElements;
      j := j + 1;
    }
    assert choices[..j] == choices;
  }

  /** What Sequence.compile makes of `s`, apart from the bindings: the same
      particles, the flattened list, and xsd:any bound to the schema unless
      inside xsd:all. */
  predicate SequenceShape(s: Sequence, s': Sequence, sch: SchemaId, isAll: bool) {
    |s'.elementList| == |s.elementList| && |s'.choices| == |s.choices| && |s'.any| == |s.any| &&
    (forall i :: 0 <= i < |s.elementList| ==> SameElement(s.elementList[i], s'.elementList[i])) &&
    s'.allElements == s'.elementList + ChoiceElements(s'.choices) &&
    (forall i :: 0 <= i < |s.any| ==> s'.any[i] == if isAll then s.any[i] else s.any[i].(schema := Some(sch)))
  }

  /** Sequence.compile and SequenceAll.compile (sequence.go:19-37, 51-64):
      the flattened list is the direct elements followed by each nested
      choice's elements; xsd:any particles (not in xsd:all) are only bound
      to the schema. */
  method SequenceCompile(w: World, s: Sequence, sch: SchemaId, parent: Option<Element>, isAll: bool, fuel: nat)
    returns (r: Result<(World, Sequence)>)
    requires sch < |w|
    ensures r.Ok? ==> Frozen(w, r.value.0) && SequenceShape(s, r.value.1, sch, isAll)
    ensures r.Ok? ==> forall i :: 0 <= i < |s.elementList| ==>
      ElemBetween(w, r.value.0, s.elementList[i], r.value.1.elementList[i], sch)
    decreases fuel, 1, s
  {
    var els := ElementListCompile(w, s.elementList, sch, parent, fuel);
    if els.Fail? {
      return Fail(els.error);
    }
    var choices := ChoiceListCompile(els.value.0, s.choices, sch, parent, fuel);
    if choices.Fail? {
      return Fail(choices.error);
    }
    FrozenTrans(w, els.value.0, choices.value.0);
    FrozenRefl(w);
    ElemListWiden(w, w, els.value.0, choices.value.0, s.elementList, els.value.1, sch);
    var all := Flatten(els.value.1, choices.value.1);
    var anys := s.any;
    if !isAll {
      anys := seq(|s.any|, k requires 0 <= k < |s.any| => s.any[k].(schema := Some(sch)));
    }
    r := Ok((choices.value.0, Sequence(els.value.1, choices.value.1, anys, all)));
  }

  /** Compiles the sequences of a choice in order (choice.go:34-36). */
  method SequenceListCompile(w: World, ss: seq<Sequence>, sch: SchemaId, parent: Option<Element>, fuel: nat)
    returns (r: Result<(World, seq<Sequence>)>)
    requires sch < |w|
    ensures r.Ok? ==> Frozen(w, r.value.0) && |r.value.1| == |ss|
    ensures r.Ok? ==> forall k :: 0 <= k < |ss| ==> SequenceShape(ss[k], r.value.1[k], sch, false)
    ensures r.Ok? ==> forall k :: 0 <= k < |ss| ==> ElemsBetween(w, r.value.0, ss[k].elementList, r.value.1[k].elementList, sch)
    decreases fuel, 1, ss
  {
    var cur := w;
    var out: seq<Sequence> := [];
    var i := 0;
    FrozenRefl(w);
    while i < |ss|
      invariant 0 <= i <= |ss| && |out| == i
      invariant Frozen(w, cur)
      invariant forall k :: 0 <= k < i ==> SequenceShape(ss[k], out[k], sch, false)
      invariant forall k :: 0 <= k < i ==> ElemsBetween(w, cur, ss[k].elementList, out[k].elementList, sch)
    {
      var res := SequenceCompile(cur, ss[i], sch, parent, false, fuel);
      if res.Fail? {
        return Fail(res.error);
      }
      assert ElemsBetween(cur, res.value.0, ss[i].elementList, res.value.1.elementList, sch);
      SeqListStep(w, cur, res.value.0, ss, out, res.value.1, sch);
      FrozenTrans(w, cur, res.value.0);
      cur := res.value.0;
      out := out + [res.value.1];
      i := i + 1;
    }
    r := Ok((cur, out));
  }

  /** The cardinality a choice hands down to an element: an unbounded choice
      makes it unbounded, and a missing minOccurs becomes "0". */
  function Propagate(choiceMax: string, e: Element): (r: Element)
    ensures choiceMax == "unbounded" ==> r.maxOccurs == "unbounded"
    ensures choiceMax != "unbounded" ==> r.maxOccurs == e.maxOccurs
    ensures r.minOccurs == if e.minOccurs == "" then "0" else e.minOccurs
    ensures r == e.(maxOccurs := r.maxOccurs, minOccurs := r.minOccurs)
  {
    e.(maxOccurs := if choiceMax == "unbounded" then "unbounded" else e.maxOccurs,
       minOccurs := if e.minOccurs == "" then "0" else e.minOccurs)
  }

  function PropagateAll(choiceMax: string, els: seq<Element>): (r: seq<Element>)
    ensures |r| == |els| && forall i :: 0 <= i < |els| ==> r[i] == Propagate(choiceMax, els[i])
  {
    seq(|els|, i requires 0 <= i < |els| => Propagate(choiceMax, els[i]))
  }

  /** The elements a choice takes from its nested sequences, each with the
      cardinality handed down. */
  function Inherited(choiceMax: string, seqs: seq<Sequence>): (r: seq<Element>)
  {
    if seqs == [] then []
    else Inherited(choiceMax, seqs[..|seqs| - 1]) + PropagateAll(choiceMax, seqs[|seqs| - 1].allElements)
  }

  /** The cardinality loop over the choice's own elements (choice.go:23-29). */
  method PropagateElements(choiceMax: string, els: seq<Element>) returns (out: seq<Element>)
    ensures out == PropagateAll(choiceMax, els)
  {
    out := [];
    var i := 0;
    while i < |els|
      invariant 0 <= i <= |els| && out == PropagateAll(choiceMax, els[..i])
    {
      var el := els[i];
      if choiceMax == "unbounded" {
        el := el.(maxOccurs := "unbounded");
      }
      if el.minOccurs == "" {
        el := el.(minOccurs := "0");
      }
      assert els[..i + 1] == els[..i] + [els[i]];
      out := out + [el];
      i := i + 1;
    }
    assert els[..i] == els;
  }

  /** The elements gathered from the compiled sequences (choice.go:37-45). */
  method InheritElements(choiceMax: string, seqs: seq<Sequence>) returns (inherited: seq<Element>)
    ensures inherited == Inherited(choiceMax, seqs)
  {
    inherited := [];
    var k := 0;
    while k < |seqs|
      invariant 0 <= k <= |seqs| && inherited == Inherited(choiceMax, seqs[..k])
    {
      var taken := PropagateElements(choiceMax, seqs[k].allElements);
      assert seqs[..k + 1][..k] == seqs[..k];
      inherited := inherited + taken;
      k := k + 1;
    }
    assert seqs[..k] == seqs;
  }

  /** What Choice.compile makes of `c`, apart from the bindings and the
      deduplicated list: the same cardinality, the own elements with that
      cardinality handed down, and each sequence compiled in turn. */
  predicate ChoiceShape(c: Choice, c': Choice, sch: SchemaId) {
    c'.schema == Some(sch) && c'.minOccurs == c.minOccurs && c'.maxOccurs == c.maxOccurs &&
    |c'.elementList| == |c.elementList| && |c'.sequences| == |c.sequences| &&
    (forall i :: 0 <= i < |c.elementList| ==> PropagatedFrom(c.maxOccurs, c.elementList[i], c'.elementList[i])) &&
    (forall k :: 0 <= k < |c.sequences| ==> SequenceShape(c.sequences[k], c'.sequences[k], sch, false))
  }

  /** Choice.compile (choice.go:17-50): the choice's own elements, with the
      choice's cardinality handed down, followed by the elements of its
      sequences, likewise handed down and with repeated names dropped. */
  method ChoiceCompile(w: World, c: Choice, sch: SchemaId, parent: Option<Element>, fuel: nat)
    returns (r: Result<(World, Choice)>)
    requires sch < |w|
    ensures r.Ok? ==> Frozen(w, r.value.0)
    ensures r.Ok? ==> ChoiceShape(c, r.value.1, sch)
    ensures r.Ok? ==> var c' := r.value.1;
      c'.allElements == c'.elementList + Dedup(Inherited(c.maxOccurs, c'.sequences), NameKey(r.value.0))
    ensures r.Ok? ==> forall i :: 0 <= i < |c.elementList| ==>
      ElemBetween(w, r.value.0, c.elementList[i], r.value.1.elementList[i], sch)
    decreases fuel, 1, c
  {
    var els := ElementListCompile(w, c.elementList, sch, parent, fuel);
    if els.Fail? {
      return Fail(els.error);
    }
    var propagated := PropagateElements(c.maxOccurs, els.value.1);
    var seqs := SequenceListCompile(els.value.0, c.sequences, sch, parent, fuel);
    if seqs.Fail? {
      return Fail(seqs.error);
    }
    FrozenTrans(w, els.value.0, seqs.value.0);
    FrozenRefl(w);
    ElemListWiden(w, w, els.value.0, seqs.value.0, c.elementList, els.value.1, sch);
    PropagateKeepsBinding(w, seqs.value.0, c.maxOccurs, c.elementList, els.value.1, sch);
    var inherited := InheritElements(c.maxOccurs, seqs.value.1);
    var cur := seqs.value.0;
    r := Ok((cur, Choice(c.minOccurs, c.maxOccurs, propagated, seqs.value.1, Some(sch), propagated + Dedup(inherited, NameKey(cur)))));
  }

  /** An element of a choice after compile: declared as `e`, with the
      choice's cardinality handed down. */
  predicate PropagatedFrom(choiceMax: string, e: Element, e': Element) {
    e'.name == e.name && e'.typ == e.typ && e'.ref == e.ref && e'.simpleType == e.simpleType &&
    e'.maxOccurs == (if choiceMax == "unbounded" then "unbounded" else e.maxOccurs) &&
    e'.minOccurs == (if e.minOccurs == "" then "0" else e.minOccurs)
  }

  /** Whether compile registers the element as inlined (element.go:134-136
      with schema.go:361-371): it names no reference and no type, is not a
      plain string, and is not one of the schema's top-level elements. */
  predicate Inlines(e: Element, topLevel: bool) {
    e.ref == "" && e.typ == "" && !IsPlainString(e) && !topLevel
  }

  /** The failure for an element with both an inline and a referenced type
      (the source's text, without a space before "defines"). */
  function BothTypesError(name: string): (err: Error)
    ensures err.NotImplemented?
  {
    NotImplemented("element " + name + "defines complexType and refType")
  }

  /** Element.compile (element.go:112-137). `topLevel` says whether the
      element is one of its schema's top-level declarations, which
      isElementInlined finds and never registers. */
  method ElementCompile(w: World, e: Element, sch: SchemaId, parent: Option<Element>, topLevel: bool, fuel: nat)
    returns (r: Result<(World, Element)>)
    requires sch < |w|
    ensures r.Ok? ==> Frozen(w, r.value.0)
    ensures r.Ok? ==> var e' := r.value.1;
      SameElement(e, e') && e'.schema == Some(sch) &&
      (e.ref != "" ==> e'.refElm.Some?) && (e.typ != "" ==> e'.refType.Some?)
    ensures r.Ok? ==> !(e.complexType.Some? && e.typ != "")
    ensures Inlines(e, topLevel) && e.name == "" ==> r.Fail?
    ensures r.Ok? && Inlines(e, topLevel) ==>
      var inl := r.value.0[sch].inlinedElements;
      |inl| > 0 && inl[|inl| - 1] == r.value.1 &&
      (parent.Some? ==> r.value.1.nameOverride != "")
    ensures r.Ok? && !Inlines(e, topLevel) && e.complexType.None? ==>
      r.value.0[sch].inlinedElements == w[sch].inlinedElements
    ensures r.Ok? ==> ElementBound(w, e, r.value.1, sch)
    decreases fuel, 1, e
  {
    var resolved := ElementResolve(w, e, sch);
    if resolved.Fail? {
      return Fail(resolved.error);
    }
    var cur, node := resolved.value.0, resolved.value.1;
    if node.complexType.Some? && node.refType.Some? {
      return Fail(BothTypesError(ElemName(cur, node)));
    }
    if e.complexType.Some? {
      var res := CtCompile(cur, e.complexType.value, sch, Some(node), fuel);
      if res.Fail? {
        return Fail(res.error);
      }
      FrozenTrans(w, cur, res.value.0);
      cur, node := res.value.0, node.(complexType := Some(res.value.1));
    }
    if Inlines(e, topLevel) {
      var reg := RegisterInlined(cur, node, sch, parent);
      if reg.Fail? {
        return Fail(reg.error);
      }
      FrozenTrans(w, cur, reg.value.0);
      cur, node := reg.value.0, reg.value.1;
    }
    r := Ok((cur, node));
  }

  /** The reference and type lookups of Element.compile (element.go:113-125). */
  method ElementResolve(w: World, e: Element, sch: SchemaId) returns (r: Result<(World, Element)>)
    requires sch < |w|
    ensures r.Ok? ==> Frozen(w, r.value.0) && r.value.0[sch].inlinedElements == w[sch].inlinedElements
    ensures r.Ok? ==> var e' := r.value.1;
      e' == e.(schema := Some(sch), refElm := e'.refElm, refType := e'.refType) &&
      (e.ref != "" ==> e'.refElm.Some? && ElementAt(r.value.0, e'.refElm.value).Some?) &&
      (e.typ != "" ==> e'.refType.Some? && TypeAt(r.value.0, e'.refType.value).Some?) &&
      (e.typ == "" ==> e'.refType == e.refType)
    ensures r.Ok? ==> ElementBound(w, e, r.value.1, sch)
    ensures r.Ok? <==>
      (e.ref == "" || (FindReferencedElement(w, sch, e.ref).Ok? && FindReferencedElement(w, sch, e.ref).value.1.Some?)) &&
      (e.typ == "" || (FindReferencedType(AfterRef(w, e, sch), sch, e.typ).Ok? &&
                       FindReferencedType(AfterRef(w, e, sch), sch, e.typ).value.1.Some?))
    ensures r.Ok? ==>
      r.value.0 == if e.typ == "" then AfterRef(w, e, sch) else FindReferencedType(AfterRef(w, e, sch), sch, e.typ).value.0
    ensures e.ref != "" && FindReferencedElement(w, sch, e.ref).Fail? ==> r == Fail(FindReferencedElement(w, sch, e.ref).error)
    ensures e.ref != "" && FindReferencedElement(w, sch, e.ref).Ok? && FindReferencedElement(w, sch, e.ref).value.1.None? ==>
      r == Fail(CannotResolve("Cannot resolve element reference: " + e.ref))
  {
    var cur := w;
    var node := e.(schema := Some(sch));
    if e.ref != "" {
      var found := FindReferencedElement(cur, sch, e.ref);
      if found.Fail? {
        return Fail(found.error);
      }
      if found.value.1.None? {
        return Fail(CannotResolve("Cannot resolve element reference: " + e.ref));
      }
      ModulesOnlyFrozen(cur, found.value.0, sch);
      cur, node := found.value.0, node.(refElm := found.value.1);
    }
    if e.typ != "" {
      var found := FindReferencedType(cur, sch, e.typ);
      if found.Fail? {
        return Fail(found.error);
      }
      if found.value.1.None? {
        return Fail(CannotResolve("Cannot resolve type reference: " + e.typ));
      }
      ModulesOnlyFrozen(cur, found.value.0, sch);
      FrozenTrans(w, cur, found.value.0);
      if node.refElm.Some? {
        FrozenKeepsDecls(cur, found.value.0, node.refElm.value);
      }
      cur, node := found.value.0, node.(refType := found.value.1);
    }
    r := Ok((cur, node));
  }

  /** Schema.registerInlinedElement (schema.go:349-359) for an element
      isElementInlined accepts: a nameless one is refused; otherwise it is
      renamed after its parent and a copy is appended to the schema's
      inlined elements. */
  method RegisterInlined(w: World, e: Element, sch: SchemaId, parent: Option<Element>) returns (r: Result<(World, Element)>)
    requires sch < |w|
    ensures e.name == "" <==> r.Fail?
    ensures r.Ok? ==> Frozen(w, r.value.0)
    ensures r.Ok? ==> r.value.1 == e.(nameOverride := r.value.1.nameOverride)
    ensures r.Ok? ==>
      r.value.1 == PrefixNameWithParent(w, e, parent) &&
      r.value.0[sch].inlinedElements == w[sch].inlinedElements + [r.value.1] &&
      (parent.Some? ==> r.value.1.nameOverride != "")
  {
    if e.name == "" {
      return Fail(NotImplemented("found inlined xsd:element without @name attribute"));
    }
    var node := PrefixNameWithParent(w, e, parent);
    if parent.Some? {
      PrefixKeepsFieldAndXmlName(w, e, parent.value);
    }
    var s' := w[sch].(inlinedElements := w[sch].inlinedElements + [node]);
    assert Stable(w[sch], s');
    r := Ok((w[sch := s'], node));
  }

  // ---------------------------------------------------------------------
  // Schema.compile
  // ---------------------------------------------------------------------

  /** Schema.compile (schema.go:82-104): a schema without a target namespace
      takes its Go package name as one; then its top-level elements,
      attribute groups, complex types and simple types are compiled in that
      order. */
  method SchemaCompile(w: World, sch: SchemaId, fuel: nat) returns (r: Result<World>)
    requires sch < |w|
    ensures r.Ok? ==> |r.value| == |w| && |r.value[sch].elements| == |w[sch].elements|
    ensures r.Ok? ==>
      r.value[sch].targetNamespace == (if w[sch].targetNamespace == "" then GoPackageName(w[sch]) else w[sch].targetNamespace)
    ensures r.Ok? ==> forall i :: 0 <= i < |w| && i != sch ==> Stable(w[i], r.value[i])
    ensures r.Ok? ==> forall i :: 0 <= i < |w[sch].elements| ==> r.value[sch].elements[i].schema == Some(sch)
    ensures r.Ok? ==> SameSource(w[sch], r.value[sch])
  {
    var cur := w;
    if w[sch].targetNamespace == "" {
      cur := w[sch := w[sch].(targetNamespace := GoPackageName(w[sch]))];
    }
    var withElements := CompileTopElements(cur, sch, fuel);
    if withElements.Fail? {
      return Fail(withElements.error);
    }
    var mid := withElements.value;
    var withTypes := CompileTypeDecls(mid, sch, fuel);
    if withTypes.Fail? {
      return Fail(withTypes.error);
    }
    var last := withTypes.value;
    assert Stable(mid[sch], last[sch]);
    assert Skeleton(last[sch]).imports == Skeleton(mid[sch]).imports;
    assert Skeleton(mid[sch].(elements := cur[sch].elements)) == Skeleton(cur[sch]);
    forall s | 0 <= s < |w| && s != sch ensures Stable(w[s], last[s]) {
      assert w[s] == cur[s] && Stable(mid[s], last[s]);
      assert w[s].inlinedElements <= mid[s].inlinedElements <= last[s].inlinedElements;
    }
    r := Ok(last);
  }

  /** The first loop of Schema.compile (schema.go:88-91): each top-level
      element is compiled and stored back. */
  method CompileTopElements(w: World, sch: SchemaId, fuel: nat) returns (r: Result<World>)
    requires sch < |w|
    ensures r.Ok? ==> |r.value| == |w| && |r.value[sch].elements| == |w[sch].elements|
    ensures r.Ok? ==> forall s :: 0 <= s < |w| && s != sch ==> Stable(w[s], r.value[s])
    ensures r.Ok? ==> Stable(w[sch], r.value[sch].(elements := w[sch].elements))
    ensures r.Ok? ==> forall k :: 0 <= k < |w[sch].elements| ==> r.value[sch].elements[k].schema == Some(sch)
  {
    var cur := w;
    var i := 0;
    while i < |cur[sch].elements|
      invariant |cur| == |w| && 0 <= i <= |cur[sch].elements| == |w[sch].elements|
      invariant forall s :: 0 <= s < |w| && s != sch ==> Stable(w[s], cur[s])
      invariant Stable(w[sch], cur[sch].(elements := w[sch].elements))
      invariant forall k :: 0 <= k < i ==> cur[sch].elements[k].schema == Some(sch)
    {
      var res := ElementCompile(cur, cur[sch].elements[i], sch, None, true, fuel);
      if res.Fail? {
        return Fail(res.error);
      }
      var after := res.value.0;
      assert Stable(cur[sch], after[sch]);
      var next := after[sch := after[sch].(elements := after[sch].elements[i := res.value.1])];
      assert Stable(w[sch], next[sch].(elements := w[sch].elements)) by {
        assert w[sch].inlinedElements <= cur[sch].inlinedElements <= after[sch].inlinedElements;
      }
      cur := next;
      i := i + 1;
    }
    r := Ok(cur);
  }

  /** The other loops of Schema.compile (schema.go:92-103): attribute
      groups, complex types and simple types, each compiled and stored
      back in turn. */
  method CompileTypeDecls(w: World, sch: SchemaId, fuel: nat) returns (r: Result<World>)
    requires sch < |w|
    ensures r.Ok? ==> Frozen(w, r.value)
  {
    var cur := w;
    var j := 0;
    while j < |cur[sch].attributeGroups|
      invariant Frozen(w, cur) && 0 <= j <= |cur[sch].attributeGroups|
    {
      var res := GroupCompile(cur, cur[sch].attributeGroups[j], sch, None, fuel);
      if res.Fail? {
        return Fail(res.error);
      }
      var next := PutGroup(res.value.0, sch, j, res.value.1);
      FrozenTrans(cur, res.value.0, next);
      FrozenTrans(w, cur, next);
      cur := next;
      j := j + 1;
    }
    var k := 0;
    while k < |cur[sch].complexTypes|
      invariant Frozen(w, cur) && 0 <= k <= |cur[sch].complexTypes|
    {
      var res := CtCompile(cur, cur[sch].complexTypes[k], sch, None, fuel);
      if res.Fail? {
        return Fail(res.error);
      }
      var next := PutComplexType(res.value.0, sch, k, res.value.1);
      FrozenTrans(cur, res.value.0, next);
      FrozenTrans(w, cur, next);
      cur := next;
      k := k + 1;
    }
    var m := 0;
    while m < |cur[sch].simpleTypes|
      invariant Frozen(w, cur) && 0 <= m <= |cur[sch].simpleTypes|
    {
      var res := StCompile(cur, cur[sch].simpleTypes[m], sch, None, fuel);
      if res.Fail? {
        return Fail(res.error);
      }
      var next := PutSimpleType(res.value.0, sch, m, res.value.1);
      FrozenTrans(cur, res.value.0, next);
      FrozenTrans(w, cur, next);
      cur := next;
      m := m + 1;
    }
    r := Ok(cur);
  }
}
