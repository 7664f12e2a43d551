/** The workspace (workspace.go, with Import.load and Include.load from
    schema.go): loads a schema file and, recursively, the files it includes
    and imports, and checks that no two cached schemas claim one Go package.

    Reading and decoding a file is the `docs` map from path to parsed
    schema; a path it lacks fails as a file that cannot be opened would.
    Resolving a schemaLocation against the including file's directory is
    the `locate` function. The recursion through includes and imports has
    no visited set for uncached paths, so it is bounded by `fuel`. */
module Workspaces {
  import opened Results
  import opened Decls
  import opened SchemaLookup
  import opened Compile
  import opened SchemaExport
  import XO = XmlnsOverrides

  /** filepath.ToSlash(filepath.Join(filepath.Dir(from), location)). */
  type Locate = (string, string) -> string

  /** The parsed schema of each readable file, by path. */
  type Documents = map<string, Schema>

  /** No two cached paths hold schemas with one Go package name. */
  predicate UniquePackageNames(world: World, cache: map<string, SchemaId>) {
    forall p, q :: p in cache && q in cache && p != q && cache[p] < |world| && cache[q] < |world| ==>
      GoPackageName(world[cache[p]]) != GoPackageName(world[cache[q]])
  }

  /** No two keys map to the same value. */
  predicate ValuesDistinct(m: map<string, string>) {
    forall p, q :: p in m && q in m && p != q ==> m[p] != m[q]
  }

  /** The package name of every cached schema, by path. */
  function PackageNames(world: World, cache: map<string, SchemaId>): (names: map<string, string>)
    ensures names.Keys == cache.Keys
  {
    map p | p in cache :: if cache[p] < |world| then GoPackageName(world[cache[p]]) else ""
  }

  lemma PackageNamesDistinct(world: World, cache: map<string, SchemaId>)
    requires forall p :: p in cache ==> cache[p] < |world|
    ensures ValuesDistinct(PackageNames(world, cache)) <==> UniquePackageNames(world, cache)
  {
  }

  /** The error text Workspace.compile reports for a package name seen twice. */
  function DuplicatePackageMessage(name: string): (msg: string)
    ensures |msg| > |name| + 1 && msg[|msg| - |name| - 1..|msg| - 1] == name
  {
    "malformed workspace; multiple XSD files refer to itself with xmlns shorthand: '" + name + "'"
  }

  /** The message identifies the package: two names give one message only
      when they are the same name. */
  lemma DuplicateMessageNamesPackage(a: string, b: string)
    requires DuplicatePackageMessage(a) == DuplicatePackageMessage(b)
    ensures a == b
  {
    var m := DuplicatePackageMessage(a);
    assert |a| == |b|;
    assert a == m[|m| - |a| - 1..|m| - 1];
  }

  /** The list `tail` is the end of `xs`: what prepending keeps. */
  ghost predicate EndsWith<T>(xs: seq<T>, tail: seq<T>) {
    |tail| <= |xs| && xs[|xs| - |tail|..] == tail
  }

  lemma EndsWithTrans<T>(xs: seq<T>, mid: seq<T>, tail: seq<T>)
    requires EndsWith(xs, mid) && EndsWith(mid, tail)
    ensures EndsWith(xs, tail)
  {
    assert xs[|xs| - |tail|..] == mid[|mid| - |tail|..];
  }

  lemma EndsWithPrepend<T>(front: seq<T>, xs: seq<T>, tail: seq<T>)
    requires EndsWith(xs, tail)
    ensures EndsWith(front + xs, tail)
  {
    assert (front + xs)[|front + xs| - |tail|..] == xs[|xs| - |tail|..];
  }

  lemma StableTrans(a: Schema, b: Schema, c: Schema)
    requires Stable(a, b) && Stable(b, c)
    ensures Stable(a, c)
  {
    assert a.inlinedElements <= b.inlinedElements <= c.inlinedElements;
  }

  /** `b` holds every schema of `a` (but the one at `except`), changed at
      most as compile changes it, and perhaps more schemas after them. */
  predicate Extends(a: World, b: World, except: int) {
    |a| <= |b| && forall i :: 0 <= i < |a| && i != except ==> Stable(a[i], b[i])
  }

  lemma ExtendsTrans(a: World, b: World, c: World, except: int)
    requires Extends(a, b, except) && Extends(b, c, except)
    ensures Extends(a, c, except)
  {
    forall i | 0 <= i < |a| && i != except ensures Stable(a[i], c[i]) {
      StableTrans(a[i], b[i], c[i]);
    }
  }

  /** An include merge keeps the including schema's origin and includes and
      puts the included declarations in front of its own. */
  lemma MergeIncludeKeeps(s: Schema, included: Schema)
    ensures SameOrigin(s, MergeInclude(s, included))
    ensures MergeInclude(s, included).includes == s.includes
    ensures EndsWith(MergeInclude(s, included).elements, s.elements)
    ensures EndsWith(MergeInclude(s, included).attributes, s.attributes)
    ensures EndsWith(MergeInclude(s, included).imports, s.imports)
  {
    EndsWithPrepend(included.elements, s.elements, s.elements);
    EndsWithPrepend(included.attributes, s.attributes, s.attributes);
    EndsWithPrepend(included.imports, s.imports, s.imports);
  }

  /** The fields of a schema that the include and import loops keep. */
  predicate SameOrigin(s: Schema, t: Schema) {
    t.filePath == s.filePath && t.modulesPath == s.modulesPath &&
    t.goPackageNameOverride == s.goPackageNameOverride && |t.includes| == |s.includes|
  }

  class Workspace {
    var cache: map<string, SchemaId>
    var world: World
    var goModulesPath: string
    var xmlnsOverrides: XO.XmlnsOverrideTable

    /** Every cached path names a loaded schema. */
    predicate Valid()
      reads this
    {
      forall p :: p in cache ==> cache[p] < |world|
    }

    /** Since the old state: schemas were only added, the ones that existed
        (but `except`) changed only as compile changes them, cached paths
        kept their schemas, and the configuration stayed. */
    twostate predicate Grows(except: int)
      reads this
    {
      Extends(old(world), world, except) &&
      (forall p :: p in old(cache) ==> p in cache && cache[p] == old(cache)[p]) &&
      goModulesPath == old(goModulesPath) && xmlnsOverrides == old(xmlnsOverrides)
    }

    constructor(goModulesPath: string, xmlnsOverrides: XO.XmlnsOverrideTable)
      ensures this.goModulesPath == goModulesPath && this.xmlnsOverrides == xmlnsOverrides
      ensures cache == map[] && world == []
      ensures Valid()
    {
      this.goModulesPath := goModulesPath;
      this.xmlnsOverrides := xmlnsOverrides;
      cache := map[];
      world := [];
    }

    /** Workspace.loadXsd (workspace.go:34-97). A cached path answers at
        once. Otherwise the parsed schema takes the workspace's module path,
        its own path and its package-name override, enters the cache when
        `useCache` says so (before anything else is loaded), merges its
        includes, loads its imports and is compiled. */
    method LoadXsd(path: string, useCache: bool, docs: Documents, locate: Locate, fuel: nat)
      returns (r: Result<SchemaId>)
      requires Valid()
      modifies this
      ensures Valid() && Grows(-1)
      ensures path in old(cache) ==> r == Ok(old(cache)[path]) && world == old(world) && cache == old(cache)
      ensures r.Ok? ==> r.value < |world|
      ensures path !in old(cache) && (fuel == 0 || path !in docs) ==>
        r.Fail? && world == old(world) && cache == old(cache)
      ensures path !in old(cache) && fuel > 0 && path in docs && useCache ==>
        path in cache && cache[path] == old(|world|)
      ensures path !in old(cache) && r.Ok? ==>
        r.value == old(|world|) && path in docs &&
        world[r.value].filePath == path && world[r.value].modulesPath == goModulesPath &&
        world[r.value].goPackageNameOverride == XO.Override(xmlnsOverrides, docs[path].targetNamespace)
      decreases fuel, 1
    {
      if path in cache {
        return Ok(cache[path]);
      }
      if fuel == 0 {
        return Fail(OutOfFuel);
      }
      if path !in docs {
        return Fail(FileError(path));
      }
      r := LoadParsed(path, useCache, docs, locate, fuel);
    }

    /** The part of loadXsd after the file is parsed (workspace.go:60-95). */
    method LoadParsed(path: string, useCache: bool, docs: Documents, locate: Locate, fuel: nat)
      returns (r: Result<SchemaId>)
      requires Valid() && path in docs && path !in cache && fuel > 0
      modifies this
      ensures Valid() && Grows(-1)
      ensures useCache ==> path in cache && cache[path] == old(|world|)
      ensures r.Ok? ==>
        r.value == old(|world|) && r.value < |world| &&
        world[r.value].filePath == path && world[r.value].modulesPath == goModulesPath &&
        world[r.value].goPackageNameOverride == XO.Override(xmlnsOverrides, docs[path].targetNamespace)
      decreases fuel, 0
    {
      var parsed := docs[path];
      var schema := parsed.(modulesPath := goModulesPath, filePath := path,
                            goPackageNameOverride := XO.Override(xmlnsOverrides, parsed.targetNamespace));
      var id := |world|;
      world := world + [schema];
      if useCache {
        cache := cache[path := id];
      }
      ghost var before := world;
      var loadedDeps := LoadDependencies(id, path, docs, locate, fuel - 1);
      if loadedDeps.Fail? {
        return Fail(loadedDeps.error);
      }
      ghost var loaded := world;
      var compiled := SchemaCompile(world, id, TypeDepth(world));
      if compiled.Fail? {
        return Fail(compiled.error);
      }
      world := compiled.value;
      assert Extends(old(world), before, id);
      ExtendsTrans(old(world), before, loaded, id);
      assert Extends(loaded, world, id);
      ExtendsTrans(old(world), loaded, world, id);
      r := Ok(id);
    }

    /** The include and import loops of loadXsd (workspace.go:71-94). */
    method LoadDependencies(id: SchemaId, from: string, docs: Documents, locate: Locate, fuel: nat)
      returns (r: Result<()>)
      requires Valid() && id < |world|
      modifies this
      ensures Valid() && Grows(id)
      ensures SameOrigin(old(world[id]), world[id])
      decreases fuel, 5
    {
      var included := LoadIncludes(id, from, docs, locate, fuel);
      if included.Fail? {
        return Fail(included.error);
      }
      ghost var mid := world;
      r := LoadImports(id, from, docs, locate, fuel);
      ExtendsTrans(old(world), mid, world, id);
    }

    /** The include loop of loadXsd (workspace.go:71-88): every include is
        loaded and merged in turn, and the first failure ends the load. */
    method LoadIncludes(id: SchemaId, from: string, docs: Documents, locate: Locate, fuel: nat)
      returns (r: Result<()>)
      requires Valid() && id < |world|
      modifies this
      ensures Valid() && Grows(id)
      ensures SameOrigin(old(world[id]), world[id])
      ensures r.Ok? ==>
        EndsWith(world[id].elements, old(world[id].elements)) &&
        EndsWith(world[id].attributes, old(world[id].attributes)) &&
        EndsWith(world[id].imports, old(world[id].imports))
      ensures r.Ok? ==> forall k :: 0 <= k < |world[id].includes| ==>
        world[id].includes[k].includedSchema.Some? && world[id].includes[k].includedSchema.value < |world|
      decreases fuel, 4
    {
      var idx := 0;
      while idx < |world[id].includes|
        invariant Valid() && id < |world| && Grows(id)
        invariant SameOrigin(old(world[id]), world[id]) && 0 <= idx <= |world[id].includes|
        invariant EndsWith(world[id].elements, old(world[id].elements))
        invariant EndsWith(world[id].attributes, old(world[id].attributes))
        invariant EndsWith(world[id].imports, old(world[id].imports))
        invariant forall k :: 0 <= k < idx ==>
          world[id].includes[k].includedSchema.Some? && world[id].includes[k].includedSchema.value < |world|
      {
        ghost var before := world;
        var one := IncludeOne(id, idx, from, docs, locate, fuel);
        if one.Fail? {
          ExtendsTrans(old(world), before, world, id);
          return Fail(one.error);
        }
        ExtendsTrans(old(world), before, world, id);
        EndsWithTrans(world[id].elements, before[id].elements, old(world[id].elements));
        EndsWithTrans(world[id].attributes, before[id].attributes, old(world[id].attributes));
        EndsWithTrans(world[id].imports, before[id].imports, old(world[id].imports));
        idx := idx + 1;
      }
      r := Ok(());
    }

    /** One turn of the include loop (workspace.go:72-87): the include is
        located, then its declarations are merged in front of the schema's
        own. An include without a location leaves a nil schema to merge,
        which the source dereferences. */
    method IncludeOne(id: SchemaId, idx: nat, from: string, docs: Documents, locate: Locate, fuel: nat)
      returns (r: Result<()>)
      requires Valid() && id < |world| && idx < |world[id].includes|
      modifies this
      ensures Valid() && Grows(id)
      ensures SameOrigin(old(world[id]), world[id])
      ensures forall k :: 0 <= k < |world[id].includes| && k != idx ==>
        world[id].includes[k] == old(world[id].includes[k])
      ensures r.Ok? ==>
        EndsWith(world[id].elements, old(world[id].elements)) &&
        EndsWith(world[id].attributes, old(world[id].attributes)) &&
        EndsWith(world[id].imports, old(world[id].imports))
      ensures r.Ok? ==>
        world[id].includes[idx].includedSchema.Some? && world[id].includes[idx].includedSchema.value < |world|
      decreases fuel, 3
    {
      var located := LocateInclude(id, idx, from, docs, locate, fuel);
      if located.Fail? {
        return Fail(located.error);
      }
      var isch := world[id].includes[idx].includedSchema;
      if isch.None? || isch.value >= |world| {
        return Fail(NilDereference("included schema is nil"));
      }
      var s := world[id];
      MergeIncludeKeeps(s, world[isch.value]);
      ghost var before := world;
      world := world[id := MergeInclude(s, world[isch.value])];
      assert Extends(before, world, id);
      ExtendsTrans(old(world), before, world, id);
      r := Ok(());
    }

    /** Include.load (schema.go:395-401) as the include loop calls it: an
        include with a location is loaded with caching and the loaded schema
        recorded on it; an include without one is left alone. */
    method LocateInclude(id: SchemaId, idx: nat, from: string, docs: Documents, locate: Locate, fuel: nat)
      returns (r: Result<()>)
      requires Valid() && id < |world| && idx < |world[id].includes|
      modifies this
      ensures Valid() && Grows(id)
      ensures SameOrigin(old(world[id]), world[id])
      ensures world[id].elements == old(world[id].elements) && world[id].attributes == old(world[id].attributes)
      ensures world[id].imports == old(world[id].imports)
      ensures |world[id].includes| == |old(world[id].includes)|
      ensures forall k :: 0 <= k < |world[id].includes| && k != idx ==>
        world[id].includes[k] == old(world[id].includes[k])
      ensures r.Ok? && world[id].includes[idx].schemaLocation != "" ==>
        world[id].includes[idx].includedSchema.Some? && world[id].includes[idx].includedSchema.value < |world|
      ensures world[id].includes[idx].schemaLocation == "" ==> world[id].includes[idx] == old(world[id].includes[idx])
      decreases fuel, 2
    {
      var si := world[id].includes[idx];
      if si.schemaLocation != "" {
        var loaded := LoadXsd(locate(from, si.schemaLocation), true, docs, locate, fuel);
        if loaded.Fail? {
          return Fail(loaded.error);
        }
        assert Skeleton(world[id]) == Skeleton(old(world[id]));
        var s := world[id];
        world := world[id := s.(includes := s.includes[idx := si.(includedSchema := Some(loaded.value))])];
      }
      r := Ok(());
    }

    /** The import loop of loadXsd (workspace.go:90-94): every import is
        loaded in turn, and the first failure ends the load. */
    method LoadImports(id: SchemaId, from: string, docs: Documents, locate: Locate, fuel: nat)
      returns (r: Result<()>)
      requires Valid() && id < |world|
      modifies this
      ensures Valid() && Grows(id)
      ensures SameOrigin(old(world[id]), world[id])
      ensures world[id].elements == old(world[id].elements) && world[id].attributes == old(world[id].attributes)
      ensures |world[id].imports| == |old(world[id].imports)|
      ensures forall k :: 0 <= k < |world[id].imports| ==>
        world[id].imports[k] == old(world[id].imports[k]).(importedSchema := world[id].imports[k].importedSchema)
      ensures r.Ok? ==> forall k :: 0 <= k < |world[id].imports| ==>
        if world[id].imports[k].schemaLocation == "" then world[id].imports[k] == old(world[id].imports[k])
        else world[id].imports[k].importedSchema.Some? && world[id].imports[k].importedSchema.value < |world|
      decreases fuel, 4
    {
      var idx := 0;
      while idx < |world[id].imports|
        invariant Valid() && id < |world| && Grows(id)
        invariant SameOrigin(old(world[id]), world[id])
        invariant world[id].elements == old(world[id].elements) && world[id].attributes == old(world[id].attributes)
        invariant |world[id].imports| == |old(world[id].imports)| && 0 <= idx <= |world[id].imports|
        invariant forall k :: 0 <= k < |world[id].imports| ==>
          world[id].imports[k] == old(world[id].imports[k]).(importedSchema := world[id].imports[k].importedSchema)
        invariant forall k :: idx <= k < |world[id].imports| ==> world[id].imports[k] == old(world[id].imports[k])
        invariant forall k :: 0 <= k < idx ==>
          if world[id].imports[k].schemaLocation == "" then world[id].imports[k] == old(world[id].imports[k])
          else world[id].imports[k].importedSchema.Some? && world[id].imports[k].importedSchema.value < |world|
      {
        ghost var before := world;
        var one := ImportOne(id, idx, from, docs, locate, fuel);
        ExtendsTrans(old(world), before, world, id);
        if one.Fail? {
          return Fail(one.error);
        }
        idx := idx + 1;
      }
      r := Ok(());
    }

    /** One turn of the import loop with Import.load (schema.go:380-386): an
        import with a location is loaded without caching and recorded as the
        import's schema; an import without a location is left alone. */
    method ImportOne(id: SchemaId, idx: nat, from: string, docs: Documents, locate: Locate, fuel: nat)
      returns (r: Result<()>)
      requires Valid() && id < |world| && idx < |world[id].imports|
      modifies this
      ensures Valid() && Grows(id)
      ensures SameOrigin(old(world[id]), world[id])
      ensures world[id].elements == old(world[id].elements) && world[id].attributes == old(world[id].attributes)
      ensures |world[id].imports| == |old(world[id].imports)|
      ensures forall k :: 0 <= k < |world[id].imports| && k != idx ==> world[id].imports[k] == old(world[id].imports[k])
      ensures world[id].imports[idx] == old(world[id].imports[idx]).(importedSchema := world[id].imports[idx].importedSchema)
      ensures r.Ok? ==>
        if world[id].imports[idx].schemaLocation == "" then world[id].imports[idx] == old(world[id].imports[idx])
        else world[id].imports[idx].importedSchema.Some? && world[id].imports[idx].importedSchema.value < |world|
      decreases fuel, 2
    {
      var imp := world[id].imports[idx];
      if imp.schemaLocation != "" {
        var loaded := LoadXsd(locate(from, imp.schemaLocation), false, docs, locate, fuel);
        if loaded.Fail? {
          return Fail(loaded.error);
        }
        assert Skeleton(world[id]) == Skeleton(old(world[id]));
        var s := world[id];
        world := world[id := s.(imports := s.imports[idx := imp.(importedSchema := Some(loaded.value))])];
      }
      r := Ok(());
    }

    /** Workspace.compile (workspace.go:99-112): walks the cache in some
        order, remembering each package name, and fails on the first name
        seen twice. */
    method CheckPackageNames() returns (err: Option<Error>)
      requires Valid()
      ensures err.None? <==> UniquePackageNames(world, cache)
      ensures err.Some? ==>
        exists p, q :: p in cache && q in cache && p != q &&
          GoPackageName(world[cache[p]]) == GoPackageName(world[cache[q]]) &&
          err.value == MalformedWorkspace(DuplicatePackageMessage(GoPackageName(world[cache[p]])))
    {
      var names := PackageNames(world, cache);
      var dup := FirstRepeat(names);
      PackageNamesDistinct(world, cache);
      if dup.Some? {
        return Some(MalformedWorkspace(DuplicatePackageMessage(dup.value)));
      }
      err := None;
    }
  }

  /** The loop of Workspace.compile over a map from path to package name:
      remembers each name and stops at the first one seen twice. */
  method FirstRepeat(names: map<string, string>) returns (dup: Option<string>)
    ensures dup.None? <==> ValuesDistinct(names)
    ensures dup.Some? ==> exists p, q :: p in names && q in names && p != q && names[p] == dup.value && names[q] == dup.value
  {
    var uniqPkgNames: set<string> := {};
    var remaining := names.Keys;
    ghost var done: set<string> := {};
    while remaining != {}
      invariant done <= names.Keys && remaining == names.Keys - done
      invariant forall p :: p in done ==> names[p] in uniqPkgNames
      invariant forall n :: n in uniqPkgNames ==> exists p :: p in done && names[p] == n
      invariant forall p, q :: p in done && q in done && p != q ==> names[p] != names[q]
      decreases |remaining|
    {
      var path :| path in remaining;
      var goPackageName := names[path];
      if goPackageName in uniqPkgNames {
        ghost var q :| q in done && names[q] == goPackageName;
        assert q != path;
        return Some(goPackageName);
      }
      assert forall p :: p in done ==> names[p] != goPackageName;
      uniqPkgNames := uniqPkgNames + {goPackageName};
      remaining := remaining - {path};
      done := done + {path};
    }
    assert done == names.Keys;
    dup := None;
  }

  /** NewWorkspace (workspace.go:15-32): the overrides are parsed first and a
      bad one fails before any file is read; then the root file is loaded
      with caching and the package names checked. A failed check still
      returns the workspace, next to the error, as the source does. */
  method NewWorkspace(goModulesPath: string, xsdPath: string, overrides: seq<string>,
                      docs: Documents, locate: Locate, fuel: nat)
    returns (ws: Workspace?, err: Option<Error>)
    ensures XO.ParsedXmlnsOverrides(overrides).Fail? ==>
      ws == null && err == Some(XO.ParsedXmlnsOverrides(overrides).error)
    ensures ws == null ==> err.Some?
    ensures ws != null ==>
      fresh(ws) && ws.Valid() && XO.ParsedXmlnsOverrides(overrides).Ok? &&
      ws.xmlnsOverrides == XO.ParsedXmlnsOverrides(overrides).value && ws.goModulesPath == goModulesPath &&
      xsdPath in ws.cache && (err.None? <==> UniquePackageNames(ws.world, ws.cache))
  {
    var parsed := XO.ParseXmlnsOverrides(overrides);
    if parsed.Fail? {
      return null, Some(parsed.error);
    }
    var w := new Workspace(goModulesPath, parsed.value);
    var loaded := w.LoadXsd(xsdPath, true, docs, locate, fuel);
    if loaded.Fail? {
      return null, Some(loaded.error);
    }
    err := w.CheckPackageNames();
    ws := w;
  }
}
