/** What a compiled schema hands to the code renderer (schema.go):
    deduplicateElementsLossfree and ExportableElements, the Exportable type
    filters, Empty and GoImportsNeeded; together with merge and
    isElementInlined, the remaining Schema methods that change or inspect a
    whole schema. */
module SchemaExport {
  import opened Results
  import opened Text
  import opened Decls
  import opened Names
  import opened Types
  import opened SchemaLookup
  import opened Deduplication

  // ---------------------------------------------------------------------
  // deduplicateElementsLossfree (schema.go:204-216)
  // ---------------------------------------------------------------------

  /** The loop's `seen` map from Go name to count; an absent name counts 0. */
  type Seen = map<string, nat>

  function SeenCount(seen: Seen, k: string): nat {
    if k in seen then seen[k] else 0
  }

  /** fmt.Sprintf("%s-%d", goName, n) stored as the element's name override. */
  function WithSuffix(e: Element, goName: string, n: nat): Element {
    e.(nameOverride := goName + "-" + Itoa(n))
  }

  /** One iteration of the loop. An element whose Go name is not in `seen`
      is left alone and its name recorded with count 1; otherwise it is
      renamed "<GoName>-<count>". `asWritten` says under which name the count
      is then bumped: the element's Go name after the rename, as the loop
      does (schema.go:213), or the name it was looked up by. */
  function LossfreeStep(gn: Element -> string, seen: Seen, e: Element, asWritten: bool): (Element, Seen) {
    var k := gn(e);
    if k !in seen then (e, seen[k := 1])
    else
      var e' := WithSuffix(e, k, seen[k]);
      var bumped := if asWritten then gn(e') else k;
      (e', seen[bumped := SeenCount(seen, bumped) + 1])
  }

  /** The elements and the map after the loop has run over `xs`. */
  function LossfreeState(gn: Element -> string, xs: seq<Element>, asWritten: bool): (r: (seq<Element>, Seen))
    ensures |r.0| == |xs|
    decreases |xs|
  {
    if xs == [] then ([], map[])
    else
      var (ys, seen) := LossfreeState(gn, xs[..|xs| - 1], asWritten);
      var (y, seen') := LossfreeStep(gn, seen, xs[|xs| - 1], asWritten);
      (ys + [y], seen')
  }

  /** deduplicateElementsLossfree: the list after the loop. */
  function Lossfree(gn: Element -> string, xs: seq<Element>, asWritten: bool): (r: seq<Element>)
    ensures |r| == |xs|
  {
    LossfreeState(gn, xs, asWritten).0
  }

  lemma LossfreeStatePush(gn: Element -> string, xs: seq<Element>, x: Element, asWritten: bool)
    ensures LossfreeState(gn, xs + [x], asWritten) ==
      var (ys, seen) := LossfreeState(gn, xs, asWritten);
      var (y, seen') := LossfreeStep(gn, seen, x, asWritten);
      (ys + [y], seen')
  {
    var zs := xs + [x];
    assert zs[..|zs| - 1] == xs && zs[|zs| - 1] == x;
  }

  /** One more turn of the loop extends the state by one step. */
  lemma LossfreeAdvance(gn: Element -> string, input: seq<Element>, j: nat, prefix: seq<Element>, seen: Seen,
                        y: Element, seen': Seen, asWritten: bool)
    requires j < |input| && (prefix, seen) == LossfreeState(gn, input[..j], asWritten)
    requires (y, seen') == LossfreeStep(gn, seen, input[j], asWritten)
    ensures (prefix + [y], seen') == LossfreeState(gn, input[..j + 1], asWritten)
  {
    LossfreeStatePush(gn, input[..j], input[j], asWritten);
    assert input[..j + 1] == input[..j] + [input[j]];
  }

  /** The loop over a slice of element pointers: it renames repeats in
      place and returns the same slice. */
  method DeduplicateElementsLossfree(gn: Element -> string, a: array<Element>, asWritten: bool)
    modifies a
    ensures a[..] == Lossfree(gn, old(a[..]), asWritten)
  {
    ghost var input := a[..];
    var seen: Seen := map[];
    var j := 0;
    while j < a.Length
      invariant 0 <= j <= a.Length
      invariant forall k :: j <= k < a.Length ==> a[k] == input[k]
      invariant (a[..j], seen) == LossfreeState(gn, input[..j], asWritten)
    {
      ghost var prefix := a[..j];
      ghost var before := seen;
      seen := LossfreeVisit(gn, a, j, seen, asWritten);
      LossfreeAdvance(gn, input, j, prefix, before, a[j], seen, asWritten);
      assert a[..j + 1] == prefix + [a[j]];
      j := j + 1;
    }
    assert input[..a.Length] == input;
  }

  /** The body of the loop for the element at `j`. */
  method LossfreeVisit(gn: Element -> string, a: array<Element>, j: nat, seen: Seen, asWritten: bool)
    returns (seen': Seen)
    requires j < a.Length
    modifies a
    ensures (a[j], seen') == LossfreeStep(gn, seen, old(a[j]), asWritten)
    ensures forall k :: 0 <= k < a.Length && k != j ==> a[k] == old(a[k])
  {
    var element := a[j];
    var name := gn(element);
    if name !in seen {
      seen' := seen[name := 1];
    } else {
      var dupeCount := seen[name];
      a[j] := WithSuffix(element, name, dupeCount);
      var renamed := if asWritten then gn(a[j]) else name;
      seen' := seen[renamed := SeenCount(seen, renamed) + 1];
    }
  }

  /** Either way the loop keeps length and order and changes nothing but
      name overrides, and a renamed element carries "<GoName>-<n>" for a
      positive n. */
  lemma {:induction false} LossfreeShape(gn: Element -> string, xs: seq<Element>, asWritten: bool)
    ensures |Lossfree(gn, xs, asWritten)| == |xs|
    ensures forall i :: 0 <= i < |xs| ==>
      var y := Lossfree(gn, xs, asWritten)[i];
      y == xs[i] || exists n: nat :: n >= 1 && y == WithSuffix(xs[i], gn(xs[i]), n)
    ensures forall k :: k in LossfreeState(gn, xs, asWritten).1 ==> LossfreeState(gn, xs, asWritten).1[k] >= 1
    decreases |xs|
  {
    if xs != [] {
      var init, last := xs[..|xs| - 1], xs[|xs| - 1];
      LossfreeShape(gn, init, asWritten);
      LossfreeStatePush(gn, init, last, asWritten);
      assert xs == init + [last];
      var (ys, seen) := LossfreeState(gn, init, asWritten);
      var r := Lossfree(gn, xs, asWritten);
      forall i | 0 <= i < |xs|
        ensures r[i] == xs[i] || exists n: nat :: n >= 1 && r[i] == WithSuffix(xs[i], gn(xs[i]), n)
      {
        if i < |init| {
          assert r[i] == ys[i] && xs[i] == init[i];
        } else if gn(last) in seen {
          assert r[i] == WithSuffix(last, gn(last), seen[gn(last)]);
        }
      }
    }
  }

  /** How often key k occurs among the Go names of xs. */
  function Occurrences(gn: Element -> string, xs: seq<Element>, k: string): nat
    decreases |xs|
  {
    if xs == [] then 0
    else Occurrences(gn, xs[..|xs| - 1], k) + (if gn(xs[|xs| - 1]) == k then 1 else 0)
  }

  /** The element the corrected loop leaves at position i: unchanged when no
      earlier element shares its Go name, otherwise suffixed with the number
      of earlier elements that do. */
  function Renumbered(gn: Element -> string, xs: seq<Element>, i: nat): Element
    requires i < |xs|
  {
    var c := Occurrences(gn, xs[..i], gn(xs[i]));
    if c == 0 then xs[i] else WithSuffix(xs[i], gn(xs[i]), c)
  }

  /** With the count bumped under the looked-up name, `seen` counts every
      Go name of the prefix, and the k-th repeat of a name gets suffix k. */
  lemma {:induction false} LossfreeRenumbers(gn: Element -> string, xs: seq<Element>)
    ensures |Lossfree(gn, xs, false)| == |xs|
    ensures forall i :: 0 <= i < |xs| ==> Lossfree(gn, xs, false)[i] == Renumbered(gn, xs, i)
    ensures forall k :: (k in LossfreeState(gn, xs, false).1 <==> Occurrences(gn, xs, k) > 0)
    ensures forall k :: SeenCount(LossfreeState(gn, xs, false).1, k) == Occurrences(gn, xs, k)
    decreases |xs|
  {
    if xs != [] {
      var init, last := xs[..|xs| - 1], xs[|xs| - 1];
      LossfreeRenumbers(gn, init);
      LossfreeStatePush(gn, init, last, false);
      assert xs == init + [last];
      var (ys, seen) := LossfreeState(gn, init, false);
      var r := Lossfree(gn, xs, false);
      forall i | 0 <= i < |xs| ensures r[i] == Renumbered(gn, xs, i) {
        if i < |init| {
          assert xs[..i] == init[..i];
          assert r[i] == ys[i] && xs[i] == init[i];
        } else {
          assert xs[..i] == init;
        }
      }
    }
  }

  /** Counting over a longer prefix never finds fewer, and passing an
      element with key k finds one more. */
  lemma {:induction false} OccurrencesGrow(gn: Element -> string, xs: seq<Element>, i: nat, j: nat)
    requires i < j <= |xs|
    ensures Occurrences(gn, xs[..j], gn(xs[i])) >= Occurrences(gn, xs[..i], gn(xs[i])) + 1
    decreases j
  {
    if j == i + 1 {
      assert xs[..j][..i] == xs[..i];
    } else {
      OccurrencesGrow(gn, xs, i, j - 1);
      assert xs[..j][..j - 1] == xs[..j - 1];
    }
  }

  /** The corrected loop is lossfree in the sense the name promises: two
      repeats of one Go name get different suffixes, and an element whose Go
      name has not occurred before keeps its own. */
  lemma LossfreeDistinctSuffixes(gn: Element -> string, xs: seq<Element>, i: nat, j: nat)
    requires i < j < |xs| && gn(xs[i]) == gn(xs[j])
    requires Occurrences(gn, xs[..i], gn(xs[i])) > 0
    ensures Lossfree(gn, xs, false)[i].nameOverride != Lossfree(gn, xs, false)[j].nameOverride
  {
    LossfreeRenumbers(gn, xs);
    OccurrencesGrow(gn, xs, i, j);
    var k := gn(xs[i]);
    var a, b := Occurrences(gn, xs[..i], k), Occurrences(gn, xs[..j], k);
    var s, t := k + "-" + Itoa(a), k + "-" + Itoa(b);
    assert s[|k| + 1..] == Itoa(a) && t[|k| + 1..] == Itoa(b);
  }

  /** The corrected loop leaves an element alone when no earlier element
      shares its Go name, and otherwise gives it a positive suffix. */
  lemma FirstOccurrenceKept(gn: Element -> string, xs: seq<Element>, i: nat)
    requires i < |xs|
    ensures (forall j :: 0 <= j < i ==> gn(xs[j]) != gn(xs[i])) ==> Lossfree(gn, xs, false)[i] == xs[i]
    ensures (exists j :: 0 <= j < i && gn(xs[j]) == gn(xs[i])) ==>
      exists n: nat :: n >= 1 && Lossfree(gn, xs, false)[i] == WithSuffix(xs[i], gn(xs[i]), n)
  {
    LossfreeRenumbers(gn, xs);
    NoEarlierMeansNone(gn, xs, i);
    var c := Occurrences(gn, xs[..i], gn(xs[i]));
    if c != 0 {
      assert Lossfree(gn, xs, false)[i] == WithSuffix(xs[i], gn(xs[i]), c);
    }
  }

  /** No earlier element with key k means none were counted. */
  lemma {:induction false} NoEarlierMeansNone(gn: Element -> string, xs: seq<Element>, i: nat)
    requires i < |xs|
    ensures (forall j :: 0 <= j < i ==> gn(xs[j]) != gn(xs[i])) <==> Occurrences(gn, xs[..i], gn(xs[i])) == 0
  {
    OccurrencesZero(gn, xs[..i], gn(xs[i]));
  }

  lemma {:induction false} OccurrencesZero(gn: Element -> string, xs: seq<Element>, k: string)
    ensures Occurrences(gn, xs, k) == 0 <==> forall j :: 0 <= j < |xs| ==> gn(xs[j]) != k
    decreases |xs|
  {
    if xs != [] {
      OccurrencesZero(gn, xs[..|xs| - 1], k);
      assert forall j :: 0 <= j < |xs| - 1 ==> xs[..|xs| - 1][j] == xs[j];
    }
  }

  /** The loop as written over three elements with one Go name, where the
      renamed element's Go name differs from the original: the count is
      bumped under the new name, so the third element finds the original
      name still at count 1 and gets the second one's suffix again. */
  lemma AsWrittenRepeatsSuffix(gn: Element -> string, x: Element, y: Element, z: Element)
    requires gn(x) == gn(y) == gn(z)
    requires gn(WithSuffix(y, gn(y), 1)) != gn(y)
    ensures Lossfree(gn, [x, y, z], true) == [x, WithSuffix(y, gn(x), 1), WithSuffix(z, gn(x), 1)]
  {
    var k := gn(x);
    var y', z' := WithSuffix(y, k, 1), WithSuffix(z, k, 1);
    var s1: Seen := map[k := 1];
    var s2 := s1[gn(y') := 1];
    assert LossfreeStep(gn, map[], x, true) == (x, s1);
    assert LossfreeStep(gn, s1, y, true) == (y', s2);
    assert k in s2 && s2[k] == 1;
    assert LossfreeStep(gn, s2, z, true).0 == z';
    var empty: seq<Element> := [];
    LossfreeStatePush(gn, empty, x, true);
    assert [x] == empty + [x];
    assert LossfreeState(gn, [x], true) == ([x], s1);
    LossfreeStatePush(gn, [x], y, true);
    assert [x, y] == [x] + [y];
    assert [x, y'] == [x] + [y'];
    assert LossfreeState(gn, [x, y], true) == ([x, y'], s2);
    LossfreeStatePush(gn, [x, y], z, true);
    assert [x, y, z] == [x, y] + [z];
    assert [x, y', z'] == [x, y'] + [z'];
  }

  /** An element declared with just a name. */
  function NamedElement(name: string): Element {
    Element(name, "", "", "", "", "", None, None, None, None, None, false)
  }

  /** Three top-level elements named "a" come out as A, A-1 and A-1: two Go
      types named A1. */
  lemma AsWrittenCollision(w: World)
    ensures var a := NamedElement("a");
      Lossfree(NameKey(w), [a, a, a], true) == [a, a.(nameOverride := "A-1"), a.(nameOverride := "A-1")]
    ensures ElemName(w, NamedElement("a").(nameOverride := "A-1")) == "A1"
  {
    var a := NamedElement("a");
    var a1 := WithSuffix(a, "A", 1);
    NamedElementNames(w, a, RefDepth(w));
    NamedElementNames(w, a1, RefDepth(w));
    assert TrimSpace("a") == "a";
    assert "a"[1..] == "";
    assert ToCamel("a") == "A";
    assert Itoa(1) == "1";
    assert a1.nameOverride == "A-1";
    assert TrimSpace("A-1") == "A-1";
    assert "A-1"[1..] == "-1";
    assert "-1"[1..] == "1";
    assert "1"[1..] == "";
    assert ToCamel("A-1") == "A1";
    AsWrittenRepeatsSuffix(NameKey(w), a, a, a);
  }

  /** Schema.ExportableElements (schema.go:218-220): top-level elements, then
      inlined ones, through the (corrected) lossfree deduplication. The
      slice holds the schema's own element pointers, so the new name
      overrides land in the schema's two lists. */
  function ExportableElements(w: World, sch: SchemaId): (r: (World, seq<Element>))
    requires sch < |w|
    ensures |r.1| == |w[sch].elements| + |w[sch].inlinedElements|
    ensures |r.0| == |w| && forall s :: 0 <= s < |w| && s != sch ==> r.0[s] == w[sch := r.0[sch]][s]
    ensures r.0[sch] == w[sch].(elements := r.1[..|w[sch].elements|], inlinedElements := r.1[|w[sch].elements|..])
  {
    var all := w[sch].elements + w[sch].inlinedElements;
    var out := Lossfree(NameKey(w), all, false);
    var n := |w[sch].elements|;
    (w[sch := w[sch].(elements := out[..n], inlinedElements := out[n..])], out)
  }

  /** An exported element keeps everything but its name override; one whose
      Go name no earlier exported element has keeps that too, and the
      repeats of one Go name get distinct suffixes. */
  lemma ExportableElementsRenames(w: World, sch: SchemaId, i: nat)
    requires sch < |w|
    requires i < |w[sch].elements| + |w[sch].inlinedElements|
    ensures var all := w[sch].elements + w[sch].inlinedElements;
      ExportableElements(w, sch).1[i] == Renumbered(NameKey(w), all, i)
  {
    LossfreeRenumbers(NameKey(w), w[sch].elements + w[sch].inlinedElements);
  }

  // ---------------------------------------------------------------------
  // ExportableComplexTypes, ExportableSimpleTypes, Empty (schema.go:196-252)
  // ---------------------------------------------------------------------

  /** The Go names of a schema's top-level elements: the loops' elCache. */
  function ElementGoNames(w: World, s: Schema): set<string> {
    set i | 0 <= i < |s.elements| :: ElemName(w, s.elements[i])
  }

  function ComplexGoName(): ComplexType -> string {
    (ct: ComplexType) => ToCamel(ct.name)
  }

  function SimpleGoName(): SimpleType -> string {
    (st: SimpleType) => ToCamel(st.name)
  }

  /** The entries whose key is not taken, in order. */
  function Unshadowed<T>(xs: seq<T>, key: T -> string, taken: set<string>): seq<T>
    decreases |xs|
  {
    if xs == [] then []
    else
      var r := Unshadowed(xs[..|xs| - 1], key, taken);
      if key(xs[|xs| - 1]) in taken then r else r + [xs[|xs| - 1]]
  }

  /** Exactly the entries with a free key are kept, in their order. */
  lemma {:induction false} UnshadowedMembers<T>(xs: seq<T>, key: T -> string, taken: set<string>)
    ensures forall x :: x in Unshadowed(xs, key, taken) <==> x in xs && key(x) !in taken
    ensures IsSubsequence(Unshadowed(xs, key, taken), xs)
    decreases |xs|
  {
    if xs == [] {
      var idx: seq<nat> := [];
      assert |idx| == |Unshadowed(xs, key, taken)|;
    } else {
      var init, last := xs[..|xs| - 1], xs[|xs| - 1];
      UnshadowedMembers(init, key, taken);
      assert xs == init + [last];
      SubsequenceSnoc(Unshadowed(init, key, taken), init, last);
    }
  }

  /** With nothing taken, every entry is kept. */
  lemma {:induction false} UnshadowedNothingTaken<T>(xs: seq<T>, key: T -> string)
    ensures Unshadowed(xs, key, {}) == xs
    decreases |xs|
  {
    if xs != [] {
      UnshadowedNothingTaken(xs[..|xs| - 1], key);
      assert xs == xs[..|xs| - 1] + [xs[|xs| - 1]];
    }
  }

  /** The elCache loop. */
  method ElementNameCache(w: World, s: Schema) returns (cache: set<string>)
    ensures cache == ElementGoNames(w, s)
  {
    cache := {};
    var i := 0;
    while i < |s.elements|
      invariant 0 <= i <= |s.elements|
      invariant cache == set k | 0 <= k < i :: ElemName(w, s.elements[k])
    {
      cache := cache + {ElemName(w, s.elements[i])};
      i := i + 1;
    }
  }

  /** The filtering loop shared by the two Exportable*Types methods. */
  method KeepUnshadowed<T>(xs: seq<T>, key: T -> string, taken: set<string>) returns (res: seq<T>)
    ensures res == Unshadowed(xs, key, taken)
  {
    res := [];
    var i := 0;
    while i < |xs|
      invariant 0 <= i <= |xs|
      invariant res == Unshadowed(xs[..i], key, taken)
    {
      assert xs[..i + 1][..i] == xs[..i];
      if key(xs[i]) !in taken {
        res := res + [xs[i]];
      }
      i := i + 1;
    }
    assert xs[..|xs|] == xs;
  }

  /** Schema.ExportableComplexTypes: the complex types, in order, whose Go
      name is no top-level element's Go name. */
  method ExportableComplexTypes(w: World, sch: SchemaId) returns (res: seq<ComplexType>)
    requires sch < |w|
    ensures res == Unshadowed(w[sch].complexTypes, ComplexGoName(), ElementGoNames(w, w[sch]))
    ensures forall ct :: ct in res <==> ct in w[sch].complexTypes && ToCamel(ct.name) !in ElementGoNames(w, w[sch])
  {
    var cache := ElementNameCache(w, w[sch]);
    res := KeepUnshadowed(w[sch].complexTypes, ComplexGoName(), cache);
    UnshadowedMembers(w[sch].complexTypes, ComplexGoName(), cache);
  }

  /** Schema.ExportableSimpleTypes: likewise for simple types. */
  method ExportableSimpleTypes(w: World, sch: SchemaId) returns (res: seq<SimpleType>)
    requires sch < |w|
    ensures res == Unshadowed(w[sch].simpleTypes, SimpleGoName(), ElementGoNames(w, w[sch]))
    ensures forall st :: st in res <==> st in w[sch].simpleTypes && ToCamel(st.name) !in ElementGoNames(w, w[sch])
  {
    var cache := ElementNameCache(w, w[sch]);
    res := KeepUnshadowed(w[sch].simpleTypes, SimpleGoName(), cache);
    UnshadowedMembers(w[sch].simpleTypes, SimpleGoName(), cache);
  }

  /** Schema.Empty: nothing for the renderer to emit. */
  predicate Empty(w: World, s: Schema) {
    |s.elements| == 0 && |s.complexTypes| == 0 &&
    |Unshadowed(s.simpleTypes, SimpleGoName(), ElementGoNames(w, s))| == 0
  }

  /** With no elements nothing shadows a simple type, so a schema is empty
      iff it declares no element, no complex type and no simple type. */
  lemma EmptyIffNoDeclarations(w: World, s: Schema)
    ensures Empty(w, s) <==> s.elements == [] && s.complexTypes == [] && s.simpleTypes == []
  {
    if s.elements == [] {
      assert ElementGoNames(w, s) == {};
      UnshadowedNothingTaken(s.simpleTypes, SimpleGoName());
    }
  }

  // ---------------------------------------------------------------------
  // GoImportsNeeded (schema.go:200-202, 319-329)
  // ---------------------------------------------------------------------

  /** encodingXmlImportNeeded: the generated file declares XML types. */
  predicate EncodingXmlImportNeeded(s: Schema) {
    |s.elements| != 0 || |s.complexTypes| != 0
  }

  /** Every registered module exists: the map never holds nil. */
  predicate ModulesExist(w: World, s: Schema) {
    forall i :: 0 <= i < |s.importedModules| ==> s.importedModules[i].1 < |w|
  }

  /** The import path of each imported module, in registry order. */
  function ModuleImportPaths(w: World, s: Schema): (r: seq<string>)
    requires ModulesExist(w, s)
  {
    seq(|s.importedModules|, i requires 0 <= i < |s.importedModules| =>
      s.modulesPath + "/" + GoPackageName(w[s.importedModules[i].1]))
  }

  /** The unsorted list the method builds. */
  function ImportList(w: World, s: Schema): seq<string>
    requires ModulesExist(w, s)
  {
    (if EncodingXmlImportNeeded(s) then ["encoding/xml"] else []) + ModuleImportPaths(w, s)
  }

  /** Schema.GoImportsNeeded: the imports, sorted. The map's iteration order
      does not matter, since only the multiset of paths reaches the sort. */
  function GoImportsNeeded(w: World, s: Schema): (r: seq<string>)
    requires ModulesExist(w, s)
    ensures Sorted(r)
    ensures multiset(r) == multiset(ImportList(w, s))
  {
    SortStringsSorted(ImportList(w, s));
    SortStrings(ImportList(w, s))
  }

  /** One import per imported module, plus encoding/xml exactly when the
      schema has elements or complex types. */
  lemma GoImportsNeededContents(w: World, s: Schema)
    requires ModulesExist(w, s)
    ensures |GoImportsNeeded(w, s)| == |s.importedModules| + (if EncodingXmlImportNeeded(s) then 1 else 0)
    ensures EncodingXmlImportNeeded(s) ==> "encoding/xml" in GoImportsNeeded(w, s)
    ensures forall i :: 0 <= i < |s.importedModules| ==>
      s.modulesPath + "/" + GoPackageName(w[s.importedModules[i].1]) in GoImportsNeeded(w, s)
    ensures forall p :: p in GoImportsNeeded(w, s) ==>
      (p == "encoding/xml" && EncodingXmlImportNeeded(s)) ||
      exists i :: 0 <= i < |s.importedModules| && p == s.modulesPath + "/" + GoPackageName(w[s.importedModules[i].1])
  {
    var r := GoImportsNeeded(w, s);
    var l := ImportList(w, s);
    var paths := ModuleImportPaths(w, s);
    assert |r| == |multiset(r)| == |multiset(l)| == |l|;
    forall p ensures p in r <==> p in l {
      assert p in r <==> p in multiset(r);
      assert p in l <==> p in multiset(l);
    }
    if EncodingXmlImportNeeded(s) {
      assert l[0] == "encoding/xml";
    }
    forall i | 0 <= i < |s.importedModules|
      ensures s.modulesPath + "/" + GoPackageName(w[s.importedModules[i].1]) in r
    {
      assert paths[i] in l;
    }
    forall p | p in r
      ensures (p == "encoding/xml" && EncodingXmlImportNeeded(s)) ||
        exists i :: 0 <= i < |s.importedModules| && p == s.modulesPath + "/" + GoPackageName(w[s.importedModules[i].1])
    {
      if !(p == "encoding/xml" && EncodingXmlImportNeeded(s)) {
        assert p in paths;
        var i :| 0 <= i < |paths| && paths[i] == p;
      }
    }
  }

  // ---------------------------------------------------------------------
  // merge (schema.go:335-346) and the include merge of loadXsd
  // ---------------------------------------------------------------------

  /** The declaration lists of `other` placed before those of `s`. */
  function PrependDecls(s: Schema, other: Schema): Schema {
    s.(imports := other.imports + s.imports,
       elements := other.elements + s.elements,
       attributes := other.attributes + s.attributes,
       attributeGroups := other.attributeGroups + s.attributeGroups,
       complexTypes := other.complexTypes + s.complexTypes,
       simpleTypes := other.simpleTypes + s.simpleTypes,
       inlinedElements := other.inlinedElements + s.inlinedElements)
  }

  /** Prepending puts the other schema's declarations first in every list
      and changes nothing else. */
  lemma PrependDeclsLists(s: Schema, other: Schema)
    ensures var r := PrependDecls(s, other);
      r.imports[..|other.imports|] == other.imports && r.imports[|other.imports|..] == s.imports &&
      r.elements[..|other.elements|] == other.elements && r.elements[|other.elements|..] == s.elements &&
      r.attributes[..|other.attributes|] == other.attributes && r.attributes[|other.attributes|..] == s.attributes &&
      r.attributeGroups[..|other.attributeGroups|] == other.attributeGroups &&
      r.attributeGroups[|other.attributeGroups|..] == s.attributeGroups &&
      r.complexTypes[..|other.complexTypes|] == other.complexTypes &&
      r.complexTypes[|other.complexTypes|..] == s.complexTypes &&
      r.simpleTypes[..|other.simpleTypes|] == other.simpleTypes && r.simpleTypes[|other.simpleTypes|..] == s.simpleTypes &&
      r.inlinedElements[..|other.inlinedElements|] == other.inlinedElements &&
      r.inlinedElements[|other.inlinedElements|..] == s.inlinedElements &&
      r.importedModules == s.importedModules && r.targetNamespace == s.targetNamespace &&
      r.xmlns == s.xmlns && r.includes == s.includes && r.filePath == s.filePath
  {
  }

  /** `for key, sch := range other.importedModules { sch.importedModules[key] = sch }`:
      the loop variable shadows the receiver, so each imported module is
      registered in its own map under its key. */
  function RegisterWithThemselves(w: World, mods: seq<(string, SchemaId)>): (r: World)
    ensures |r| == |w|
    decreases |mods|
  {
    if mods == [] then w
    else
      var key, m := mods[0].0, mods[0].1;
      var w' := if m < |w| then w[m := w[m].(importedModules := ModulePut(w[m].importedModules, key, m))] else w;
      RegisterWithThemselves(w', mods[1..])
  }

  /** Schema.merge as written. */
  function Merge(w: World, sch: SchemaId, other: SchemaId): (r: World)
    requires sch < |w| && other < |w|
    ensures |r| == |w|
  {
    RegisterWithThemselves(w[sch := PrependDecls(w[sch], w[other])], w[other].importedModules)
  }

  /** The registration loop touches only module maps, and a schema no
      entry points at not even that. */
  lemma {:induction false} RegisterOnlyModules(w: World, mods: seq<(string, SchemaId)>)
    ensures forall s :: 0 <= s < |w| ==>
      RegisterWithThemselves(w, mods)[s] == w[s].(importedModules := RegisterWithThemselves(w, mods)[s].importedModules)
    ensures forall s :: 0 <= s < |w| && (forall i :: 0 <= i < |mods| ==> mods[i].1 != s) ==>
      RegisterWithThemselves(w, mods)[s] == w[s]
    decreases |mods|
  {
    if mods != [] {
      var key, m := mods[0].0, mods[0].1;
      var w' := if m < |w| then w[m := w[m].(importedModules := ModulePut(w[m].importedModules, key, m))] else w;
      RegisterOnlyModules(w', mods[1..]);
      forall s | 0 <= s < |w| && (forall i :: 0 <= i < |mods| ==> mods[i].1 != s)
        ensures RegisterWithThemselves(w, mods)[s] == w[s]
      {
        assert mods[0].1 != s;
        forall i | 0 <= i < |mods[1..]| ensures mods[1..][i].1 != s {
          assert mods[1..][i] == mods[i + 1];
        }
      }
    }
  }

  /** A key no entry carries is looked up as before in every module map. */
  lemma {:induction false} RegisterKeepsOtherKeys(w: World, mods: seq<(string, SchemaId)>, s: nat, k: string)
    requires s < |w| && !HasKey(mods, k)
    ensures ModuleLookup(RegisterWithThemselves(w, mods)[s].importedModules, k) == ModuleLookup(w[s].importedModules, k)
    decreases |mods|
  {
    if mods != [] {
      var key, m := mods[0].0, mods[0].1;
      var w' := if m < |w| then w[m := w[m].(importedModules := ModulePut(w[m].importedModules, key, m))] else w;
      HasKeyCons(mods);
      RegisterKeepsOtherKeys(w', mods[1..], s, k);
    }
  }

  /** Each imported module of the other schema ends up registered in its
      own map under its key. */
  lemma {:induction false} RegisterEachWithItself(w: World, mods: seq<(string, SchemaId)>)
    requires UniqueKeys(mods)
    requires forall i :: 0 <= i < |mods| ==> mods[i].1 < |w|
    ensures forall i :: 0 <= i < |mods| ==>
      ModuleLookup(RegisterWithThemselves(w, mods)[mods[i].1].importedModules, mods[i].0) == Some(mods[i].1)
    decreases |mods|
  {
    if mods != [] {
      var key, m := mods[0].0, mods[0].1;
      var w' := w[m := w[m].(importedModules := ModulePut(w[m].importedModules, key, m))];
      var rest := mods[1..];
      assert forall i :: 0 <= i < |rest| ==> rest[i] == mods[i + 1];
      RegisterEachWithItself(w', rest);
      RegisterKeepsOtherKeys(w', rest, m, key);
      forall i | 0 <= i < |mods|
        ensures ModuleLookup(RegisterWithThemselves(w, mods)[mods[i].1].importedModules, mods[i].0) == Some(mods[i].1)
      {
        if i > 0 {
          assert mods[i] == rest[i - 1];
        }
      }
    }
  }

  /** What merge does: the other schema's declarations come first in every
      list; every module the other schema imports is registered in its own
      map; and the receiver's own module map gains nothing, unless the
      receiver is itself one of those modules. */
  lemma MergeEffect(w: World, sch: SchemaId, other: SchemaId)
    requires sch < |w| && other < |w|
    requires UniqueKeys(w[other].importedModules) && ModulesExist(w, w[other])
    ensures var r := Merge(w, sch, other); var mods := w[other].importedModules;
      r[sch] == PrependDecls(w[sch], w[other]).(importedModules := r[sch].importedModules) &&
      (forall i :: 0 <= i < |mods| ==> ModuleLookup(r[mods[i].1].importedModules, mods[i].0) == Some(mods[i].1)) &&
      ((forall i :: 0 <= i < |mods| ==> mods[i].1 != sch) ==> r[sch].importedModules == w[sch].importedModules)
  {
    var w1 := w[sch := PrependDecls(w[sch], w[other])];
    assert w1[other].importedModules == w[other].importedModules;
    RegisterOnlyModules(w1, w[other].importedModules);
    RegisterEachWithItself(w1, w[other].importedModules);
  }

  /** `schema.importedModules[key] = sch` for every pair of `from`, in order. */
  function CopyModules(into: seq<(string, SchemaId)>, from: seq<(string, SchemaId)>): (r: seq<(string, SchemaId)>)
    decreases |from|
  {
    if from == [] then into else CopyModules(ModulePut(into, from[0].0, from[0].1), from[1..])
  }

  /** After the copy a key of `from` maps as in `from`, every other key as
      before, and the result is still a map. */
  lemma {:induction false} CopyModulesLookup(into: seq<(string, SchemaId)>, from: seq<(string, SchemaId)>)
    requires UniqueKeys(from)
    ensures forall k ::
              ModuleLookup(CopyModules(into, from), k) ==
              if HasKey(from, k) then ModuleLookup(from, k) else ModuleLookup(into, k)
    ensures UniqueKeys(into) ==> UniqueKeys(CopyModules(into, from))
    decreases |from|
  {
    if from != [] {
      var into' := ModulePut(into, from[0].0, from[0].1);
      CopyModulesLookup(into', from[1..]);
      HasKeyCons(from);
      if UniqueKeys(into) {
        ModulePutUnique(into, from[0].0, from[0].1);
      }
    }
  }

  /** The include merge of loadXsd (workspace.go:77-87): what merge evidently
      means to do, the included schema's module map copied into the
      including schema's. */
  function MergeInclude(s: Schema, included: Schema): (r: Schema)
    ensures r == PrependDecls(s, included).(importedModules := r.importedModules)
  {
    PrependDecls(s, included).(importedModules := CopyModules(s.importedModules, included.importedModules))
  }

  /** After an include merge the including schema finds every module the
      included one imports, under the same key, and keeps its own others. */
  lemma MergeIncludeModules(s: Schema, included: Schema)
    requires UniqueKeys(included.importedModules)
    ensures forall k ::
              ModuleLookup(MergeInclude(s, included).importedModules, k) ==
              if HasKey(included.importedModules, k) then ModuleLookup(included.importedModules, k)
              else ModuleLookup(s.importedModules, k)
    ensures UniqueKeys(s.importedModules) ==> UniqueKeys(MergeInclude(s, included).importedModules)
  {
    CopyModulesLookup(s.importedModules, included.importedModules);
  }

  /** The input that shows the shadowing: the other schema imports a module
      under a key the receiver lacks, and that module is not the receiver.
      merge as written leaves the key missing from the receiver; the
      include merge adds it. */
  lemma MergeShadowingLosesModule(w: World, sch: SchemaId, other: SchemaId, k: string)
    requires sch < |w| && other < |w|
    requires UniqueKeys(w[other].importedModules) && ModulesExist(w, w[other])
    requires forall i :: 0 <= i < |w[other].importedModules| ==> w[other].importedModules[i].1 != sch
    requires HasKey(w[other].importedModules, k) && !HasKey(w[sch].importedModules, k)
    ensures ModuleLookup(Merge(w, sch, other)[sch].importedModules, k) == None
    ensures ModuleLookup(MergeInclude(w[sch], w[other]).importedModules, k).Some?
  {
    MergeEffect(w, sch, other);
    MergeIncludeModules(w[sch], w[other]);
  }

  // ---------------------------------------------------------------------
  // isElementInlined (schema.go:361-371)
  // ---------------------------------------------------------------------

  /** Schema.isElementInlined: the element is inlined unless it equals one
      of the schema's top-level elements. Go compares the structs field by
      field, pointers by address; the model compares values. */
  method IsElementInlined(s: Schema, el: Element) returns (inlined: bool)
    ensures inlined <==> el !in s.elements
  {
    var found := false;
    var idx := 0;
    while idx < |s.elements|
      invariant 0 <= idx <= |s.elements|
      invariant found <==> el in s.elements[..idx]
    {
      assert s.elements[..idx + 1] == s.elements[..idx] + [s.elements[idx]];
      if s.elements[idx] == el {
        found := true;
        break;
      }
      idx := idx + 1;
    }
    assert s.elements[..|s.elements|] == s.elements;
    inlined := !found;
  }
}
