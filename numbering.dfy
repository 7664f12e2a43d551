/** The attribute-numbering loop that ComplexType.compile (types.go),
    AttributeGroup.compile (attributegroup.go) and Extension.compile
    (extension.go) share: a map counts how often each Go name has been seen,
    and each attribute's DuplicateCount is set to the running count, so that
    "id" and "Id" become the Go fields Id and Id2.

    The loop is written once over the naming function `gn`, which the
    compiler instantiates with Attribute.GoName (Names.AttrGoName); the
    general lemmas use only the three facts AttrGoNameFacts proves of it. */
module Numbering {
  import opened Results
  import opened Text
  import opened Decls
  import opened Names

  /** The loop's goNames map; an absent name counts 0. */
  type Counts = map<string, nat>

  function CountOf(names: Counts, k: string): nat {
    if k in names then names[k] else 0
  }

  /** Whether two lists differ at most in their duplicate counts. */
  predicate SameButCounts(xs: seq<Attribute>, ys: seq<Attribute>) {
    |xs| == |ys| && forall i :: 0 <= i < |xs| ==> ys[i] == xs[i].(duplicateCount := ys[i].duplicateCount)
  }

  /** The names of a list of attributes, in order. */
  function NamesOf(gn: Attribute -> string, attrs: seq<Attribute>): (names: seq<string>)
    ensures |names| == |attrs|
  {
    seq(|attrs|, i requires 0 <= i < |attrs| => gn(attrs[i]))
  }

  predicate Distinct(names: seq<string>) {
    forall i, j :: 0 <= i < j < |names| ==> names[i] != names[j]
  }

  // ---------------------------------------------------------------------
  // What the proofs need of the naming function.

  function WithCount(a: Attribute, c: nat): Attribute {
    a.(duplicateCount := c)
  }

  /** The fields Attribute.GoName reads: the name, the reference, the count. */
  function NamingPart(a: Attribute): Attribute {
    Attribute(a.name, "", "", a.duplicateCount, a.ref, None, None, None)
  }

  /** A count from 2 on is written out in full in the name. */
  ghost predicate CountLengthens(gn: Attribute -> string) {
    forall a: Attribute, c: nat :: c >= 2 ==> |gn(WithCount(a, c))| >= |Itoa(c)|
  }

  /** Counts 0 and 1 both leave the name bare. */
  ghost predicate OneIsBare(gn: Attribute -> string) {
    forall a: Attribute :: gn(WithCount(a, 1)) == gn(WithCount(a, 0))
  }

  /** Only the name, the reference and the count decide the name. */
  ghost predicate ReadsOnlyNames(gn: Attribute -> string) {
    forall a: Attribute :: gn(NamingPart(a)) == gn(a)
  }

  /** Attribute.GoName has all three. */
  lemma AttrGoNameFacts()
    ensures CountLengthens(AttrGoName)
    ensures OneIsBare(AttrGoName)
    ensures ReadsOnlyNames(AttrGoName)
  {
    forall a: Attribute, c: nat | c >= 2 ensures |AttrGoName(WithCount(a, c))| >= |Itoa(c)| {
      ToCamelKeepsDigits(AttrBaseName(a), c);
    }
    forall a: Attribute ensures AttrGoName(WithCount(a, 1)) == AttrGoName(WithCount(a, 0)) {
      AttrGoNameBare(WithCount(a, 1));
      AttrGoNameBare(WithCount(a, 0));
    }
    forall a: Attribute ensures AttrGoName(NamingPart(a)) == AttrGoName(a) {
      assert AttrBaseName(NamingPart(a)) == AttrBaseName(a);
    }
  }

  // ---------------------------------------------------------------------
  // As written.

  /** One iteration as written: the count is one more than the count of the
      attribute's current name, and the map is updated under both the old
      and the new name. The new name is not checked against the map. */
  function NumberStep(gn: Attribute -> string, names: Counts, a: Attribute): (Attribute, Counts) {
    var count := CountOf(names, gn(a)) + 1;
    var a' := a.(duplicateCount := count);
    (a', names[gn(a) := count][gn(a') := count])
  }

  /** The numbered prefix and the map after the loop has run over attrs. */
  function NumberState(gn: Attribute -> string, attrs: seq<Attribute>): (r: (seq<Attribute>, Counts))
    ensures |r.0| == |attrs|
  {
    if attrs == [] then ([], map[])
    else
      var prev := NumberState(gn, attrs[..|attrs| - 1]);
      var step := NumberStep(gn, prev.1, attrs[|attrs| - 1]);
      (prev.0 + [step.0], step.1)
  }

  /** The attributes as the loop leaves them. */
  function Numbered(gn: Attribute -> string, attrs: seq<Attribute>): (r: seq<Attribute>)
    ensures |r| == |attrs|
  {
    NumberState(gn, attrs).0
  }

  /** The loop changes nothing but the counts, and every count is at least 1. */
  lemma {:induction false} NumberedShape(gn: Attribute -> string, attrs: seq<Attribute>)
    ensures SameButCounts(attrs, Numbered(gn, attrs))
    ensures forall i :: 0 <= i < |attrs| ==> Numbered(gn, attrs)[i].duplicateCount >= 1
  {
    if attrs != [] {
      var init := attrs[..|attrs| - 1];
      NumberedShape(gn, init);
      var r := Numbered(gn, attrs);
      var d := Numbered(gn, init);
      assert r == d + [NumberStep(gn, NumberState(gn, init).1, attrs[|attrs| - 1]).0];
      forall i | 0 <= i < |attrs|
        ensures r[i] == attrs[i].(duplicateCount := r[i].duplicateCount) && r[i].duplicateCount >= 1
      {
        if i < |init| {
          assert r[i] == d[i] && attrs[i] == init[i];
        }
      }
    }
  }

  /** Fresh attributes (count 0) whose names differ all get count 1 and keep
      their bare names; the map then holds exactly those names. */
  lemma {:induction false} DistinctNamesCountOne(gn: Attribute -> string, attrs: seq<Attribute>)
    requires OneIsBare(gn)
    requires forall i :: 0 <= i < |attrs| ==> attrs[i].duplicateCount == 0
    requires Distinct(NamesOf(gn, attrs))
    ensures forall i :: 0 <= i < |attrs| ==> Numbered(gn, attrs)[i] == attrs[i].(duplicateCount := 1)
    ensures NamesOf(gn, Numbered(gn, attrs)) == NamesOf(gn, attrs)
    ensures forall k :: k in NumberState(gn, attrs).1 <==> k in NamesOf(gn, attrs)
  {
    if attrs != [] {
      var init := attrs[..|attrs| - 1];
      var last := attrs[|attrs| - 1];
      var g := NamesOf(gn, attrs);
      var gi := NamesOf(gn, init);
      assert g == gi + [gn(last)];
      assert Distinct(gi) by {
        forall i, j | 0 <= i < j < |init| ensures gi[i] != gi[j] {
          assert gi[i] == g[i] && gi[j] == g[j];
        }
      }
      assert forall i :: 0 <= i < |init| ==> init[i] == attrs[i];
      DistinctNamesCountOne(gn, init);
      var prev := NumberState(gn, init);
      assert gn(last) !in prev.1 by {
        forall i | 0 <= i < |init| ensures gi[i] != gn(last) {
          assert gi[i] == g[i] && g[|attrs| - 1] == gn(last);
        }
      }
      var a' := last.(duplicateCount := 1);
      assert a' == WithCount(last, 1) && last == WithCount(last, 0);
      assert NumberStep(gn, prev.1, last) == (a', prev.1[gn(last) := 1][gn(a') := 1]);
      var r := Numbered(gn, attrs);
      assert r == prev.0 + [a'];
      forall i | 0 <= i < |attrs| ensures r[i] == attrs[i].(duplicateCount := 1) {
        if i < |init| {
          assert r[i] == prev.0[i];
        }
      }
      assert NamesOf(gn, r) == NamesOf(gn, prev.0) + [gn(a')];
    }
  }

  /** Two attributes with the same name get the counts 1 and 2. */
  lemma SameNameCountsOneTwo(gn: Attribute -> string, a: Attribute, b: Attribute)
    requires OneIsBare(gn)
    requires a.duplicateCount == 0 && b.duplicateCount == 0
    requires gn(a) == gn(b)
    ensures Numbered(gn, [a, b]) == [a.(duplicateCount := 1), b.(duplicateCount := 2)]
  {
    var a' := a.(duplicateCount := 1);
    assert a' == WithCount(a, 1) && a == WithCount(a, 0);
    var empty: seq<Attribute> := [];
    assert NumberState(gn, empty) == ([], map[]);
    assert [a][..0] == empty;
    assert empty + [a'] == [a'];
    assert CountOf(map[], gn(a)) == 0;
    assert map[gn(a) := 1][gn(a') := 1] == map[gn(a) := 1];
    assert NumberStep(gn, map[], a) == (a', map[gn(a) := 1]);
    assert NumberState(gn, [a]) == ([a'], map[gn(a) := 1]);
    assert [a, b][..1] == [a];
  }

  /** An attribute known only by its name. */
  function Named(name: string): Attribute {
    Attribute(name, "", "", 0, "", None, None, None)
  }

  lemma IdNames()
    ensures AttrGoName(Named("id")) == "Id" && AttrGoName(Named("Id")) == "Id"
    ensures AttrGoName(Named("id").(duplicateCount := 1)) == "Id"
    ensures AttrGoName(Named("id2")) == "Id2" && AttrGoName(Named("id2").(duplicateCount := 1)) == "Id2"
    ensures AttrGoName(Named("Id").(duplicateCount := 2)) == "Id2"
    ensures AttrGoName(Named("Id").(duplicateCount := 1)) == "Id"
  {
    assert TrimSpace("id") == "id";
    assert "id"[1..] == "d";
    assert "d"[1..] == "";
    assert TrimSpace("Id") == "Id";
    assert "Id"[1..] == "d";
    assert TrimSpace("id2") == "id2";
    assert "id2"[1..] == "d2";
    assert "d2"[1..] == "2";
    assert "2"[1..] == "";
    assert Itoa(2) == "2";
    assert "Id" + "2" == "Id2";
    assert TrimSpace("Id2") == "Id2";
    assert "Id2"[1..] == "d2";
  }

  /** "id" and "Id" become the Go fields Id and Id2. */
  lemma IdAndIdBecomeIdAndId2()
    ensures NamesOf(AttrGoName, Numbered(AttrGoName, [Named("id"), Named("Id")])) == ["Id", "Id2"]
  {
    IdNames();
    AttrGoNameFacts();
    SameNameCountsOneTwo(AttrGoName, Named("id"), Named("Id"));
    var r := Numbered(AttrGoName, [Named("id"), Named("Id")]);
    assert NamesOf(AttrGoName, r) == [AttrGoName(r[0]), AttrGoName(r[1])];
  }

  /** The loop as written over three attributes where the third one's
      numbered name is the first one's name. */
  lemma SuffixCollision(gn: Attribute -> string, x: Attribute, y: Attribute, z: Attribute)
    requires gn(WithCount(x, 1)) == gn(x) == gn(WithCount(z, 2))
    requires gn(WithCount(y, 1)) == gn(y) == gn(z)
    requires gn(x) != gn(y)
    ensures Numbered(gn, [x, y, z]) == [WithCount(x, 1), WithCount(y, 1), WithCount(z, 2)]
  {
    var x', y', z' := WithCount(x, 1), WithCount(y, 1), WithCount(z, 2);
    var empty: seq<Attribute> := [];
    assert NumberState(gn, empty) == ([], map[]);
    assert [x][..0] == empty;
    assert empty + [x'] == [x'];
    var m1: Counts := map[gn(x) := 1];
    assert m1[gn(x) := 1] == m1;
    assert NumberStep(gn, map[], x) == (x', m1);
    assert NumberState(gn, [x]) == ([x'], m1);
    var m2: Counts := m1[gn(y) := 1];
    assert m2[gn(y) := 1] == m2;
    assert NumberStep(gn, m1, y) == (y', m2);
    assert [x, y][..1] == [x];
    assert [x', y'] == [x'] + [y'];
    assert NumberState(gn, [x, y]) == ([x', y'], m2);
    assert NumberStep(gn, m2, z).0 == z';
    assert [x, y, z][..2] == [x, y];
  }

  /** Two attributes whose names differ both get the count 1. */
  lemma DifferentNamesCountsOne(gn: Attribute -> string, x: Attribute, y: Attribute)
    requires gn(WithCount(x, 1)) == gn(x) && gn(x) != gn(y)
    ensures Numbered(gn, [x, y]) == [WithCount(x, 1), WithCount(y, 1)]
  {
    var x' := WithCount(x, 1);
    var empty: seq<Attribute> := [];
    assert NumberState(gn, empty) == ([], map[]);
    assert [x][..0] == empty;
    assert empty + [x'] == [x'];
    assert map[gn(x) := 1][gn(x') := 1] == map[gn(x) := 1];
    assert NumberStep(gn, map[], x) == (x', map[gn(x) := 1]);
    assert NumberState(gn, [x]) == ([x'], map[gn(x) := 1]);
    assert [x, y][..1] == [x];
  }

  /** As written, a second compile of the same list reads the counts the
      first one stored: "id", "Id" become Id, Id2 and then Id, Id, because
      the second attribute is now looked up as Id2, which no earlier
      attribute is called. */
  lemma AsWrittenRecompileFlip()
    ensures var once := Numbered(AttrGoName, [Named("id"), Named("Id")]);
            NamesOf(AttrGoName, once) == ["Id", "Id2"] &&
            NamesOf(AttrGoName, Numbered(AttrGoName, once)) == ["Id", "Id"]
  {
    IdAndIdBecomeIdAndId2();
    IdNames();
    AttrGoNameFacts();
    SameNameCountsOneTwo(AttrGoName, Named("id"), Named("Id"));
    var x, y := Named("id").(duplicateCount := 1), Named("Id").(duplicateCount := 2);
    assert WithCount(x, 1) == x;
    DifferentNamesCountsOne(AttrGoName, x, y);
    var twice := [x, WithCount(y, 1)];
    assert WithCount(y, 1) == Named("Id").(duplicateCount := 1);
    assert NamesOf(AttrGoName, twice) == [AttrGoName(twice[0]), AttrGoName(twice[1])];
  }

  /** The numbering as written of "id2", "id", "Id": counts 1, 1, 2. */
  lemma CollisionCounts()
    ensures Numbered(AttrGoName, [Named("id2"), Named("id"), Named("Id")]) ==
      [Named("id2").(duplicateCount := 1), Named("id").(duplicateCount := 1), Named("Id").(duplicateCount := 2)]
  {
    IdNames();
    var x, y, z := Named("id2"), Named("id"), Named("Id");
    assert WithCount(x, 1) == x.(duplicateCount := 1);
    assert WithCount(y, 1) == y.(duplicateCount := 1);
    assert WithCount(z, 2) == z.(duplicateCount := 2);
    SuffixCollision(AttrGoName, x, y, z);
  }

  /** As written, an attribute numbered into a suffixed name can take the
      name of an earlier attribute: "id2", "id", "Id" become Id2, Id, Id2. */
  lemma AsWrittenCollision()
    ensures NamesOf(AttrGoName, Numbered(AttrGoName, [Named("id2"), Named("id"), Named("Id")])) == ["Id2", "Id", "Id2"]
    ensures !Distinct(NamesOf(AttrGoName, Numbered(AttrGoName, [Named("id2"), Named("id"), Named("Id")])))
  {
    CollisionCounts();
    IdNames();
    var r := [Named("id2").(duplicateCount := 1), Named("id").(duplicateCount := 1), Named("Id").(duplicateCount := 2)];
    var g := NamesOf(AttrGoName, r);
    assert g == [AttrGoName(r[0]), AttrGoName(r[1]), AttrGoName(r[2])];
    assert g[0] == g[2];
  }

  // ---------------------------------------------------------------------
  // Corrected: the running count is raised until the numbered name is one
  // no earlier attribute of the list has taken.

  /** The length of the longest name of a set. */
  ghost function MaxLen(used: set<string>): (r: nat)
    ensures forall x :: x in used ==> |x| <= r
  {
    if used == {} then 0
    else
      var x :| x in used;
      var m := MaxLen(used - {x});
      if |x| > m then |x| else m
  }

  /** A count large enough to make the name longer than every name taken. */
  ghost function Bound(used: set<string>): nat {
    Pow10(MaxLen(used)) + 2
  }

  /** From the bound on, the numbered name is longer than every taken name. */
  lemma LongNameIsFresh(gn: Attribute -> string, a: Attribute, c: nat, used: set<string>)
    requires CountLengthens(gn)
    ensures c >= Bound(used) ==> gn(a.(duplicateCount := c)) !in used
  {
    if c >= Bound(used) {
      ItoaLength(c, MaxLen(used));
      assert |gn(WithCount(a, c))| >= |Itoa(c)|;
    }
  }

  /** The least count from c on whose name is not taken. */
  function FreeCount(gn: Attribute -> string, a: Attribute, c: nat, used: set<string>): (r: nat)
    requires CountLengthens(gn)
    ensures r >= c
    ensures gn(a.(duplicateCount := r)) !in used
    decreases Bound(used) - c
  {
    LongNameIsFresh(gn, a, c, used);
    if gn(a.(duplicateCount := c)) !in used then c else FreeCount(gn, a, c + 1, used)
  }

  /** Every count skipped on the way is one whose name is taken. */
  lemma {:induction false} FreeCountLeast(gn: Attribute -> string, a: Attribute, c: nat, used: set<string>, k: nat)
    requires CountLengthens(gn)
    requires c <= k < FreeCount(gn, a, c, used)
    ensures gn(a.(duplicateCount := k)) in used
    decreases Bound(used) - c
  {
    LongNameIsFresh(gn, a, c, used);
    if k > c {
      FreeCountLeast(gn, a, c + 1, used, k);
    }
  }

  /** One corrected iteration: as written, but the count is raised past
      every count whose name an earlier attribute already has. */
  function NumberStepUnique(gn: Attribute -> string, names: Counts, used: set<string>, a: Attribute): (Attribute, Counts, set<string>)
    requires CountLengthens(gn)
  {
    var count := FreeCount(gn, a, CountOf(names, gn(a)) + 1, used);
    var a' := a.(duplicateCount := count);
    (a', names[gn(a) := count][gn(a') := count], used + {gn(a')})
  }

  function UniqueState(gn: Attribute -> string, attrs: seq<Attribute>): (r: (seq<Attribute>, Counts, set<string>))
    requires CountLengthens(gn)
    ensures |r.0| == |attrs|
  {
    if attrs == [] then ([], map[], {})
    else
      var prev := UniqueState(gn, attrs[..|attrs| - 1]);
      var step := NumberStepUnique(gn, prev.1, prev.2, attrs[|attrs| - 1]);
      (prev.0 + [step.0], step.1, step.2)
  }

  function NumberedUnique(gn: Attribute -> string, attrs: seq<Attribute>): (r: seq<Attribute>)
    requires CountLengthens(gn)
    ensures |r| == |attrs|
  {
    UniqueState(gn, attrs).0
  }

  /** The state after one more attribute. */
  lemma UniqueStatePush(gn: Attribute -> string, xs: seq<Attribute>, x: Attribute)
    requires CountLengthens(gn)
    ensures var prev := UniqueState(gn, xs);
            var step := NumberStepUnique(gn, prev.1, prev.2, x);
            UniqueState(gn, xs + [x]) == (prev.0 + [step.0], step.1, step.2)
  {
    assert (xs + [x])[..|xs|] == xs;
  }

  /** The corrected loop too changes nothing but the counts, all at least 1. */
  lemma {:induction false} NumberedUniqueShape(gn: Attribute -> string, attrs: seq<Attribute>)
    requires CountLengthens(gn)
    ensures SameButCounts(attrs, NumberedUnique(gn, attrs))
    ensures forall i :: 0 <= i < |attrs| ==> NumberedUnique(gn, attrs)[i].duplicateCount >= 1
  {
    if attrs != [] {
      var init := attrs[..|attrs| - 1];
      NumberedUniqueShape(gn, init);
      var prev := UniqueState(gn, init);
      var r := NumberedUnique(gn, attrs);
      assert r == prev.0 + [NumberStepUnique(gn, prev.1, prev.2, attrs[|attrs| - 1]).0];
      forall i | 0 <= i < |attrs|
        ensures r[i] == attrs[i].(duplicateCount := r[i].duplicateCount) && r[i].duplicateCount >= 1
      {
        if i < |init| {
          assert r[i] == prev.0[i] && attrs[i] == init[i];
        }
      }
    }
  }

  /** The corrected numbering, on one array in place; the compiler passes
      Attribute.GoName. */
  method NumberAttributes(gn: Attribute -> string, a: array<Attribute>)
    requires CountLengthens(gn)
    modifies a
    ensures a[..] == NumberedUnique(gn, old(a[..]))
  {
    ghost var input := a[..];
    var goNames: Counts := map[];
    var used: set<string> := {};
    for i := 0 to a.Length
      invariant a[i..] == input[i..]
      invariant a[..i] == UniqueState(gn, input[..i]).0
      invariant goNames == UniqueState(gn, input[..i]).1
      invariant used == UniqueState(gn, input[..i]).2
    {
      var attribute := a[i];
      assert input[..i + 1] == input[..i] + [attribute];
      UniqueStatePush(gn, input[..i], attribute);
      var count := NextFreeCount(gn, attribute, CountOf(goNames, gn(attribute)) + 1, used);
      var numbered := attribute.(duplicateCount := count);
      goNames := goNames[gn(attribute) := count][gn(numbered) := count];
      used := used + {gn(numbered)};
      a[i] := numbered;
      assert a[..i + 1] == a[..i] + [numbered];
      assert a[i + 1..] == input[i + 1..];
    }
    assert input[..a.Length] == input;
  }

  /** The search for a free count, from the running count on. */
  method NextFreeCount(gn: Attribute -> string, a: Attribute, start: nat, used: set<string>) returns (count: nat)
    requires CountLengthens(gn)
    ensures count == FreeCount(gn, a, start, used)
  {
    count := start;
    while gn(a.(duplicateCount := count)) in used
      invariant count >= start
      invariant FreeCount(gn, a, count, used) == FreeCount(gn, a, start, used)
      decreases Bound(used) - count
    {
      LongNameIsFresh(gn, a, count, used);
      count := count + 1;
    }
  }

  /** The set of taken names is the set of names given out so far. */
  lemma {:induction false} UsedIsGivenNames(gn: Attribute -> string, attrs: seq<Attribute>)
    requires CountLengthens(gn)
    ensures forall k :: k in UniqueState(gn, attrs).2 <==> k in NamesOf(gn, NumberedUnique(gn, attrs))
  {
    if attrs != [] {
      var init := attrs[..|attrs| - 1];
      UsedIsGivenNames(gn, init);
      var prev := UniqueState(gn, init);
      var step := NumberStepUnique(gn, prev.1, prev.2, attrs[|attrs| - 1]);
      assert NumberedUnique(gn, attrs) == prev.0 + [step.0];
      assert NamesOf(gn, NumberedUnique(gn, attrs)) == NamesOf(gn, prev.0) + [gn(step.0)];
    }
  }

  /** After the corrected numbering no two attributes share a name. */
  lemma {:induction false} NumberedUniqueDistinct(gn: Attribute -> string, attrs: seq<Attribute>)
    requires CountLengthens(gn)
    ensures Distinct(NamesOf(gn, NumberedUnique(gn, attrs)))
  {
    if attrs != [] {
      var init := attrs[..|attrs| - 1];
      NumberedUniqueDistinct(gn, init);
      UsedIsGivenNames(gn, init);
      var prev := UniqueState(gn, init);
      var step := NumberStepUnique(gn, prev.1, prev.2, attrs[|attrs| - 1]);
      var g := NamesOf(gn, prev.0);
      assert NamesOf(gn, NumberedUnique(gn, attrs)) == g + [gn(step.0)];
      assert gn(step.0) !in g;
    }
  }

  /** Wherever the loop as written already gives distinct names, the
      corrected loop gives the same counts. */
  lemma {:induction false} UniqueAgreesWhenDistinct(gn: Attribute -> string, attrs: seq<Attribute>)
    requires CountLengthens(gn)
    requires Distinct(NamesOf(gn, Numbered(gn, attrs)))
    ensures NumberedUnique(gn, attrs) == Numbered(gn, attrs)
    ensures UniqueState(gn, attrs).1 == NumberState(gn, attrs).1
  {
    if attrs != [] {
      var init := attrs[..|attrs| - 1];
      var last := attrs[|attrs| - 1];
      var prev := NumberState(gn, init);
      var step := NumberStep(gn, prev.1, last);
      var g := NamesOf(gn, Numbered(gn, attrs));
      var gi := NamesOf(gn, prev.0);
      assert g == gi + [gn(step.0)];
      assert Distinct(gi) by {
        forall i, j | 0 <= i < j < |init| ensures gi[i] != gi[j] {
          assert g[i] != g[j];
        }
      }
      UniqueAgreesWhenDistinct(gn, init);
      UsedIsGivenNames(gn, init);
      assert gn(step.0) !in gi by {
        forall i | 0 <= i < |init| ensures gi[i] != gn(step.0) {
          assert g[i] != g[|attrs| - 1];
        }
      }
      var start := CountOf(prev.1, gn(last)) + 1;
      assert FreeCount(gn, last, start, UniqueState(gn, init).2) == start;
    }
  }

  lemma {:induction false} FreeCountOnlyReadsNames(gn: Attribute -> string, x: Attribute, y: Attribute, c: nat, used: set<string>)
    requires CountLengthens(gn) && ReadsOnlyNames(gn)
    requires x.name == y.name && x.ref == y.ref
    ensures FreeCount(gn, x, c, used) == FreeCount(gn, y, c, used)
    decreases Bound(used) - c
  {
    LongNameIsFresh(gn, x, c, used);
    assert NamingPart(x.(duplicateCount := c)) == NamingPart(y.(duplicateCount := c));
    if gn(x.(duplicateCount := c)) in used {
      FreeCountOnlyReadsNames(gn, x, y, c + 1, used);
    }
  }

  /** One corrected iteration reads only the naming fields of the attribute. */
  lemma StepOnlyReadsNames(gn: Attribute -> string, names: Counts, used: set<string>, x: Attribute, y: Attribute)
    requires CountLengthens(gn) && ReadsOnlyNames(gn)
    requires x.name == y.name && x.ref == y.ref && x.duplicateCount == y.duplicateCount
    ensures NumberStepUnique(gn, names, used, x).0.duplicateCount == NumberStepUnique(gn, names, used, y).0.duplicateCount
    ensures NumberStepUnique(gn, names, used, x).1 == NumberStepUnique(gn, names, used, y).1
    ensures NumberStepUnique(gn, names, used, x).2 == NumberStepUnique(gn, names, used, y).2
  {
    assert NamingPart(x) == NamingPart(y);
    var start := CountOf(names, gn(x)) + 1;
    FreeCountOnlyReadsNames(gn, x, y, start, used);
    var count := FreeCount(gn, x, start, used);
    assert NamingPart(x.(duplicateCount := count)) == NamingPart(y.(duplicateCount := count));
  }

  /** Lists that agree on names, references and counts leave the loop in
      the same state. */
  lemma {:induction false} StateOnlyReadsNames(gn: Attribute -> string, xs: seq<Attribute>, ys: seq<Attribute>)
    requires CountLengthens(gn) && ReadsOnlyNames(gn)
    requires |xs| == |ys|
    requires forall i :: 0 <= i < |xs| ==>
               xs[i].name == ys[i].name && xs[i].ref == ys[i].ref && xs[i].duplicateCount == ys[i].duplicateCount
    ensures UniqueState(gn, xs).1 == UniqueState(gn, ys).1 && UniqueState(gn, xs).2 == UniqueState(gn, ys).2
  {
    if xs != [] {
      var n := |xs| - 1;
      var px, py := xs[..n], ys[..n];
      assert forall i :: 0 <= i < n ==> px[i] == xs[i] && py[i] == ys[i];
      StateOnlyReadsNames(gn, px, py);
      var sx := UniqueState(gn, px);
      StepOnlyReadsNames(gn, sx.1, sx.2, xs[n], ys[n]);
    }
  }

  /** The counts depend only on the naming fields: lists that agree on names,
      references and counts are numbered alike, whatever their resolved
      references and types. */
  lemma {:induction false} NumberingOnlyReadsNames(gn: Attribute -> string, xs: seq<Attribute>, ys: seq<Attribute>)
    requires CountLengthens(gn) && ReadsOnlyNames(gn)
    requires |xs| == |ys|
    requires forall i :: 0 <= i < |xs| ==>
               xs[i].name == ys[i].name && xs[i].ref == ys[i].ref && xs[i].duplicateCount == ys[i].duplicateCount
    ensures forall i :: 0 <= i < |xs| ==> NumberedUnique(gn, xs)[i].duplicateCount == NumberedUnique(gn, ys)[i].duplicateCount
  {
    if xs != [] {
      var n := |xs| - 1;
      var px, py := xs[..n], ys[..n];
      assert forall i :: 0 <= i < n ==> px[i] == xs[i] && py[i] == ys[i];
      NumberingOnlyReadsNames(gn, px, py);
      StateOnlyReadsNames(gn, px, py);
      var sx, sy := UniqueState(gn, px), UniqueState(gn, py);
      StepOnlyReadsNames(gn, sx.1, sx.2, xs[n], ys[n]);
      var rx, ry := NumberedUnique(gn, xs), NumberedUnique(gn, ys);
      assert rx == sx.0 + [NumberStepUnique(gn, sx.1, sx.2, xs[n]).0];
      assert ry == sy.0 + [NumberStepUnique(gn, sy.1, sy.2, ys[n]).0];
      assert NumberedUnique(gn, px) == sx.0 && NumberedUnique(gn, py) == sy.0;
      forall i | 0 <= i < n ensures rx[i].duplicateCount == ry[i].duplicateCount {
        assert rx[i] == sx.0[i] && ry[i] == sy.0[i];
      }
    }
  }

  /** Under the corrected loop a second compile of "id", "Id" changes
      nothing: they stay Id, Id2. */
  lemma CorrectedRecompileStable()
    ensures var once := NumberedGoNames([Named("id"), Named("Id")]);
            NamesOf(AttrGoName, once) == ["Id", "Id2"] && NumberedGoNames(once) == once
  {
    AttrGoNameFacts();
    IdAndIdBecomeIdAndId2();
    SameNameCountsOneTwo(AttrGoName, Named("id"), Named("Id"));
    UniqueAgreesWhenDistinct(AttrGoName, [Named("id"), Named("Id")]);
    CorrectedSecondPass();
  }

  /** The corrected loop over Id(count 1), Id2(count 2) keeps both counts. */
  lemma CorrectedSecondPass()
    ensures CountLengthens(AttrGoName)
    ensures var x, y := Named("id").(duplicateCount := 1), Named("Id").(duplicateCount := 2);
            NumberedUnique(AttrGoName, [x, y]) == [x, y]
  {
    AttrGoNameFacts();
    var x, y := Named("id").(duplicateCount := 1), Named("Id").(duplicateCount := 2);
    var m1: Counts := map["Id" := 1];
    CorrectedFirstStep();
    UniqueStatePush(AttrGoName, [x], y);
    assert [x] + [y] == [x, y];
    assert CountOf(m1, "Id2") == 0 by { IdNames(); }
    CorrectedSkipsTaken();
    assert NumberStepUnique(AttrGoName, m1, {"Id"}, y).0 == y;
  }

  lemma CorrectedFirstStep()
    ensures CountLengthens(AttrGoName)
    ensures UniqueState(AttrGoName, [Named("id").(duplicateCount := 1)]) ==
              ([Named("id").(duplicateCount := 1)], map["Id" := 1], {"Id"})
  {
    AttrGoNameFacts();
    var x := Named("id").(duplicateCount := 1);
    assert AttrGoName(x) == "Id" by { IdNames(); }
    var empty: seq<Attribute> := [];
    assert UniqueState(AttrGoName, empty) == ([], map[], {});
    UniqueStatePush(AttrGoName, empty, x);
    assert empty + [x] == [x];
    assert x.(duplicateCount := 1) == x;
    assert CountOf(map[], "Id") == 0;
    assert FreeCount(AttrGoName, x, 1, {}) == 1;
    var step := NumberStepUnique(AttrGoName, map[], {}, x);
    assert step.0 == x;
    assert step.1 == map["Id" := 1]["Id" := 1] == map["Id" := 1];
    assert step.2 == {} + {"Id"} == {"Id"};
  }

  /** Count 1 of the second attribute names Id, which is taken; count 2
      names Id2, which is free. */
  lemma CorrectedSkipsTaken()
    ensures CountLengthens(AttrGoName)
    ensures FreeCount(AttrGoName, Named("Id").(duplicateCount := 2), 1, {"Id"}) == 2
  {
    AttrGoNameFacts();
    IdNames();
    var y := Named("Id").(duplicateCount := 2);
    assert y.(duplicateCount := 1) == Named("Id").(duplicateCount := 1);
    assert y.(duplicateCount := 2) == y;
    assert FreeCount(AttrGoName, y, 2, {"Id"}) == 2;
  }

  /** The corrected numbering with Attribute.GoName, as compile applies it:
      only counts change, and no two attributes end up with one Go name. */
  function NumberedGoNames(attrs: seq<Attribute>): (r: seq<Attribute>)
    ensures |r| == |attrs| && Distinct(NamesOf(AttrGoName, r))
    ensures SameButCounts(attrs, r)
  {
    AttrGoNameFacts();
    NumberedUniqueDistinct(AttrGoName, attrs);
    NumberedUniqueShape(AttrGoName, attrs);
    NumberedUnique(AttrGoName, attrs)
  }
}
