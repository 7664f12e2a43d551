/** GetAllTemplates (pkg/xsd2go/template.go:86-115): the template directory
    is listed and every file whose name ends in ".incl" or ".elem" becomes a
    template override keyed by the name without that suffix. The directory
    listing is a parameter: the embedded file system is not modelled. */
module Templates {
  import opened Results
  import opened Text
  import opened Decls

  const InclSuffix := ".incl"
  const ElemSuffix := ".elem"

  /** The listing holds the file `k` + `suffix`. */
  predicate Lists(names: seq<string>, k: string, suffix: string) {
    k + suffix in names
  }

  /** The base names the listing provides a template for. */
  function TemplateKeys(names: seq<string>): (keys: set<string>)
    ensures forall k :: k in keys <==> Lists(names, k, InclSuffix) || Lists(names, k, ElemSuffix)
  {
    var keys := set n, s | n in names && s in {InclSuffix, ElemSuffix} && HasSuffix(n, s) :: CutSuffix(n, s).0;
    assert forall k :: Lists(names, k, InclSuffix) ==> k in keys by {
      forall k | Lists(names, k, InclSuffix) ensures k in keys {
        CutSuffixIff(k + InclSuffix, InclSuffix, k);
      }
    }
    assert forall k :: Lists(names, k, ElemSuffix) ==> k in keys by {
      forall k | Lists(names, k, ElemSuffix) ensures k in keys {
        CutSuffixIff(k + ElemSuffix, ElemSuffix, k);
      }
    }
    keys
  }

  /** What the listing promises, independent of its order: one override per
      base name, named after it, flagged for each suffix present. */
  function ExpectedTemplates(names: seq<string>): (m: map<string, Override>)
    ensures m.Keys == TemplateKeys(names)
    ensures forall k :: k in m ==> m[k].templateName == k
    ensures forall k :: k in m ==> (m[k].isIncl <==> Lists(names, k, InclSuffix))
    ensures forall k :: k in m ==> (m[k].isElem <==> Lists(names, k, ElemSuffix))
    ensures forall k :: k in m ==> !m[k].isCompTyp && !m[k].templateUsed
  {
    map k | k in TemplateKeys(names) :: Override(k, Lists(names, k, InclSuffix), Lists(names, k, ElemSuffix), false, false)
  }

  /** strings.CutSuffix finds `k` exactly when the name is `k` followed by
      the suffix. */
  lemma CutSuffixIff(n: string, suffix: string, k: string)
    ensures CutSuffix(n, suffix) == (k, true) <==> n == k + suffix
  {
    if n == k + suffix {
      assert n[|n| - |suffix|..] == suffix;
      assert n[..|n| - |suffix|] == k;
    }
  }

  /** The loop body's update for one suffix found: the entry is created if
      missing, then given the flag. */
  function Mark(m: map<string, Override>, k: string, incl: bool): (r: map<string, Override>)
    ensures r.Keys == m.Keys + {k}
  {
    var o := if k in m then m[k] else Override(k, false, false, false, false);
    m[k := if incl then o.(isIncl := true) else o.(isElem := true)]
  }

  /** One turn of the loop of GetAllTemplates on the file name `n`: the
      ".incl" check, then the ".elem" check. */
  function Step(m: map<string, Override>, n: string): map<string, Override> {
    var (bi, fi) := CutSuffix(n, InclSuffix);
    var m1 := if fi then Mark(m, bi, true) else m;
    var (be, fe) := CutSuffix(n, ElemSuffix);
    if fe then Mark(m1, be, false) else m1
  }

  lemma ListsAppend(names: seq<string>, n: string, k: string, suffix: string)
    ensures Lists(names + [n], k, suffix) <==> Lists(names, k, suffix) || CutSuffix(n, suffix) == (k, true)
  {
    CutSuffixIff(n, suffix, k);
  }

  /** Both tables agree on the key `k`. */
  lemma StepAt(names: seq<string>, n: string, k: string)
    ensures k in ExpectedTemplates(names + [n]) <==> k in Step(ExpectedTemplates(names), n)
    ensures k in ExpectedTemplates(names + [n]) ==>
      ExpectedTemplates(names + [n])[k] == Step(ExpectedTemplates(names), n)[k]
  {
    ListsAppend(names, n, k, InclSuffix);
    ListsAppend(names, n, k, ElemSuffix);
  }

  /** The table the loop has built after the names `names`. */
  function Built(names: seq<string>): map<string, Override> {
    if names == [] then map[] else Step(Built(names[..|names| - 1]), names[|names| - 1])
  }

  /** The loop builds the expected table, whatever the order of the names. */
  lemma {:induction false} BuiltIsExpected(names: seq<string>)
    ensures Built(names) == ExpectedTemplates(names)
  {
    if names == [] {
      assert ExpectedTemplates(names).Keys == {};
    } else {
      var init := names[..|names| - 1];
      BuiltIsExpected(init);
      assert init + [names[|names| - 1]] == names;
      ExpectedStep(init, names[|names| - 1]);
    }
  }

  /** One more file name changes the expected table exactly as one turn of
      the loop does. */
  lemma ExpectedStep(names: seq<string>, n: string)
    ensures ExpectedTemplates(names + [n]) == Step(ExpectedTemplates(names), n)
  {
    var after, stepped := ExpectedTemplates(names + [n]), Step(ExpectedTemplates(names), n);
    forall k ensures k in after <==> k in stepped {
      StepAt(names, n, k);
    }
    forall k | k in after ensures after[k] == stepped[k] {
      StepAt(names, n, k);
    }
  }

  /** GetAllTemplates: a listing error is returned as is; otherwise the
      table is built name by name. */
  method GetAllTemplates(listing: Result<seq<string>>) returns (r: Result<map<string, Override>>)
    ensures listing.Fail? ==> r == Fail(listing.error)
    ensures listing.Ok? ==> r == Ok(ExpectedTemplates(listing.value))
  {
    if listing.Fail? {
      return Fail(listing.error);
    }
    var dir := listing.value;
    var templates: map<string, Override> := map[];
    for indx := 0 to |dir|
      invariant templates == Built(dir[..indx])
    {
      assert dir[..indx + 1][..indx] == dir[..indx];
      var name, found := CutSuffix(dir[indx], InclSuffix).0, CutSuffix(dir[indx], InclSuffix).1;
      if found {
        if name !in templates {
          templates := templates[name := Override(name, false, false, false, false)];
        }
        var override := templates[name];
        override := override.(isIncl := true);
        templates := templates[name := override];
      }
      name, found := CutSuffix(dir[indx], ElemSuffix).0, CutSuffix(dir[indx], ElemSuffix).1;
      if found {
        if name !in templates {
          templates := templates[name := Override(name, false, false, false, false)];
        }
        var override := templates[name];
        override := override.(isElem := true);
        templates := templates[name := override];
      }
    }
    assert dir[..|dir|] == dir;
    BuiltIsExpected(dir);
    return Ok(templates);
  }

  /** A file with neither suffix adds no template. */
  lemma OtherFilesIgnored(names: seq<string>, n: string)
    requires !HasSuffix(n, InclSuffix) && !HasSuffix(n, ElemSuffix)
    ensures ExpectedTemplates(names + [n]) == ExpectedTemplates(names)
  {
    ExpectedStep(names, n);
  }

  /** "a.incl" and "a.elem" together give one entry with both flags,
      whichever is listed first. */
  lemma BothSuffixesBothFlags(names: seq<string>, k: string)
    requires Lists(names, k, InclSuffix) && Lists(names, k, ElemSuffix)
    ensures k in ExpectedTemplates(names)
    ensures ExpectedTemplates(names)[k] == Override(k, true, true, false, false)
  {
  }
}
