/** The `--xmlns-override=namespace=package` table: which Go package name to
    use for the schema whose target namespace is given. */
module XmlnsOverrides {
  import opened Results
  import opened Text

  type XmlnsOverrideTable = map<string, string>

  /** An override is usable when it splits around '=' into exactly two
      non-empty fields (runs of '=' count as one separator, empty fields are
      dropped). */
  predicate ValidXmlnsOverride(s: string) {
    |Fields(s, '=')| == 2
  }

  function OverrideKey(s: string): string
    requires ValidXmlnsOverride(s)
  {
    Fields(s, '=')[0]
  }

  function OverrideValue(s: string): string
    requires ValidXmlnsOverride(s)
  {
    Fields(s, '=')[1]
  }

  function InvalidXmlnsOverride(s: string): Error {
    InvalidOverride("invalid xmlns override: '" + s + "' expecting exactly one '=' in the string")
  }

  /** What parsing the list overrides[..] produces: the first invalid entry
      aborts, otherwise each entry binds its key and later entries win. */
  function ParsedXmlnsOverrides(overrides: seq<string>): Result<XmlnsOverrideTable> {
    if overrides == [] then Ok(map[])
    else
      var init := ParsedXmlnsOverrides(overrides[..|overrides| - 1]);
      var last := overrides[|overrides| - 1];
      if init.Fail? then init
      else if !ValidXmlnsOverride(last) then
        Fail(InvalidXmlnsOverride(last))
      else Ok(init.value[OverrideKey(last) := OverrideValue(last)])
  }

  /** ParseXmlnsOverrides: fills the table entry by entry and returns at the
      first entry that does not split into two fields. */
  method ParseXmlnsOverrides(overrides: seq<string>) returns (r: Result<XmlnsOverrideTable>)
    ensures r == ParsedXmlnsOverrides(overrides)
  {
    var ret: XmlnsOverrideTable := map[];
    var i := 0;
    while i < |overrides|
      invariant 0 <= i <= |overrides|
      invariant ParsedXmlnsOverrides(overrides[..i]) == Ok(ret)
    {
      var override := overrides[i];
      var fields := Fields(override, '=');
      assert overrides[..i + 1][..i] == overrides[..i];
      if |fields| != 2 {
        PrefixFailure(overrides, i + 1);
        assert overrides[..|overrides|] == overrides;
        return Fail(InvalidXmlnsOverride(override));
      }
      ret := ret[fields[0] := fields[1]];
      i := i + 1;
    }
    assert overrides[..i] == overrides;
    return Ok(ret);
  }

  /** Once a prefix of the list fails, the whole list fails with the same error. */
  lemma {:induction false} PrefixFailure(overrides: seq<string>, k: nat)
    requires k <= |overrides|
    requires ParsedXmlnsOverrides(overrides[..k]).Fail?
    ensures ParsedXmlnsOverrides(overrides) == ParsedXmlnsOverrides(overrides[..k])
    decreases |overrides| - k
  {
    if k < |overrides| {
      assert overrides[..k + 1][..k] == overrides[..k];
      PrefixFailure(overrides, k + 1);
    } else {
      assert overrides[..k] == overrides;
    }
  }

  /** xmlnsOverrides.override: the package bound to the namespace, or "". */
  function Override(table: XmlnsOverrideTable, xmlns: string): (pkg: string)
    ensures xmlns !in table ==> pkg == ""
    ensures xmlns in table ==> pkg == table[xmlns]
  {
    if xmlns in table then table[xmlns] else ""
  }

  /** Parsing fails exactly when some entry is invalid. */
  lemma {:induction false} ParseFailsIffInvalidEntry(overrides: seq<string>)
    ensures ParsedXmlnsOverrides(overrides).Fail? <==>
            exists i :: 0 <= i < |overrides| && !ValidXmlnsOverride(overrides[i])
  {
    if overrides != [] {
      var n := |overrides| - 1;
      var init := overrides[..n];
      ParseFailsIffInvalidEntry(init);
      assert forall i :: 0 <= i < n ==> init[i] == overrides[i];
    }
  }

  /** A failed parse reports the first invalid entry. */
  lemma {:induction false} ParseReportsFirstInvalidEntry(overrides: seq<string>)
    requires ParsedXmlnsOverrides(overrides).Fail?
    ensures exists i :: 0 <= i < |overrides| && !ValidXmlnsOverride(overrides[i]) &&
                        (forall j :: 0 <= j < i ==> ValidXmlnsOverride(overrides[j])) &&
                        ParsedXmlnsOverrides(overrides).error == InvalidXmlnsOverride(overrides[i])
  {
    var n := |overrides| - 1;
    var init := overrides[..n];
    assert forall i :: 0 <= i < n ==> init[i] == overrides[i];
    if ParsedXmlnsOverrides(init).Fail? {
      ParseReportsFirstInvalidEntry(init);
      var i :| 0 <= i < n && !ValidXmlnsOverride(init[i]) &&
               (forall j :: 0 <= j < i ==> ValidXmlnsOverride(init[j])) &&
               ParsedXmlnsOverrides(init).error == InvalidXmlnsOverride(init[i]);
      assert !ValidXmlnsOverride(overrides[i]);
    } else {
      ParseFailsIffInvalidEntry(init);
      assert !ValidXmlnsOverride(overrides[n]);
    }
  }

  /** On success the keys of the table are exactly the keys of the entries. */
  lemma {:induction false} ParsedKeys(overrides: seq<string>)
    requires ParsedXmlnsOverrides(overrides).Ok?
    ensures forall i :: 0 <= i < |overrides| ==> ValidXmlnsOverride(overrides[i])
    ensures forall k :: k in ParsedXmlnsOverrides(overrides).value <==>
                        exists i :: 0 <= i < |overrides| && OverrideKey(overrides[i]) == k
  {
    if overrides != [] {
      var n := |overrides| - 1;
      var init := overrides[..n];
      ParsedKeys(init);
      assert forall i :: 0 <= i < n ==> init[i] == overrides[i];
      var table := ParsedXmlnsOverrides(overrides).value;
      forall k | k in table
        ensures exists i :: 0 <= i < |overrides| && OverrideKey(overrides[i]) == k
      {
        if k != OverrideKey(overrides[n]) {
          var i :| 0 <= i < n && OverrideKey(init[i]) == k;
          assert OverrideKey(overrides[i]) == k;
        }
      }
    }
  }

  /** On success each namespace is bound to the package of its last entry:
      a later entry for the same namespace replaces an earlier one. */
  lemma {:induction false} ParsedLastEntryWins(overrides: seq<string>, i: nat)
    requires ParsedXmlnsOverrides(overrides).Ok?
    requires i < |overrides|
    requires ValidXmlnsOverride(overrides[i])
    requires forall j :: i < j < |overrides| ==>
               !ValidXmlnsOverride(overrides[j]) || OverrideKey(overrides[j]) != OverrideKey(overrides[i])
    ensures OverrideKey(overrides[i]) in ParsedXmlnsOverrides(overrides).value
    ensures ParsedXmlnsOverrides(overrides).value[OverrideKey(overrides[i])] == OverrideValue(overrides[i])
  {
    var n := |overrides| - 1;
    var init := overrides[..n];
    if i < n {
      assert init[i] == overrides[i];
      assert forall j :: i < j < n ==> init[j] == overrides[j];
      ParsedLastEntryWins(init, i);
    }
  }

  /** One step of the field scanner over an '='-separated string. */
  lemma FieldsStep(c: char, rest: string, cur: string)
    requires '=' !in cur
    ensures FieldsAcc([c] + rest, '=', cur) ==
            if c == '=' then Flush(cur) + FieldsAcc(rest, '=', []) else FieldsAcc(rest, '=', cur + [c])
  {
    assert ([c] + rest)[1..] == rest;
  }

  /** Because empty fields are dropped, a doubled '=' still separates two fields. */
  lemma {:induction false} DoubledSeparatorAccepted()
    ensures Fields("a==b", '=') == ["a", "b"]
    ensures ParsedXmlnsOverrides(["a==b"]) == Ok(map["a" := "b"])
  {
    assert "a==b" == ['a'] + "==b";
    assert "" + ['a'] == "a";
    FieldsStep('a', "==b", "");
    assert "==b" == ['='] + "=b";
    FieldsStep('=', "=b", "a");
    assert "=b" == ['='] + "b";
    FieldsStep('=', "b", "");
    assert "b" == ['b'] + "";
    assert "" + ['b'] == "b";
    FieldsStep('b', "", "");
    assert ["a==b"][..0] == [];
  }

  /** A missing namespace or package is rejected. */
  lemma {:induction false} MissingSideRejected()
    ensures !ValidXmlnsOverride("a=")
    ensures !ValidXmlnsOverride("=b")
  {
    assert "a=" == ['a'] + "=";
    assert "" + ['a'] == "a";
    FieldsStep('a', "=", "");
    assert "=" == ['='] + "";
    FieldsStep('=', "", "a");
    assert "=b" == ['='] + "b";
    FieldsStep('=', "b", "");
    assert "b" == ['b'] + "";
    assert "" + ['b'] == "b";
    FieldsStep('b', "", "");
  }

  /** A second separator is rejected, and one bad entry fails the whole list. */
  lemma {:induction false} ThreeFieldsRejected()
    ensures !ValidXmlnsOverride("a=b=c")
    ensures ParsedXmlnsOverrides(["x=y", "a=b=c"]).Fail?
  {
    assert "a=b=c" == ['a'] + "=b=c";
    assert "" + ['a'] == "a";
    FieldsStep('a', "=b=c", "");
    assert "=b=c" == ['='] + "b=c";
    FieldsStep('=', "b=c", "a");
    assert "b=c" == ['b'] + "=c";
    assert "" + ['b'] == "b";
    FieldsStep('b', "=c", "");
    assert "=c" == ['='] + "c";
    FieldsStep('=', "c", "b");
    assert "c" == ['c'] + "";
    assert "" + ['c'] == "c";
    FieldsStep('c', "", "");
    assert "x=y" == ['x'] + "=y";
    assert "" + ['x'] == "x";
    FieldsStep('x', "=y", "");
    assert "=y" == ['='] + "y";
    FieldsStep('=', "y", "x");
    assert "y" == ['y'] + "";
    assert "" + ['y'] == "y";
    FieldsStep('y', "", "");
    assert ["x=y", "a=b=c"][..1] == ["x=y"];
    assert ["x=y"][..0] == [];
  }
}
