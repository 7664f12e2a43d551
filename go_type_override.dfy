/** The `namespace:Type=GoType` override table: per namespace URI, which
    Go type to use in place of a referenced XSD type. */
module TypeOverrides {
  import opened Results
  import opened Text

  type TypeOverrideTable = map<string, map<string, string>>

  /** The three parts of one override: namespace URI, type name, Go type. */
  datatype TypeOverride = TypeOverride(schemaUri: string, typeName: string, goType: string)

  function NoEqualsError(s: string): Error {
    InvalidOverride("invalid override format: expected at least 1 '=' in \"" + s + "\"")
  }

  /** Splits one override: at the first '=' into key and Go type, then the key
      at its last ':' into namespace URI and type name. A key without ':'
      makes the source slice with index -1, a runtime failure. */
  function ParseTypeOverride(s: string): (r: Result<TypeOverride>)
    ensures '=' !in s <==> r == Fail(NoEqualsError(s))
  {
    var parts := SplitOnce(s, '=');
    if |parts| != 2 then Fail(NoEqualsError(s))
    else
      var key := parts[0];
      var index := LastIndexOf(key, ':');
      if index == -1 then Fail(IndexOutOfRange("slice bounds out of range [:-1]"))
      else Ok(TypeOverride(key[..index], key[index + 1..], parts[1]))
  }

  /** A parsed override reassembles to the string it came from; the type name
      holds no ':' and neither the URI nor the type name holds '='. A key
      without ':' is the only other way to fail. */
  lemma ParseTypeOverrideRoundTrip(s: string)
    ensures ParseTypeOverride(s).Ok? ==>
              var o := ParseTypeOverride(s).value;
              o.schemaUri + ":" + o.typeName + "=" + o.goType == s &&
              ':' !in o.typeName && '=' !in o.schemaUri && '=' !in o.typeName
    ensures ParseTypeOverride(s).Fail? && '=' in s ==> ':' !in SplitOnce(s, '=')[0]
  {
    var parts := SplitOnce(s, '=');
    if |parts| == 2 {
      var key := parts[0];
      assert '=' !in key && key + "=" + parts[1] == s;
      var index := LastIndexOf(key, ':');
      if index != -1 {
        var uri, name := key[..index], key[index + 1..];
        assert key == uri + [':'] + name;
        assert ':' !in name;
        assert forall c :: c in uri ==> c in key;
        assert forall c :: c in name ==> c in key;
        assert ParseTypeOverride(s) == Ok(TypeOverride(uri, name, parts[1]));
        assert uri + ":" + name + "=" + parts[1] == s;
      }
    }
  }

  /** The (namespace, type name) an override string is about, if it parses. */
  function OverrideKey(s: string): Option<(string, string)> {
    var o := ParseTypeOverride(s);
    if o.Ok? then Some((o.value.schemaUri, o.value.typeName)) else None
  }

  /** Adds one parsed override, keeping the namespace's earlier entries. */
  function AddOverride(table: TypeOverrideTable, o: TypeOverride): (t: TypeOverrideTable)
    ensures t.Keys == table.Keys + {o.schemaUri}
    ensures o.typeName in t[o.schemaUri] && t[o.schemaUri][o.typeName] == o.goType
    ensures forall u :: u in table && u != o.schemaUri ==> t[u] == table[u]
    ensures o.schemaUri in table ==>
              forall n :: n in table[o.schemaUri] && n != o.typeName ==>
                n in t[o.schemaUri] && t[o.schemaUri][n] == table[o.schemaUri][n]
  {
    var inner := if o.schemaUri in table then table[o.schemaUri] else map[];
    table[o.schemaUri := inner[o.typeName := o.goType]]
  }

  /** What parsing the list produces: the first failing entry aborts,
      otherwise the entries are added in order. */
  function ParsedTypeOverrides(overrides: seq<string>): Result<TypeOverrideTable> {
    if overrides == [] then Ok(map[])
    else AddParsed(ParsedTypeOverrides(overrides[..|overrides| - 1]), overrides[|overrides| - 1])
  }

  /** One step of the parse: an earlier failure stands, otherwise the entry is
      parsed and added. */
  function AddParsed(acc: Result<TypeOverrideTable>, s: string): (r: Result<TypeOverrideTable>)
    ensures acc.Fail? ==> r == acc
  {
    if acc.Fail? then acc
    else
      var o := ParseTypeOverride(s);
      if o.Fail? then Fail(o.error) else Ok(AddOverride(acc.value, o.value))
  }

  /** parseTypeOverrides: builds the nested table entry by entry. */
  method ParseTypeOverrides(overrides: seq<string>) returns (r: Result<TypeOverrideTable>)
    ensures r == ParsedTypeOverrides(overrides)
  {
    var result: TypeOverrideTable := map[];
    var i := 0;
    while i < |overrides|
      invariant 0 <= i <= |overrides|
      invariant ParsedTypeOverrides(overrides[..i]) == Ok(result)
    {
      var override := overrides[i];
      assert overrides[..i + 1][..i] == overrides[..i];
      var parts := SplitOnce(override, '=');
      if |parts| != 2 {
        TypePrefixFailure(overrides, i + 1);
        return Fail(NoEqualsError(override));
      }
      var index := LastIndexOf(parts[0], ':');
      if index == -1 {
        TypePrefixFailure(overrides, i + 1);
        return Fail(IndexOutOfRange("slice bounds out of range [:-1]"));
      }
      var schemaUri := parts[0][..index];
      var typeName := parts[0][index + 1..];
      var overrideMap: map<string, string>;
      if schemaUri in result {
        overrideMap := result[schemaUri];
      } else {
        overrideMap := map[];
      }
      overrideMap := overrideMap[typeName := parts[1]];
      result := result[schemaUri := overrideMap];
      i := i + 1;
    }
    assert overrides[..i] == overrides;
    return Ok(result);
  }

  lemma {:induction false} TypePrefixFailure(overrides: seq<string>, k: nat)
    requires k <= |overrides|
    requires ParsedTypeOverrides(overrides[..k]).Fail?
    ensures ParsedTypeOverrides(overrides) == ParsedTypeOverrides(overrides[..k])
    decreases |overrides| - k
  {
    if k < |overrides| {
      assert overrides[..k + 1][..k] == overrides[..k];
      TypePrefixFailure(overrides, k + 1);
    } else {
      assert overrides[..k] == overrides;
    }
  }

  /** typeOverrides.overrideType: "not overridden" exactly when the namespace
      has no entry; otherwise "overridden", with "" for a type name the
      namespace does not list. */
  function OverrideType(t: TypeOverrideTable, schema: string, typeName: string): (r: (string, bool))
    ensures !r.1 <==> schema !in t
    ensures !r.1 ==> r.0 == ""
    ensures r.1 && typeName in t[schema] ==> r.0 == t[schema][typeName]
    ensures r.1 && typeName !in t[schema] ==> r.0 == ""
  {
    if schema !in t then ("", false)
    else
      var overrides := t[schema];
      (if typeName in overrides then overrides[typeName] else "", true)
  }

  /** Only the first '=' splits: the Go type may itself contain '='. A key is
      split at its last ':', so a namespace URI may contain ':'. */
  lemma {:induction false} SplitPositions(uri: string, name: string, goType: string)
    requires '=' !in uri && '=' !in name && ':' !in name
    ensures ParseTypeOverride(uri + ":" + name + "=" + goType) == Ok(TypeOverride(uri, name, goType))
  {
    var s := uri + ":" + name + "=" + goType;
    var key := uri + ":" + name;
    assert s == key + "=" + goType;
    assert '=' !in key;
    var parts := SplitOnce(s, '=');
    assert parts[0] + ['='] + parts[1] == s;
    var i := IndexOf(s, '=');
    assert s[|key|] == '=';
    assert i == |key| by {
      assert s[..|key|] == key;
    }
    assert parts[0] == key;
    assert parts[1] == goType;
    var index := LastIndexOf(key, ':');
    assert key[|uri|] == ':';
    assert index == |uri| by {
      assert key[|uri| + 1..] == name;
    }
    assert key[..index] == uri;
    assert key[index + 1..] == name;
  }

  /** The table maps the override's namespace and type name to its Go type. */
  predicate Holds(t: TypeOverrideTable, o: TypeOverride) {
    o.schemaUri in t && o.typeName in t[o.schemaUri] && t[o.schemaUri][o.typeName] == o.goType
  }

  /** Entries for one namespace accumulate in one inner table, and a repeated
      (namespace, type name) keeps the Go type of its last entry. */
  lemma {:induction false} ParsedTypeOverridesLastWins(overrides: seq<string>, i: nat)
    requires ParsedTypeOverrides(overrides).Ok?
    requires i < |overrides|
    requires forall j :: i < j < |overrides| ==> OverrideKey(overrides[j]) != OverrideKey(overrides[i])
    ensures ParseTypeOverride(overrides[i]).Ok?
    ensures Holds(ParsedTypeOverrides(overrides).value, ParseTypeOverride(overrides[i]).value)
  {
    var n := |overrides| - 1;
    var init := overrides[..n];
    var acc := ParsedTypeOverrides(init);
    var full := AddParsed(acc, overrides[n]);
    assert ParsedTypeOverrides(overrides) == full;
    if i < n {
      LaterKeysOfPrefix(overrides, i);
      ParsedTypeOverridesLastWins(init, i);
      var o := ParseTypeOverride(init[i]).value;
      assert init[i] == overrides[i];
      assert OverrideKey(overrides[n]) != Some((o.schemaUri, o.typeName));
      AddParsedKeeps(acc.value, overrides[n], o);
      assert Holds(full.value, o);
    } else {
      AddParsedAdds(acc.value, overrides[n]);
    }
  }

  lemma LaterKeysOfPrefix(overrides: seq<string>, i: nat)
    requires i < |overrides| - 1
    requires forall j :: i < j < |overrides| ==> OverrideKey(overrides[j]) != OverrideKey(overrides[i])
    ensures var init := overrides[..|overrides| - 1];
            forall j :: i < j < |init| ==> OverrideKey(init[j]) != OverrideKey(init[i])
  {
  }

  /** Adding an entry for a different (namespace, type name) keeps an
      existing entry. */
  lemma AddParsedKeeps(acc: TypeOverrideTable, s: string, o: TypeOverride)
    requires AddParsed(Ok(acc), s).Ok?
    requires Holds(acc, o)
    requires OverrideKey(s) != Some((o.schemaUri, o.typeName))
    ensures Holds(AddParsed(Ok(acc), s).value, o)
  {
    var p := ParseTypeOverride(s).value;
    assert (p.schemaUri, p.typeName) != (o.schemaUri, o.typeName);
  }

  /** Adding an entry makes it present. */
  lemma AddParsedAdds(acc: TypeOverrideTable, s: string)
    requires AddParsed(Ok(acc), s).Ok?
    ensures ParseTypeOverride(s).Ok?
    ensures Holds(AddParsed(Ok(acc), s).value, ParseTypeOverride(s).value)
  {
  }

  /** A string without '=' makes the whole list fail, whatever else it holds. */
  lemma {:induction false} MissingEqualsFails(overrides: seq<string>, i: nat)
    requires i < |overrides| && '=' !in overrides[i]
    ensures ParsedTypeOverrides(overrides).Fail?
  {
    var n := |overrides| - 1;
    if i < n {
      assert overrides[..n][i] == overrides[i];
      MissingEqualsFails(overrides[..n], i);
    } else {
      assert ParseTypeOverride(overrides[n]).Fail?;
    }
  }

  /** Every namespace a parsed table holds has at least one type entry. */
  lemma {:induction false} ParsedNamespacesNonEmpty(overrides: seq<string>)
    requires ParsedTypeOverrides(overrides).Ok?
    ensures forall u :: u in ParsedTypeOverrides(overrides).value ==> |ParsedTypeOverrides(overrides).value[u]| > 0
  {
    if overrides != [] {
      ParsedNamespacesNonEmpty(overrides[..|overrides| - 1]);
    }
  }
}
