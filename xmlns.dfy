/** The namespace table of one schema document: the `xmlns:prefix="uri"`
    declarations found on its root element (Namespaces in XML 1.0,
    section 3). */
module Xmlns {

  /** One attribute of the root element, as the XML decoder reports it:
      name space, local name and value. */
  datatype XmlAttr = XmlAttr(space: string, local: string, value: string)

  /** One entry of the table: a declared prefix and the namespace URI it stands for. */
  datatype NsDecl = NsDecl(prefix: string, uri: string)

  predicate IsNsDecl(a: XmlAttr) {
    a.space == "xmlns"
  }

  function DeclOf(a: XmlAttr): NsDecl {
    NsDecl(a.local, a.value)
  }

  /** The declarations among attrs, in document order. */
  function NamespaceDecls(attrs: seq<XmlAttr>): seq<NsDecl> {
    if attrs == [] then []
    else
      var last := attrs[|attrs| - 1];
      NamespaceDecls(attrs[..|attrs| - 1]) + (if IsNsDecl(last) then [DeclOf(last)] else [])
  }

  /** parseXmlns: walks the attributes and appends one entry per namespace declaration. */
  method ParseXmlns(attrs: seq<XmlAttr>) returns (result: seq<NsDecl>)
    ensures result == NamespaceDecls(attrs)
  {
    result := [];
    var i := 0;
    while i < |attrs|
      invariant 0 <= i <= |attrs|
      invariant result == NamespaceDecls(attrs[..i])
    {
      var attr := attrs[i];
      assert attrs[..i + 1][..i] == attrs[..i];
      if attr.space == "xmlns" {
        result := result + [NsDecl(attr.local, attr.value)];
      }
      i := i + 1;
    }
    assert attrs[..i] == attrs;
  }

  /** The filter distributes over concatenation: document order is preserved. */
  lemma {:induction false} DeclsAppend(a: seq<XmlAttr>, b: seq<XmlAttr>)
    ensures NamespaceDecls(a + b) == NamespaceDecls(a) + NamespaceDecls(b)
    decreases |b|
  {
    if b == [] {
      assert a + b == a;
    } else {
      var b' := b[..|b| - 1];
      assert (a + b)[..|a + b| - 1] == a + b';
      DeclsAppend(a, b');
    }
  }

  /** An entry is in the table exactly when some attribute in the xmlns name
      space declares it: its local name is the prefix and its value the URI. */
  lemma {:induction false} DeclsMembership(attrs: seq<XmlAttr>, d: NsDecl)
    ensures d in NamespaceDecls(attrs) <==>
            exists i :: 0 <= i < |attrs| && IsNsDecl(attrs[i]) && d == NsDecl(attrs[i].local, attrs[i].value)
  {
    if attrs != [] {
      var init := attrs[..|attrs| - 1];
      DeclsMembership(init, d);
      if exists i :: 0 <= i < |attrs| && IsNsDecl(attrs[i]) && d == DeclOf(attrs[i]) {
        var i :| 0 <= i < |attrs| && IsNsDecl(attrs[i]) && d == DeclOf(attrs[i]);
        if i < |attrs| - 1 {
          assert init[i] == attrs[i];
        }
      }
      if d in NamespaceDecls(init) {
        var i :| 0 <= i < |init| && IsNsDecl(init[i]) && d == DeclOf(init[i]);
        assert attrs[i] == init[i];
      }
    }
  }

  /** The table is never longer than the attribute list, and is empty when no
      attribute declares a namespace. */
  lemma {:induction false} DeclsLength(attrs: seq<XmlAttr>)
    ensures |NamespaceDecls(attrs)| <= |attrs|
    ensures (forall i :: 0 <= i < |attrs| ==> !IsNsDecl(attrs[i])) ==> NamespaceDecls(attrs) == []
  {
    if attrs != [] {
      var init := attrs[..|attrs| - 1];
      DeclsLength(init);
      if forall i :: 0 <= i < |attrs| ==> !IsNsDecl(attrs[i]) {
        assert forall i :: 0 <= i < |init| ==> init[i] == attrs[i];
      }
    }
  }

  /** The position of the first entry whose key is k, or -1. */
  function FirstWith(table: seq<NsDecl>, k: string, byUri: bool): (r: int)
    ensures -1 <= r < |table|
    ensures r == -1 ==> forall i :: 0 <= i < |table| ==> Key(table[i], byUri) != k
    ensures r >= 0 ==> Key(table[r], byUri) == k && forall j :: 0 <= j < r ==> Key(table[j], byUri) != k
    decreases |table|
  {
    if table == [] then -1
    else if Key(table[|table| - 1], byUri) == k && FirstWith(table[..|table| - 1], k, byUri) == -1 then |table| - 1
    else FirstWith(table[..|table| - 1], k, byUri)
  }

  function Key(d: NsDecl, byUri: bool): string {
    if byUri then d.uri else d.prefix
  }

  /** Xmlns.UriByPrefix: the URI of the first entry declaring prefix, or "". */
  function UriByPrefix(table: seq<NsDecl>, prefix: string): (uri: string)
    ensures (forall i :: 0 <= i < |table| ==> table[i].prefix != prefix) ==> uri == ""
    ensures forall i :: (0 <= i < |table| && table[i].prefix == prefix &&
                         (forall j :: 0 <= j < i ==> table[j].prefix != prefix)) ==> uri == table[i].uri
  {
    var r := FirstWith(table, prefix, false);
    if r == -1 then "" else table[r].uri
  }

  /** Xmlns.PrefixByUri: the prefix of the first entry bound to uri, or "". */
  function PrefixByUri(table: seq<NsDecl>, uri: string): (prefix: string)
    ensures (forall i :: 0 <= i < |table| ==> table[i].uri != uri) ==> prefix == ""
    ensures forall i :: (0 <= i < |table| && table[i].uri == uri &&
                         (forall j :: 0 <= j < i ==> table[j].uri != uri)) ==> prefix == table[i].prefix
  {
    var r := FirstWith(table, uri, true);
    if r == -1 then "" else table[r].prefix
  }
}
