/** xsd:annotation: the documentation children a declaration carries and
    the two things derived from them, an explicit Go name and Go comments. */
module Annotations {
  import opened Results
  import opened Text

  datatype Documentation = Documentation(source: string, innerXml: string)

  datatype Annotation = Annotation(documentationList: seq<Documentation>)

  /** Index of the first documentation whose source equals key, ignoring case. */
  function FirstDocumentation(docs: seq<Documentation>, key: string): (r: Option<nat>)
    ensures r.None? <==> forall i :: 0 <= i < |docs| ==> !EqualFold(key, docs[i].source)
    ensures r.Some? ==> r.value < |docs| && EqualFold(key, docs[r.value].source) &&
                        forall j :: 0 <= j < r.value ==> !EqualFold(key, docs[j].source)
  {
    if docs == [] then None
    else if EqualFold(key, docs[0].source) then Some(0)
    else
      var k := FirstDocumentation(docs[1..], key);
      assert forall i :: 1 <= i < |docs| ==> docs[i] == docs[1..][i - 1];
      if k.None? then None else Some(k.value + 1)
  }

  /** Annotation.GetName: the text of the first "Name" documentation, or "" when
      the annotation is absent or has none. */
  function GetName(a: Option<Annotation>): (name: string)
    ensures a.None? ==> name == ""
    ensures (a.Some? && forall i :: 0 <= i < |a.value.documentationList| ==>
                          !EqualFold("Name", a.value.documentationList[i].source)) ==> name == ""
    ensures a.Some? ==>
              forall i :: 0 <= i < |a.value.documentationList| &&
                          EqualFold("Name", a.value.documentationList[i].source) &&
                          (forall j :: 0 <= j < i ==> !EqualFold("Name", a.value.documentationList[j].source))
                          ==> name == a.value.documentationList[i].innerXml
  {
    if a.None? then ""
    else
      var k := FirstDocumentation(a.value.documentationList, "Name");
      if k.None? then "" else a.value.documentationList[k.value].innerXml
  }

  /** Annotation.GoComments: the first "Definition" documentation, unescaped,
      with every carriage return removed and cut into lines; None (Go's nil)
      when the annotation is absent or has no such documentation. The HTML
      unescaping function is a parameter. */
  function GoComments(a: Option<Annotation>, unescape: string -> string): (lines: Option<seq<string>>)
    ensures a.None? ==> lines.None?
    ensures lines.None? <==> a.None? || FirstDocumentation(a.value.documentationList, "Definition").None?
    ensures lines.Some? ==> |lines.value| >= 1
    ensures lines.Some? ==> forall i :: 0 <= i < |lines.value| ==> '\n' !in lines.value[i] && '\r' !in lines.value[i]
  {
    if a.None? then None
    else
      var k := FirstDocumentation(a.value.documentationList, "Definition");
      if k.None? then None
      else
        var def := RemoveChar(unescape(a.value.documentationList[k.value].innerXml), '\r');
        SplitNoChar(def, '\n', '\r');
        Some(Split(def, '\n'))
  }

  /** Joining the comment lines with newlines gives back the unescaped
      definition without its carriage returns. */
  lemma CommentsRejoin(a: Option<Annotation>, unescape: string -> string)
    requires GoComments(a, unescape).Some?
    ensures var k := FirstDocumentation(a.value.documentationList, "Definition").value;
            Join(GoComments(a, unescape).value, '\n') ==
              RemoveChar(unescape(a.value.documentationList[k].innerXml), '\r')
  {
    var k := FirstDocumentation(a.value.documentationList, "Definition").value;
    JoinSplit(RemoveChar(unescape(a.value.documentationList[k].innerXml), '\r'), '\n');
  }

  /** Splitting a string that lacks a character yields pieces that lack it. */
  lemma {:induction false} SplitNoChar(s: string, sep: char, c: char)
    requires c !in s
    ensures forall i :: 0 <= i < |Split(s, sep)| ==> c !in Split(s, sep)[i]
    decreases |s|
  {
    var i := IndexOf(s, sep);
    if i != -1 {
      assert forall x :: x in s[i + 1..] ==> x in s;
      assert forall x :: x in s[..i] ==> x in s;
      SplitNoChar(s[i + 1..], sep, c);
    }
  }
}
