/** A qualified reference "prefix:local" as written in an XSD attribute
    (`type`, `ref`, `base`), split at its first colon. */
module Common {
  import opened Text

  type Reference = string

  /** The text before the first ':', or "" when there is none. */
  function NsPrefix(ref: Reference): (p: string)
    ensures ':' !in p
    ensures ':' !in ref ==> p == ""
    ensures ':' in ref ==> |p| < |ref| && ref[..|p|] == p && ref[|p|] == ':'
  {
    var colon := IndexOf(ref, ':');
    if colon == -1 then "" else ref[0..colon]
  }

  /** The text after the first ':'; the whole reference when there is none,
      because the colon position -1 plus one slices from 0. */
  function LocalName(ref: Reference): (n: string)
    ensures ':' !in ref ==> n == ref
    ensures ':' in ref ==> n == ref[|NsPrefix(ref)| + 1..]
  {
    var colon := IndexOf(ref, ':');
    ref[colon + 1..]
  }

  /** reference.GoName: both parts camelized and concatenated. */
  function RefGoName(ref: Reference): string {
    ToCamel(NsPrefix(ref)) + ToCamel(LocalName(ref))
  }

  /** Splitting a reference that has a colon and joining the parts with ':'
      gives the reference back. */
  lemma SplitRoundTrip(ref: Reference)
    requires ':' in ref
    ensures NsPrefix(ref) + ":" + LocalName(ref) == ref
    ensures |NsPrefix(ref)| + |LocalName(ref)| + 1 == |ref|
  {
    var p := NsPrefix(ref);
    assert ref == ref[..|p|] + [ref[|p|]] + ref[|p| + 1..];
  }

  /** Building a reference from a colon-free prefix and any local name and
      splitting it again recovers both parts, so RefGoName camelizes exactly
      those parts. */
  lemma JoinRoundTrip(prefix: string, local: string)
    requires ':' !in prefix
    ensures NsPrefix(prefix + ":" + local) == prefix
    ensures LocalName(prefix + ":" + local) == local
    ensures RefGoName(prefix + ":" + local) == ToCamel(prefix) + ToCamel(local)
  {
    var ref := prefix + ":" + local;
    assert ref[|prefix|] == ':';
    var i := IndexOf(ref, ':');
    assert ref[..|prefix|] == prefix;
    assert ref[..|prefix| + 1] == prefix + [':'];
    assert ref[i + 1..] == local;
  }

  /** A reference without a colon is a bare local name with an empty prefix. */
  lemma UnqualifiedReference(ref: Reference)
    requires ':' !in ref
    ensures NsPrefix(ref) == "" && LocalName(ref) == ref
    ensures RefGoName(ref) == ToCamel("") + ToCamel(ref)
  {
  }
}
