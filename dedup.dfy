/** deduplicateAttributes and deduplicateElements (extension.go): compact a
    slice in place, keeping the first entry for each Go name. The two Go
    functions differ only in the name they compare, so the model is generic
    in that key. */
module Deduplication {

  /** The keys of a list, as a set. */
  function KeySet<T>(xs: seq<T>, key: T -> string): set<string> {
    set i | 0 <= i < |xs| :: key(xs[i])
  }

  /** No two entries share a key. */
  predicate DistinctKeys<T>(xs: seq<T>, key: T -> string) {
    forall i, j :: 0 <= i < j < |xs| ==> key(xs[i]) != key(xs[j])
  }

  /** The compacted list: an entry is kept when no earlier kept entry has its key. */
  function Dedup<T>(xs: seq<T>, key: T -> string): seq<T> {
    if xs == [] then []
    else
      var d := Dedup(xs[..|xs| - 1], key);
      var last := xs[|xs| - 1];
      if key(last) in KeySet(d, key) then d else d + [last]
  }

  /** The compaction loop: a write index j trails the read index i, and the
      set of keys seen so far decides whether the entry at i is copied to j. */
  method DeduplicateInPlace<T>(a: array<T>, key: T -> string) returns (j: nat)
    modifies a
    ensures j <= a.Length
    ensures a[..j] == Dedup(old(a[..]), key)
  {
    ghost var input := a[..];
    var seen: set<string> := {};
    j := 0;
    var i := 0;
    while i < a.Length
      invariant 0 <= j <= i <= a.Length
      invariant forall k :: i <= k < a.Length ==> a[k] == input[k]
      invariant a[..j] == Dedup(input[..i], key)
      invariant seen == KeySet(a[..j], key)
    {
      var x := a[i];
      DedupPush(input[..i], x, key);
      assert input[..i + 1] == input[..i] + [x];
      if key(x) !in seen {
        seen := seen + {key(x)};
        KeySetAppend(a[..j], x, key);
        a[j] := x;
        assert a[..j + 1] == a[..j] + [x];
        j := j + 1;
      }
      i := i + 1;
    }
    assert input[..a.Length] == input;
  }

  /** Compacting one more entry. */
  lemma DedupPush<T>(xs: seq<T>, x: T, key: T -> string)
    ensures Dedup(xs + [x], key) ==
      if key(x) in KeySet(Dedup(xs, key), key) then Dedup(xs, key) else Dedup(xs, key) + [x]
  {
    var ys := xs + [x];
    assert ys[..|ys| - 1] == xs && ys[|ys| - 1] == x;
  }

  lemma KeySetAppend<T>(xs: seq<T>, x: T, key: T -> string)
    ensures KeySet(xs + [x], key) == KeySet(xs, key) + {key(x)}
  {
    var ys := xs + [x];
    assert ys[|xs|] == x;
    forall k | k in KeySet(xs, key) ensures k in KeySet(ys, key) {
      var i :| 0 <= i < |xs| && key(xs[i]) == k;
      assert ys[i] == xs[i];
    }
  }

  /** The result keeps one entry per key of the input, and no key twice. */
  lemma {:induction false} DedupKeys<T>(xs: seq<T>, key: T -> string)
    ensures KeySet(Dedup(xs, key), key) == KeySet(xs, key)
    ensures DistinctKeys(Dedup(xs, key), key)
    ensures |Dedup(xs, key)| <= |xs|
  {
    if xs != [] {
      var init := xs[..|xs| - 1];
      var last := xs[|xs| - 1];
      DedupKeys(init, key);
      var d := Dedup(init, key);
      assert xs == init + [last];
      KeySetAppend(init, last, key);
      if key(last) !in KeySet(d, key) {
        KeySetAppend(d, last, key);
        var d' := d + [last];
        forall i, j | 0 <= i < j < |d'| ensures key(d'[i]) != key(d'[j]) {
          if j == |d| {
            assert d'[i] == d[i];
          } else {
            assert d'[i] == d[i] && d'[j] == d[j];
          }
        }
      }
    }
  }

  /** The result is a subsequence of the input: its entries appear in the
      input at strictly increasing positions. */
  ghost predicate IsSubsequence<T>(ys: seq<T>, xs: seq<T>) {
    exists idx: seq<nat> :: |idx| == |ys| &&
      (forall k :: 0 <= k < |idx| ==> idx[k] < |xs| && ys[k] == xs[idx[k]]) &&
      (forall k, l :: 0 <= k < l < |idx| ==> idx[k] < idx[l])
  }

  /** Order is preserved and nothing is invented. */
  lemma {:induction false} DedupSubsequence<T>(xs: seq<T>, key: T -> string)
    ensures IsSubsequence(Dedup(xs, key), xs)
  {
    if xs == [] {
      var idx: seq<nat> := [];
      assert |idx| == |Dedup(xs, key)|;
    } else {
      var init := xs[..|xs| - 1];
      var last := xs[|xs| - 1];
      DedupSubsequence(init, key);
      DedupPush(init, last, key);
      assert xs == init + [last];
      SubsequenceSnoc(Dedup(init, key), init, last);
    }
  }

  /** A subsequence stays one when the list grows by an entry, whether or
      not the subsequence takes that entry too. */
  lemma SubsequenceSnoc<T>(ys: seq<T>, xs: seq<T>, x: T)
    requires IsSubsequence(ys, xs)
    ensures IsSubsequence(ys, xs + [x]) && IsSubsequence(ys + [x], xs + [x])
  {
    var idx: seq<nat> :| |idx| == |ys| &&
      (forall k :: 0 <= k < |idx| ==> idx[k] < |xs| && ys[k] == xs[idx[k]]) &&
      (forall k, l :: 0 <= k < l < |idx| ==> idx[k] < idx[l]);
    var zs := xs + [x];
    assert forall k :: 0 <= k < |idx| ==> idx[k] < |zs| && ys[k] == zs[idx[k]];
    var idx' := idx + [|xs|];
    var ys' := ys + [x];
    assert forall k :: 0 <= k < |idx'| ==> idx'[k] < |zs| && ys'[k] == zs[idx'[k]];
    assert forall k, l :: 0 <= k < l < |idx'| ==> idx'[k] < idx'[l];
  }

  /** An entry whose key has not occurred earlier in the input is kept. */
  lemma {:induction false} DedupKeepsFirst<T>(xs: seq<T>, key: T -> string, i: nat)
    requires i < |xs|
    requires forall j :: 0 <= j < i ==> key(xs[j]) != key(xs[i])
    ensures xs[i] in Dedup(xs, key)
  {
    var init := xs[..|xs| - 1];
    var last := xs[|xs| - 1];
    var d := Dedup(init, key);
    if i < |xs| - 1 {
      assert forall j :: 0 <= j < i ==> init[j] == xs[j];
      assert init[i] == xs[i];
      DedupKeepsFirst(init, key, i);
    } else {
      DedupKeys(init, key);
      assert key(last) !in KeySet(init, key) by {
        forall j | 0 <= j < |init| ensures key(init[j]) != key(last) {
          assert init[j] == xs[j];
        }
      }
    }
  }

  /** Every kept entry is the first entry of the input with its key. */
  lemma {:induction false} DedupOnlyFirsts<T>(xs: seq<T>, key: T -> string, y: T)
    requires y in Dedup(xs, key)
    ensures exists i :: 0 <= i < |xs| && xs[i] == y && forall j :: 0 <= j < i ==> key(xs[j]) != key(y)
  {
    var init := xs[..|xs| - 1];
    var last := xs[|xs| - 1];
    var d := Dedup(init, key);
    if y in d {
      DedupOnlyFirsts(init, key, y);
      var i :| 0 <= i < |init| && init[i] == y && forall j :: 0 <= j < i ==> key(init[j]) != key(y);
      assert xs[i] == y;
      assert forall j :: 0 <= j < i ==> xs[j] == init[j];
    } else {
      assert y == last && key(last) !in KeySet(d, key);
      DedupKeys(init, key);
      forall j | 0 <= j < |init| ensures key(xs[j]) != key(y) {
        assert xs[j] == init[j];
        assert key(init[j]) in KeySet(init, key);
      }
    }
  }

  /** A list without repeated keys comes back unchanged. */
  lemma {:induction false} DedupDistinct<T>(xs: seq<T>, key: T -> string)
    requires DistinctKeys(xs, key)
    ensures Dedup(xs, key) == xs
  {
    if xs != [] {
      var init := xs[..|xs| - 1];
      var last := xs[|xs| - 1];
      assert DistinctKeys(init, key) by {
        forall i, j | 0 <= i < j < |init| ensures key(init[i]) != key(init[j]) {
          assert init[i] == xs[i] && init[j] == xs[j];
        }
      }
      DedupDistinct(init, key);
      assert key(last) !in KeySet(init, key) by {
        forall i | 0 <= i < |init| ensures key(init[i]) != key(last) {
          assert init[i] == xs[i];
        }
      }
      assert xs == init + [last];
    }
  }

  /** Compacting twice changes nothing more. */
  lemma DedupIdempotent<T>(xs: seq<T>, key: T -> string)
    ensures Dedup(Dedup(xs, key), key) == Dedup(xs, key)
  {
    DedupKeys(xs, key);
    DedupDistinct(Dedup(xs, key), key);
  }

  /** The compaction of a prefix is a prefix of the compaction: entries met
      first win over same-keyed entries appended later. */
  lemma {:induction false} DedupPrefix<T>(xs: seq<T>, ys: seq<T>, key: T -> string)
    ensures |Dedup(xs, key)| <= |Dedup(xs + ys, key)|
    ensures Dedup(xs + ys, key)[..|Dedup(xs, key)|] == Dedup(xs, key)
    decreases |ys|
  {
    if ys == [] {
      assert xs + ys == xs;
    } else {
      var ys' := ys[..|ys| - 1];
      assert (xs + ys)[..|xs + ys| - 1] == xs + ys';
      DedupPrefix(xs, ys', key);
    }
  }

  /** Compacting the concatenation of a list and more entries drops exactly
      the later entries whose key the list already has, when the list itself
      has distinct keys. */
  lemma {:induction false} DedupKeepsLeading<T>(xs: seq<T>, ys: seq<T>, key: T -> string)
    requires DistinctKeys(xs, key)
    ensures |Dedup(xs + ys, key)| >= |xs|
    ensures Dedup(xs + ys, key)[..|xs|] == xs
  {
    DedupPrefix(xs, ys, key);
    DedupDistinct(xs, key);
  }

  /** The keys of a concatenation. */
  lemma KeySetConcat<T>(xs: seq<T>, ys: seq<T>, key: T -> string)
    ensures KeySet(xs + ys, key) == KeySet(xs, key) + KeySet(ys, key)
  {
    var zs := xs + ys;
    forall k | k in KeySet(zs, key) ensures k in KeySet(xs, key) + KeySet(ys, key) {
      var i :| 0 <= i < |zs| && key(zs[i]) == k;
      if i >= |xs| {
        assert zs[i] == ys[i - |xs|];
      }
    }
    forall k | k in KeySet(ys, key) ensures k in KeySet(zs, key) {
      var i :| 0 <= i < |ys| && key(ys[i]) == k;
      assert zs[|xs| + i] == ys[i];
    }
    forall k | k in KeySet(xs, key) ensures k in KeySet(zs, key) {
      var i :| 0 <= i < |xs| && key(xs[i]) == k;
      assert zs[i] == xs[i];
    }
  }

  /** Appending to a list without repeated keys and compacting keeps any
      prefix of it, leaves no repeated key and loses no key. */
  lemma DedupAppendStep<T>(prev: seq<T>, g: seq<T>, key: T -> string, k: nat)
    requires DistinctKeys(prev, key) && k <= |prev|
    ensures var r := Dedup(prev + g, key);
      |r| >= |prev| && r[..k] == prev[..k] && DistinctKeys(r, key) && KeySet(r, key) == KeySet(prev, key) + KeySet(g, key)
  {
    DedupKeepsLeading(prev, g, key);
    DedupKeys(prev + g, key);
    KeySetConcat(prev, g, key);
    var r := Dedup(prev + g, key);
    assert r[..k] == r[..|prev|][..k];
  }

  /** Appending each list of `parts` in turn, compacting after each, as
      Extension.Attributes does with its attribute groups. */
  function DedupChain<T>(start: seq<T>, parts: seq<seq<T>>, key: T -> string): seq<T>
    decreases |parts|
  {
    if parts == [] then start
    else Dedup(DedupChain(start, parts[..|parts| - 1], key) + parts[|parts| - 1], key)
  }

  /** The keys of all the lists of `parts`. */
  ghost function KeysOfAll<T>(parts: seq<seq<T>>, key: T -> string): set<string>
    decreases |parts|
  {
    if parts == [] then {} else KeysOfAll(parts[..|parts| - 1], key) + KeySet(parts[|parts| - 1], key)
  }

  /** The chain loses no key and adds none. */
  lemma {:induction false} DedupChainKeys<T>(start: seq<T>, parts: seq<seq<T>>, key: T -> string)
    ensures KeySet(DedupChain(start, parts, key), key) == KeySet(start, key) + KeysOfAll(parts, key)
    decreases |parts|
  {
    if parts != [] {
      var init := parts[..|parts| - 1];
      var prev := DedupChain(start, init, key);
      var last := parts[|parts| - 1];
      DedupChainKeys(start, init, key);
      DedupKeys(prev + last, key);
      KeySetConcat(prev, last, key);
    }
  }

  /** Started from a list without repeated keys, the chain keeps that list
      in front and never repeats a key. */
  lemma {:induction false} DedupChainPrefix<T>(start: seq<T>, parts: seq<seq<T>>, key: T -> string, k: nat)
    requires DistinctKeys(start, key) && k <= |start|
    ensures var r := DedupChain(start, parts, key);
      |r| >= |start| && r[..k] == start[..k] && DistinctKeys(r, key)
    decreases |parts|
  {
    if parts != [] {
      var init := parts[..|parts| - 1];
      DedupChainPrefix(start, init, key, k);
      var prev := DedupChain(start, init, key);
      DedupAppendStep(prev, parts[|parts| - 1], key, k);
      assert prev[..k] == start[..k];
    }
  }
}
