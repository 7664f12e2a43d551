/** Models of the Go library string functions the core calls: `strings`,
    `strconv`, `path/filepath` and `strcase.ToCamel`. Characters are
    treated as ASCII where the library is Unicode-aware (case mapping,
    white space). */
module Text {
  import opened Results

  /** strings.Index with a one-character pattern: the first position of c, or -1. */
  function IndexOf(s: string, c: char): (r: int)
    ensures -1 <= r < |s|
    ensures r == -1 <==> c !in s
    ensures 0 <= r ==> s[r] == c && c !in s[..r]
  {
    if s == [] then -1
    else if s[0] == c then 0
    else
      var k := IndexOf(s[1..], c);
      if k == -1 then -1
      else
        assert s[..k + 1] == [s[0]] + s[1..][..k];
        k + 1
  }

  /** strings.LastIndexByte: the last position of c, or -1. */
  function LastIndexOf(s: string, c: char): (r: int)
    ensures -1 <= r < |s|
    ensures r == -1 <==> c !in s
    ensures 0 <= r ==> s[r] == c && c !in s[r + 1..]
  {
    if s == [] then -1
    else if s[|s| - 1] == c then |s| - 1
    else
      assert s == s[..|s| - 1] + [s[|s| - 1]];
      LastIndexOf(s[..|s| - 1], c)
  }

  /** strings.FieldsFunc(s, func(r) bool { return r == sep }): the maximal
      runs of characters other than sep, empty runs dropped. */
  function Fields(s: string, sep: char): (r: seq<string>)
    ensures forall i :: 0 <= i < |r| ==> r[i] != [] && sep !in r[i]
  {
    FieldsAcc(s, sep, [])
  }

  /** The fields are exactly the non-empty parts of the split, in order. */
  lemma FieldsAreSplitParts(s: string, sep: char)
    ensures Fields(s, sep) == NonEmpty(Split(s, sep))
  {
    FieldsAccSplit(s, sep, []);
    var parts := Split(s, sep);
    assert [] + parts[0] == parts[0];
  }

  /** The parts of a list that are not empty, in order. */
  function NonEmpty(parts: seq<string>): seq<string> {
    if parts == [] then [] else Flush(parts[0]) + NonEmpty(parts[1..])
  }

  function Flush(cur: string): seq<string> {
    if cur == [] then [] else [cur]
  }

  function FieldsAcc(s: string, sep: char, cur: string): (r: seq<string>)
    requires sep !in cur
    ensures forall i :: 0 <= i < |r| ==> r[i] != [] && sep !in r[i]
    decreases |s|
  {
    if s == [] then Flush(cur)
    else if s[0] == sep then Flush(cur) + FieldsAcc(s[1..], sep, [])
    else FieldsAcc(s[1..], sep, cur + [s[0]])
  }

  /** The scan with a pending run `cur` yields the pending run glued to the
      first part of the split, then the other non-empty parts. */
  lemma {:induction false} FieldsAccSplit(s: string, sep: char, cur: string)
    requires sep !in cur
    ensures FieldsAcc(s, sep, cur) == Flush(cur + Split(s, sep)[0]) + NonEmpty(Split(s, sep)[1..])
    decreases |s|
  {
    if s == [] {
      assert Split(s, sep) == [[]];
      assert cur + [] == cur;
    } else if s[0] == sep {
      FieldsAccSplit(s[1..], sep, []);
      FieldsAccSepStep(s, sep, cur);
    } else {
      FieldsAccSplit(s[1..], sep, cur + [s[0]]);
      FieldsAccCharStep(s, sep, cur);
    }
  }

  /** A separator closes the pending run and restarts the scan. */
  lemma FieldsAccSepStep(s: string, sep: char, cur: string)
    requires sep !in cur && s != [] && s[0] == sep
    requires FieldsAcc(s[1..], sep, []) == Flush([] + Split(s[1..], sep)[0]) + NonEmpty(Split(s[1..], sep)[1..])
    ensures FieldsAcc(s, sep, cur) == Flush(cur + Split(s, sep)[0]) + NonEmpty(Split(s, sep)[1..])
  {
    var rest := Split(s[1..], sep);
    assert IndexOf(s, sep) == 0;
    assert s[1..] == s[0 + 1..];
    assert Split(s, sep) == [[]] + rest;
    assert [] + rest[0] == rest[0];
    assert NonEmpty(rest) == Flush(rest[0]) + NonEmpty(rest[1..]);
    assert cur + [] == cur;
    assert ([[]] + rest)[1..] == rest;
  }

  /** Any other character extends the pending run. */
  lemma FieldsAccCharStep(s: string, sep: char, cur: string)
    requires sep !in cur && s != [] && s[0] != sep
    requires FieldsAcc(s[1..], sep, cur + [s[0]])
          == Flush(cur + [s[0]] + Split(s[1..], sep)[0]) + NonEmpty(Split(s[1..], sep)[1..])
    ensures FieldsAcc(s, sep, cur) == Flush(cur + Split(s, sep)[0]) + NonEmpty(Split(s, sep)[1..])
  {
    var rest := Split(s[1..], sep);
    var whole := Split(s, sep);
    SplitCons(s, sep);
    assert whole == [[s[0]] + rest[0]] + rest[1..];
    assert whole[0] == [s[0]] + rest[0];
    assert whole[1..] == rest[1..];
    assert cur + whole[0] == cur + [s[0]] + rest[0];
    assert FieldsAcc(s, sep, cur) == FieldsAcc(s[1..], sep, cur + [s[0]]);
  }

  /** A leading character other than the separator joins the first part. */
  lemma SplitCons(s: string, sep: char)
    requires s != [] && s[0] != sep
    ensures Split(s, sep) == [[s[0]] + Split(s[1..], sep)[0]] + Split(s[1..], sep)[1..]
  {
    var k := IndexOf(s[1..], sep);
    if k == -1 {
      assert sep !in s by {
        assert s == [s[0]] + s[1..];
      }
      assert [s[0]] + s[1..] == s;
    } else {
      assert IndexOf(s, sep) == k + 1;
      assert s[..k + 1] == [s[0]] + s[1..][..k];
      assert s[k + 2..] == s[1..][k + 1..];
    }
  }

  /** strings.SplitN(s, sep, 2): split at the first sep only. */
  function SplitOnce(s: string, sep: char): (r: seq<string>)
    ensures sep !in s ==> r == [s]
    ensures sep in s ==> |r| == 2 && sep !in r[0] && r[0] + [sep] + r[1] == s
  {
    var i := IndexOf(s, sep);
    if i == -1 then [s]
    else
      assert s == s[..i] + [sep] + s[i + 1..];
      [s[..i], s[i + 1..]]
  }

  /** strings.Split(s, sep) with a one-character separator. */
  function Split(s: string, sep: char): (r: seq<string>)
    ensures |r| >= 1
    ensures forall i :: 0 <= i < |r| ==> sep !in r[i]
    decreases |s|
  {
    var i := IndexOf(s, sep);
    if i == -1 then [s] else [s[..i]] + Split(s[i + 1..], sep)
  }

  /** strings.Join with a one-character separator. */
  function Join(parts: seq<string>, sep: char): string {
    if parts == [] then []
    else if |parts| == 1 then parts[0]
    else parts[0] + [sep] + Join(parts[1..], sep)
  }

  /** Splitting and joining again with the same separator gives the string back. */
  lemma {:induction false} JoinSplit(s: string, sep: char)
    ensures Join(Split(s, sep), sep) == s
    decreases |s|
  {
    var i := IndexOf(s, sep);
    if i != -1 {
      var rest := s[i + 1..];
      JoinSplit(rest, sep);
      SplitAt(s, sep, i);
      JoinCons(s[..i], Split(rest, sep), sep);
      assert s == s[..i] + [sep] + rest;
    }
  }

  /** Split at the first separator. */
  lemma SplitAt(s: string, sep: char, i: int)
    requires i == IndexOf(s, sep) && i != -1
    ensures Split(s, sep) == [s[..i]] + Split(s[i + 1..], sep)
  {
  }

  /** Join of a part followed by at least one more. */
  lemma JoinCons(p: string, rest: seq<string>, sep: char)
    requires rest != []
    ensures Join([p] + rest, sep) == p + [sep] + Join(rest, sep)
  {
    var parts := [p] + rest;
    assert parts[0] == p && parts[1..] == rest;
  }

  /** strings.ReplaceAll(s, string(c), ""). */
  function RemoveChar(s: string, c: char): (r: string)
    ensures c !in r
    ensures |r| <= |s|
    ensures multiset(r) == multiset(s)[c := 0]
  {
    if s == [] then []
    else
      assert s == [s[0]] + s[1..];
      (if s[0] == c then [] else [s[0]]) + RemoveChar(s[1..], c)
  }

  /** Removal works piece by piece, so the kept characters stay in their
      order: removing from a concatenation concatenates the removals. */
  lemma {:induction false} RemoveCharAppend(s: string, t: string, c: char)
    ensures RemoveChar(s + t, c) == RemoveChar(s, c) + RemoveChar(t, c)
  {
    if s == [] {
      assert s + t == t;
    } else {
      assert (s + t)[0] == s[0] && (s + t)[1..] == s[1..] + t;
      RemoveCharAppend(s[1..], t, c);
    }
  }

  /** strings.ReplaceAll(s, string(a), string(b)). */
  function ReplaceChar(s: string, a: char, b: char): (r: string)
    ensures |r| == |s|
    ensures forall i :: 0 <= i < |s| ==> r[i] == if s[i] == a then b else s[i]
  {
    seq(|s|, i requires 0 <= i < |s| => if s[i] == a then b else s[i])
  }

  predicate HasSuffix(s: string, suffix: string) {
    |suffix| <= |s| && s[|s| - |suffix|..] == suffix
  }

  /** strings.CutSuffix: s without suffix, and whether it was there. */
  function CutSuffix(s: string, suffix: string): (r: (string, bool))
    ensures r.1 == HasSuffix(s, suffix)
    ensures r.1 ==> r.0 + suffix == s
    ensures !r.1 ==> r.0 == s
  {
    if HasSuffix(s, suffix) then
      assert s == s[..|s| - |suffix|] + s[|s| - |suffix|..];
      (s[..|s| - |suffix|], true)
    else (s, false)
  }

  /** strings.TrimSuffix. */
  function TrimSuffix(s: string, suffix: string): string {
    CutSuffix(s, suffix).0
  }

  predicate IsUpper(c: char) { 'A' <= c <= 'Z' }
  predicate IsLower(c: char) { 'a' <= c <= 'z' }
  predicate IsDigit(c: char) { '0' <= c <= '9' }
  predicate IsSpace(c: char) { c == ' ' || c == '\t' || c == '\n' || c == '\r' || c == '\U{B}' || c == '\U{C}' }

  function LowerChar(c: char): char {
    if IsUpper(c) then (c as int + 32) as char else c
  }

  function UpperChar(c: char): char {
    if IsLower(c) then (c as int - 32) as char else c
  }

  /** strings.ToLower. */
  function ToLower(s: string): (r: string)
    ensures |r| == |s|
    ensures forall i :: 0 <= i < |s| ==> r[i] == LowerChar(s[i])
  {
    seq(|s|, i requires 0 <= i < |s| => LowerChar(s[i]))
  }

  /** strings.EqualFold: equality after case folding. */
  predicate EqualFold(a: string, b: string) {
    ToLower(a) == ToLower(b)
  }

  /** strings.TrimSpace. */
  function TrimSpace(s: string): string
    decreases |s|
  {
    if s != [] && IsSpace(s[0]) then TrimSpace(s[1..])
    else if s != [] && IsSpace(s[|s| - 1]) then TrimSpace(s[..|s| - 1])
    else s
  }

  /** strcase.ToCamel: white space trimmed, letters kept, the first letter and
      every letter after a digit or after one of '_', ' ', '-', '.' upper-cased,
      digits kept, every other character dropped. */
  function ToCamel(s: string): string {
    CamelFrom(TrimSpace(s), true)
  }

  function CamelFrom(s: string, capNext: bool): string {
    if s == [] then []
    else
      var v := s[0];
      if IsUpper(v) || IsLower(v) then [if capNext then UpperChar(v) else v] + CamelFrom(s[1..], false)
      else if IsDigit(v) then [v] + CamelFrom(s[1..], true)
      else CamelFrom(s[1..], v == '_' || v == ' ' || v == '-' || v == '.')
  }

  function DigitChar(d: nat): char
    requires d < 10
  {
    ('0' as int + d) as char
  }

  /** fmt's %d of a non-negative integer. */
  function Itoa(n: nat): (r: string)
    ensures |r| >= 1 && AllDigits(r)
    ensures DecimalValue(r) == n
    ensures n >= 10 ==> r[0] != '0'
  {
    if n < 10 then [DigitChar(n)]
    else
      var r := Itoa(n / 10) + [DigitChar(n % 10)];
      assert r[..|r| - 1] == Itoa(n / 10);
      r
  }

  predicate AllDigits(s: string) {
    forall i :: 0 <= i < |s| ==> IsDigit(s[i])
  }

  /** The value of a string of decimal digits. */
  function DecimalValue(s: string): nat
    requires AllDigits(s)
  {
    if s == [] then 0 else 10 * DecimalValue(s[..|s| - 1]) + (s[|s| - 1] as int - '0' as int)
  }

  const MinInt64: int := -0x8000_0000_0000_0000
  const MaxInt64: int := 0x7FFF_FFFF_FFFF_FFFF

  /** strconv.Atoi: an optional sign followed by at least one decimal digit,
      within the range of a 64-bit int; None stands for the returned error. */
  function Atoi(s: string): (r: Option<int>)
    ensures r.Some? ==> MinInt64 <= r.value <= MaxInt64
    ensures r.Some? ==> |s| >= 1 && forall i :: 0 < i < |s| ==> IsDigit(s[i])
    ensures s != [] && AllDigits(s) ==>
              (r.Some? <==> DecimalValue(s) <= MaxInt64) && (r.Some? ==> r.value == DecimalValue(s))
    ensures |s| >= 2 && s[0] == '-' && AllDigits(s[1..]) ==>
              (r.Some? <==> DecimalValue(s[1..]) <= -MinInt64) && (r.Some? ==> -r.value == DecimalValue(s[1..]))
    ensures |s| >= 2 && s[0] == '+' && AllDigits(s[1..]) ==>
              (r.Some? <==> DecimalValue(s[1..]) <= MaxInt64) && (r.Some? ==> r.value == DecimalValue(s[1..]))
    ensures s != [] && !IsDigit(s[0]) && s[0] != '+' && s[0] != '-' ==> r.None?
    ensures |s| == 1 && !IsDigit(s[0]) ==> r.None?
  {
    var signed := s != [] && (s[0] == '+' || s[0] == '-');
    var digits := if signed then s[1..] else s;
    if digits == [] || !AllDigits(digits) then None
    else
      var v: int := if signed && s[0] == '-' then 0 - (DecimalValue(digits) as int) else DecimalValue(digits);
      if MinInt64 <= v <= MaxInt64 then Some(v) else None
  }

  /** Atoi reads back what Itoa prints, within the int64 range. */
  lemma AtoiItoa(n: nat)
    requires n <= MaxInt64
    ensures Atoi(Itoa(n)) == Some(n)
  {
  }

  /** filepath.Base with '/' as the separator. */
  function BaseName(path: string): string {
    if path == [] then "."
    else
      var stripped := TrimTrailing(path, '/');
      if stripped == [] then "/"
      else
        var i := LastIndexOf(stripped, '/');
        stripped[i + 1..]
  }

  function TrimTrailing(s: string, c: char): string {
    if s != [] && s[|s| - 1] == c then TrimTrailing(s[..|s| - 1], c) else s
  }

  /** The number of letters and digits in s: what ToCamel keeps. */
  function AlnumCount(s: string): nat {
    if s == [] then 0
    else (if IsUpper(s[0]) || IsLower(s[0]) || IsDigit(s[0]) then 1 else 0) + AlnumCount(s[1..])
  }

  lemma {:induction false} AlnumCountAppend(s: string, t: string)
    ensures AlnumCount(s + t) == AlnumCount(s) + AlnumCount(t)
  {
    if s != [] {
      assert (s + t)[0] == s[0] && (s + t)[1..] == s[1..] + t;
      AlnumCountAppend(s[1..], t);
    } else {
      assert s + t == t;
    }
  }

  lemma {:induction false} AlnumCountDigits(s: string)
    requires AllDigits(s)
    ensures AlnumCount(s) == |s|
  {
    if s != [] {
      assert IsDigit(s[0]);
      assert forall i :: 0 <= i < |s[1..]| ==> s[1..][i] == s[i + 1];
      AlnumCountDigits(s[1..]);
    }
  }

  lemma {:induction false} CamelFromLength(s: string, capNext: bool)
    ensures |CamelFrom(s, capNext)| == AlnumCount(s)
  {
    if s != [] {
      var v := s[0];
      CamelFromLength(s[1..], false);
      CamelFromLength(s[1..], true);
      CamelFromLength(s[1..], v == '_' || v == ' ' || v == '-' || v == '.');
    }
  }

  lemma {:induction false} TrimSpaceAlnum(s: string)
    ensures AlnumCount(TrimSpace(s)) == AlnumCount(s)
    decreases |s|
  {
    if s != [] && IsSpace(s[0]) {
      TrimSpaceAlnum(s[1..]);
    } else if s != [] && IsSpace(s[|s| - 1]) {
      TrimSpaceAlnum(s[..|s| - 1]);
      assert s == s[..|s| - 1] + [s[|s| - 1]];
      AlnumCountAppend(s[..|s| - 1], [s[|s| - 1]]);
    }
  }

  /** ToCamel keeps every letter and digit: a decimal suffix survives it. */
  lemma ToCamelKeepsDigits(s: string, n: nat)
    ensures |ToCamel(s + Itoa(n))| >= |Itoa(n)|
  {
    CamelFromLength(TrimSpace(s + Itoa(n)), true);
    TrimSpaceAlnum(s + Itoa(n));
    AlnumCountAppend(s, Itoa(n));
    AlnumCountDigits(Itoa(n));
  }

  function Pow10(k: nat): (r: nat)
    ensures r >= 1
  {
    if k == 0 then 1 else 10 * Pow10(k - 1)
  }

  /** A number of at least 10^k has more than k decimal digits. */
  lemma {:induction false} ItoaLength(n: nat, k: nat)
    requires n >= Pow10(k)
    ensures |Itoa(n)| > k
  {
    if k > 0 {
      ItoaLength(n / 10, k - 1);
    }
  }

  /** Distinct numbers print differently. */
  lemma {:induction false} ItoaInjective(m: nat, n: nat)
    requires Itoa(m) == Itoa(n)
    ensures m == n
  {
    if m >= 10 && n >= 10 {
      var a, b := Itoa(m), Itoa(n);
      assert a[..|a| - 1] == Itoa(m / 10);
      assert b[..|b| - 1] == Itoa(n / 10);
      ItoaInjective(m / 10, n / 10);
      assert DigitChar(m % 10) == a[|a| - 1] == b[|b| - 1] == DigitChar(n % 10);
    } else if m < 10 && n < 10 {
      assert Itoa(m)[0] == Itoa(n)[0];
    }
  }

  // ---------------------------------------------------------------------
  // sort.Strings: byte-wise lexicographic order. Characters are compared by
  // code point, which orders UTF-8 encodings the same way Go's byte-wise
  // string comparison does.

  /** a <= b in Go's string order. */
  predicate StrLe(a: string, b: string) {
    if a == [] then true
    else if b == [] then false
    else if a[0] != b[0] then a[0] < b[0]
    else StrLe(a[1..], b[1..])
  }

  lemma {:induction false} StrLeTotal(a: string, b: string)
    ensures StrLe(a, b) || StrLe(b, a)
  {
    if a != [] && b != [] && a[0] == b[0] {
      StrLeTotal(a[1..], b[1..]);
    }
  }

  lemma {:induction false} StrLeTrans(a: string, b: string, c: string)
    requires StrLe(a, b) && StrLe(b, c)
    ensures StrLe(a, c)
  {
    if a != [] && b != [] && c != [] && a[0] == b[0] == c[0] {
      StrLeTrans(a[1..], b[1..], c[1..]);
    }
  }

  predicate Sorted(s: seq<string>) {
    forall i, j :: 0 <= i < j < |s| ==> StrLe(s[i], s[j])
  }

  /** Insertion of one string into a sorted list. */
  function Insert(x: string, s: seq<string>): (r: seq<string>)
    ensures multiset(r) == multiset(s) + multiset{x}
  {
    if s == [] then [x]
    else if StrLe(x, s[0]) then [x] + s
    else
      assert s == [s[0]] + s[1..];
      [s[0]] + Insert(x, s[1..])
  }

  /** sort.Strings, as the result it leaves in the slice. */
  function SortStrings(s: seq<string>): (r: seq<string>)
    ensures multiset(r) == multiset(s)
  {
    if s == [] then []
    else
      assert s == [s[0]] + s[1..];
      Insert(s[0], SortStrings(s[1..]))
  }

  /** A lower bound of x and of every entry of s bounds the insertion too. */
  lemma {:induction false} InsertBound(lo: string, x: string, s: seq<string>)
    requires StrLe(lo, x)
    requires forall i :: 0 <= i < |s| ==> StrLe(lo, s[i])
    ensures forall i :: 0 <= i < |Insert(x, s)| ==> StrLe(lo, Insert(x, s)[i])
  {
    var r := Insert(x, s);
    if s == [] {
      assert r == [x];
    } else if StrLe(x, s[0]) {
      assert r == [x] + s;
      forall i | 0 <= i < |r| ensures StrLe(lo, r[i]) {
        if i > 0 {
          assert r[i] == s[i - 1];
        }
      }
    } else {
      InsertBound(lo, x, s[1..]);
      var t := Insert(x, s[1..]);
      assert r == [s[0]] + t;
      forall i | 0 <= i < |r| ensures StrLe(lo, r[i]) {
        if i > 0 {
          assert r[i] == t[i - 1];
        }
      }
    }
  }

  lemma {:induction false} InsertSorted(x: string, s: seq<string>)
    requires Sorted(s)
    ensures Sorted(Insert(x, s))
  {
    if s == [] {
    } else if StrLe(x, s[0]) {
      var r := Insert(x, s);
      forall i, j | 0 <= i < j < |r| ensures StrLe(r[i], r[j]) {
        if i == 0 && j > 1 {
          StrLeTrans(x, s[0], s[j - 1]);
        }
      }
    } else {
      InsertSorted(x, s[1..]);
      StrLeTotal(x, s[0]);
      InsertBound(s[0], x, s[1..]);
      var t := Insert(x, s[1..]);
      var r := Insert(x, s);
      assert r == [s[0]] + t;
      forall i, j | 0 <= i < j < |r| ensures StrLe(r[i], r[j]) {
        assert r[j] == t[j - 1];
        if i > 0 {
          assert r[i] == t[i - 1];
        }
      }
    }
  }

  /** The result of sort.Strings is sorted (and, by its contract, a permutation). */
  lemma {:induction false} SortStringsSorted(s: seq<string>)
    ensures Sorted(SortStrings(s))
  {
    if s != [] {
      SortStringsSorted(s[1..]);
      InsertSorted(s[0], SortStrings(s[1..]));
    }
  }
}
