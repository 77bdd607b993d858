/** The few string operations of the Kotlin standard library the core relies on:
    `lowercase()`, `endsWith`, `lastIndexOf`, `substringBeforeLast` and the decimal
    rendering of a counter value inside a string template. */
module Strings {
  import opened Wrappers

  /** ASCII case folding; the names the source lowercases are ASCII identifiers. */
  function LowerChar(c: char): char {
    if 'A' <= c <= 'Z' then (c as int + 32) as char else c
  }

  function Lowercase(s: string): (r: string)
    ensures |r| == |s|
    ensures forall i :: 0 <= i < |s| ==> r[i] == LowerChar(s[i])
  {
    seq(|s|, i requires 0 <= i < |s| => LowerChar(s[i]))
  }

  predicate EndsWith(s: string, suffix: string) {
    |suffix| <= |s| && s[|s| - |suffix|..] == suffix
  }

  /** `d` occurs in `s` starting at position `j`. */
  predicate OccursAt(s: string, d: string, j: int) {
    0 <= j && j + |d| <= |s| && s[j..j + |d|] == d
  }

  /** Start of the last occurrence of `d` in `s`, searching downwards from `i`. */
  function LastIndexFrom(s: string, d: string, i: nat): (r: Option<nat>)
    requires i + |d| <= |s|
    ensures r.Some? ==> r.value <= i && OccursAt(s, d, r.value)
    ensures r.Some? ==> forall j :: r.value < j <= i ==> !OccursAt(s, d, j)
    ensures r.None? ==> forall j :: 0 <= j <= i ==> !OccursAt(s, d, j)
    decreases i
  {
    if OccursAt(s, d, i) then Some(i)
    else if i == 0 then None
    else LastIndexFrom(s, d, i - 1)
  }

  /** Kotlin's `lastIndexOf(d)` for a non-empty delimiter, `None` standing for -1. */
  function LastIndexOf(s: string, d: string): (r: Option<nat>)
    requires |d| > 0
    ensures r.Some? ==> OccursAt(s, d, r.value)
    ensures r.Some? ==> forall j :: r.value < j ==> !OccursAt(s, d, j)
    ensures r.None? ==> forall j :: !OccursAt(s, d, j)
  {
    if |d| > |s| then None else LastIndexFrom(s, d, |s| - |d|)
  }

  /** Kotlin's `substringBeforeLast(d)`: the whole string when `d` does not occur. */
  function SubstringBeforeLast(s: string, d: string): (r: string)
    requires |d| > 0
  {
    match LastIndexOf(s, d)
    case None => s
    case Some(i) => s[..i]
  }

  /** A string ending in the delimiter loses exactly that trailing occurrence. */
  lemma SubstringBeforeLastOfSuffixed(s: string, d: string)
    requires |d| > 0 && EndsWith(s, d)
    ensures SubstringBeforeLast(s, d) == s[..|s| - |d|]
  {
    assert OccursAt(s, d, |s| - |d|);
  }

  /** A string in which the delimiter does not occur is returned unchanged. */
  lemma SubstringBeforeLastWithout(s: string, d: string)
    requires |d| > 0
    requires forall j :: !OccursAt(s, d, j)
    ensures SubstringBeforeLast(s, d) == s
  {
  }

  function DigitChar(d: nat): char
    requires d < 10
  {
    (48 + d) as char
  }

  /** Decimal rendering of a natural number, as a string template does it. */
  function Digits(n: nat): (r: string)
    ensures |r| > 0
    ensures forall k :: 0 <= k < |r| ==> '0' <= r[k] <= '9'
  {
    if n < 10 then [DigitChar(n)] else Digits(n / 10) + [DigitChar(n % 10)]
  }

  /** Reads a run of decimal digits back as a number. */
  function ParseDecimal(s: string): int {
    if |s| == 0 then 0
    else 10 * ParseDecimal(s[..|s| - 1]) + (s[|s| - 1] as int - 48)
  }

  lemma {:induction false} ParseDigits(n: nat)
    ensures ParseDecimal(Digits(n)) == n
  {
    var s := Digits(n);
    if n >= 10 {
      assert s[..|s| - 1] == Digits(n / 10);
      ParseDigits(n / 10);
    } else {
      assert s[..|s| - 1] == [];
    }
  }

  /** The number after the last `-` of a name of the shape `<name>-<n>`, or -1. */
  function NumberSuffix(s: string): int {
    match LastIndexOf(s, "-")
    case None => -1
    case Some(i) => ParseDecimal(s[i + 1..])
  }

  /** `<name>-<n>` always gives `n` back, whatever `-` characters `name` holds. */
  lemma NumberSuffixRoundTrip(name: string, n: nat)
    ensures NumberSuffix(name + "-" + Digits(n)) == n
  {
    var s := name + "-" + Digits(n);
    var r := LastIndexOf(s, "-");
    assert s[|name|..|name| + 1] == "-";
    assert OccursAt(s, "-", |name|);
    forall j | |name| < j ensures !OccursAt(s, "-", j) {
      if j < |s| {
        assert s[j] == Digits(n)[j - |name| - 1];
      }
    }
    assert r.value == |name|;
    assert s[r.value + 1..] == Digits(n);
    ParseDigits(n);
  }

  predicate Distinct(s: seq<string>) {
    forall i, j :: 0 <= i < j < |s| ==> s[i] != s[j]
  }

  lemma DistinctCons(a: string, s: seq<string>)
    requires a !in s && Distinct(s)
    ensures Distinct([a] + s)
  {
    var t := [a] + s;
    forall i, j | 0 <= i < j < |t| ensures t[i] != t[j] {
      if i == 0 {
        assert t[j] == s[j - 1];
      } else {
        assert t[i] == s[i - 1] && t[j] == s[j - 1];
      }
    }
  }

  /** Kotlin's `list - other`: every element of `other` removed, the rest in order. */
  function Minus(s: seq<string>, other: seq<string>): (r: seq<string>)
    ensures forall x :: x in r <==> x in s && x !in other
  {
    if |s| == 0 then []
    else if s[0] in other then Minus(s[1..], other)
    else [s[0]] + Minus(s[1..], other)
  }

  /** An insertion-ordered set built from `acc` and then `s`, as `toSet()` and `+` on
      Kotlin sets build it: first occurrences, in order. */
  function Dedup(s: seq<string>, acc: seq<string>): (r: seq<string>)
    requires Distinct(acc)
    ensures Distinct(r)
    ensures forall x :: x in r <==> x in acc || x in s
    ensures |r| >= |acc| && r[..|acc|] == acc
  {
    if |s| == 0 then acc
    else if s[0] in acc then Dedup(s[1..], acc)
    else
      var r := Dedup(s[1..], acc + [s[0]]);
      assert r[..|acc|] == r[..|acc| + 1][..|acc|];
      r
  }

  /** The position of the first occurrence of `x` in `s`, or `|s|` when there is none. */
  function IndexOf(s: seq<string>, x: string): (k: nat)
    ensures k <= |s|
    ensures k < |s| ==> s[k] == x
    ensures forall j :: 0 <= j < k ==> s[j] != x
  {
    if |s| == 0 then 0
    else if s[0] == x then 0
    else 1 + IndexOf(s[1..], x)
  }

  /** `Minus` keeps the relative order of what it keeps. */
  lemma {:induction false} MinusKeepsOrder(s: seq<string>, other: seq<string>, x: string, y: string)
    requires x in Minus(s, other) && y in Minus(s, other)
    requires IndexOf(Minus(s, other), x) < IndexOf(Minus(s, other), y)
    ensures IndexOf(s, x) < IndexOf(s, y)
  {
    var m := Minus(s, other);
    if s[0] in other {
      MinusKeepsOrder(s[1..], other, x, y);
    } else if x != s[0] {
      assert y != s[0];
      MinusKeepsOrder(s[1..], other, x, y);
    }
  }

  /** The elements `Dedup` adds after `acc` come in the order of their first
      occurrence in `s`. */
  lemma {:induction false} DedupOrder(s: seq<string>, acc: seq<string>)
    requires Distinct(acc)
    ensures forall i, j :: |acc| <= i < j < |Dedup(s, acc)| ==>
              IndexOf(s, Dedup(s, acc)[i]) < IndexOf(s, Dedup(s, acc)[j])
  {
    var r := Dedup(s, acc);
    if |s| == 0 {
    } else if s[0] in acc {
      DedupOrder(s[1..], acc);
      DedupBeyond(s, acc);
    } else {
      var acc' := acc + [s[0]];
      DedupOrder(s[1..], acc');
      assert r[..|acc'|] == acc';
      assert r[|acc|] == s[0];
      DedupBeyond(s, acc');
    }
  }

  /** Past the first `|acc|` places, `Dedup` holds no element of `acc`, so when `s[0]`
      is in `acc` the positions in `s` are one past those in `s[1..]`. */
  lemma DedupBeyond(s: seq<string>, acc: seq<string>)
    requires Distinct(acc) && |s| > 0 && s[0] in acc
    ensures forall i :: |acc| <= i < |Dedup(s, acc)| ==> Dedup(s, acc)[i] !in acc
    ensures forall i :: |acc| <= i < |Dedup(s, acc)| ==> IndexOf(s, Dedup(s, acc)[i]) == 1 + IndexOf(s[1..], Dedup(s, acc)[i])
  {
    var r := Dedup(s, acc);
    assert forall k :: 0 <= k < |acc| ==> r[k] == acc[k];
  }
}
