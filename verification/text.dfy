/** The string operations the detector relies on: substring search (`sep in s`),
    `str.split(sep)` with a non-empty separator, and decimal rendering/parsing of
    port numbers (`f"{port}"` and `int(port_str)`). */
module Text {
  import opened Wrappers

  predicate IsDigit(c: char) {
    '0' <= c <= '9'
  }

  predicate AllDigits(s: string) {
    forall i :: 0 <= i < |s| ==> IsDigit(s[i])
  }

  /** `sep` occurs in `s` starting at index `i`. */
  predicate OccursAt(s: string, sep: string, i: nat) {
    i + |sep| <= |s| && s[i..i + |sep|] == sep
  }

  /** The first occurrence of `sep` in `s` at or after index `i`. */
  function FirstFrom(s: string, sep: string, i: nat): (r: Option<nat>)
    requires |sep| > 0
    ensures r.Some? ==> i <= r.value && r.value + |sep| <= |s|
    decreases |s| - i
  {
    if i + |sep| > |s| then None
    else if s[i..i + |sep|] == sep then Some(i)
    else FirstFrom(s, sep, i + 1)
  }

  /** `FirstFrom` finds an occurrence, and no occurrence lies between `i` and it;
      when it finds none, there is none at or after `i`. */
  lemma {:induction false} FirstFromSpec(s: string, sep: string, i: nat)
    requires |sep| > 0
    ensures FirstFrom(s, sep, i).Some? ==> OccursAt(s, sep, FirstFrom(s, sep, i).value)
    ensures FirstFrom(s, sep, i).Some? ==> forall j :: i <= j < FirstFrom(s, sep, i).value ==> !OccursAt(s, sep, j)
    ensures FirstFrom(s, sep, i).None? ==> forall j :: i <= j ==> !OccursAt(s, sep, j)
    decreases |s| - i
  {
    if i + |sep| <= |s| && s[i..i + |sep|] != sep {
      FirstFromSpec(s, sep, i + 1);
    }
  }

  /** Python's `sep in s`. */
  function Contains(s: string, sep: string): bool
    requires |sep| > 0
  {
    FirstFrom(s, sep, 0).Some?
  }

  /** `sep in s` holds exactly when `sep` occurs somewhere in `s`. */
  lemma {:induction false} ContainsSpec(s: string, sep: string)
    requires |sep| > 0
    ensures Contains(s, sep) <==> exists j :: OccursAt(s, sep, j)
  {
    FirstFromSpec(s, sep, 0);
  }

  /** Python's `s.split(sep)`: cut at the leftmost occurrence, then keep cutting
      the remainder, so occurrences never overlap. */
  function Split(s: string, sep: string): (parts: seq<string>)
    requires |sep| > 0
    ensures |parts| >= 1
    decreases |s|
  {
    match FirstFrom(s, sep, 0)
    case None => [s]
    case Some(i) => [s[..i]] + Split(s[i + |sep|..], sep)
  }

  /** Python's `sep.join(parts)`. */
  function Join(parts: seq<string>, sep: string): string
    requires |parts| >= 1
    decreases |parts|
  {
    if |parts| == 1 then parts[0] else parts[0] + sep + Join(parts[1..], sep)
  }

  /** The unpacking `a, b = s.split(sep)`, which raises unless there are exactly two parts. */
  function Split2(s: string, sep: string): (r: Option<(string, string)>)
    requires |sep| > 0
    ensures r.Some? <==> |Split(s, sep)| == 2
    ensures r.Some? ==> s == r.value.0 + sep + r.value.1
  {
    var parts := Split(s, sep);
    if |parts| == 2 then
      JoinSplit(s, sep);
      assert Join(parts[1..], sep) == parts[1];
      Some((parts[0], parts[1]))
    else None
  }

  /** Splitting and re-joining gives back the original string. */
  lemma {:induction false} JoinSplit(s: string, sep: string)
    requires |sep| > 0
    ensures Join(Split(s, sep), sep) == s
    decreases |s|
  {
    var first := FirstFrom(s, sep, 0);
    if first.Some? {
      var i := first.value;
      var rest := s[i + |sep|..];
      JoinSplit(rest, sep);
      FirstFromSpec(s, sep, 0);
      SplitUnfold(s, sep, i);
      JoinCons(s[..i], Split(rest, sep), sep);
      SliceAround(s, sep, i);
    }
  }

  lemma {:induction false} SplitUnfold(s: string, sep: string, i: nat)
    requires |sep| > 0 && FirstFrom(s, sep, 0) == Some(i)
    ensures i + |sep| <= |s|
    ensures Split(s, sep) == [s[..i]] + Split(s[i + |sep|..], sep)
  {
  }

  lemma {:induction false} SliceAround(s: string, sep: string, i: nat)
    requires OccursAt(s, sep, i)
    ensures s == s[..i] + sep + s[i + |sep|..]
  {
    assert s[i..i + |sep|] == sep;
    assert s == s[..i] + s[i..i + |sep|] + s[i + |sep|..];
  }

  lemma {:induction false} JoinCons(head: string, tail: seq<string>, sep: string)
    requires |tail| >= 1
    ensures Join([head] + tail, sep) == head + sep + Join(tail, sep)
  {
    assert ([head] + tail)[1..] == tail;
  }

  /** No part produced by `split` contains the separator. */
  lemma {:induction false} SplitPartsLackSep(s: string, sep: string)
    requires |sep| > 0
    ensures forall k :: 0 <= k < |Split(s, sep)| ==> !Contains(Split(s, sep)[k], sep)
    decreases |s|
  {
    match FirstFrom(s, sep, 0)
    case None =>
      ContainsSpec(s, sep);
      FirstFromSpec(s, sep, 0);
    case Some(i) =>
      var rest := s[i + |sep|..];
      SplitPartsLackSep(rest, sep);
      var head := s[..i];
      FirstFromSpec(s, sep, 0);
      forall j: nat
        ensures !OccursAt(head, sep, j)
      {
        if j + |sep| <= |head| {
          assert !OccursAt(s, sep, j);
          assert head[j..j + |sep|] == s[j..j + |sep|];
        }
      }
      ContainsSpec(head, sep);
      assert Split(s, sep) == [head] + Split(rest, sep);
  }

  /** A string with no occurrence of the separator's first character is one part. */
  lemma {:induction false} SplitWithoutMarker(s: string, sep: string)
    requires |sep| > 0 && sep[0] !in s
    ensures Split(s, sep) == [s]
  {
    FirstFromSpec(s, sep, 0);
    forall j: nat | j + |sep| <= |s|
      ensures s[j..j + |sep|][0] == s[j]
    {
    }
  }

  /** When the head does not contain the separator's first character, the first cut
      falls right after it. */
  lemma {:induction false} SplitAtFirst(head: string, sep: string, rest: string)
    requires |sep| > 0 && sep[0] !in head
    ensures Contains(head + sep + rest, sep)
    ensures Split(head + sep + rest, sep) == [head] + Split(rest, sep)
  {
    var s := head + sep + rest;
    FirstFromSpec(s, sep, 0);
    assert s[|head|..|head| + |sep|] == sep;
    assert OccursAt(s, sep, |head|);
    forall j: nat | j < |head|
      ensures s[j..j + |sep|][0] == head[j]
    {
    }
    assert FirstFrom(s, sep, 0) == Some(|head|);
    assert s[..|head|] == head;
    assert s[|head| + |sep|..] == rest;
  }

  /** When neither side contains the separator's first character,
      `(a + sep + b).split(sep)` is exactly `[a, b]`. */
  lemma {:induction false} SplitAtMarker(a: string, sep: string, b: string)
    requires |sep| > 0 && sep[0] !in a && sep[0] !in b
    ensures Contains(a + sep + b, sep)
    ensures Split(a + sep + b, sep) == [a, b]
  {
    SplitAtFirst(a, sep, b);
    SplitWithoutMarker(b, sep);
  }

  /** A string that contains the separator splits into at least two parts. */
  lemma {:induction false} SplitContaining(s: string, sep: string)
    requires |sep| > 0 && Contains(s, sep)
    ensures |Split(s, sep)| >= 2
  {
    var i := FirstFrom(s, sep, 0).value;
    assert Split(s, sep) == [s[..i]] + Split(s[i + |sep|..], sep);
  }

  function DigitChar(d: nat): (c: char)
    requires d < 10
    ensures IsDigit(c)
  {
    (48 + d) as char
  }

  function DigitValue(c: char): (d: nat)
    requires IsDigit(c)
    ensures d < 10 && DigitChar(d) == c
  {
    c as int - 48
  }

  /** Decimal rendering with no leading zeros, as Python's `f"{n}"`. */
  function NatToString(n: nat): (s: string)
    ensures |s| >= 1 && AllDigits(s)
    decreases n
  {
    if n < 10 then [DigitChar(n)] else NatToString(n / 10) + [DigitChar(n % 10)]
  }

  /** The value of a string of decimal digits, most significant first. */
  function DigitsValue(s: string): nat
    requires AllDigits(s)
    decreases |s|
  {
    if |s| == 0 then 0 else DigitsValue(s[..|s| - 1]) * 10 + DigitValue(s[|s| - 1])
  }

  /** Python's `int(s)` restricted to plain decimal digit strings; `None` where it raises. */
  function ParseDecimal(s: string): (r: Option<nat>)
    ensures r.Some? <==> |s| >= 1 && AllDigits(s)
  {
    if |s| >= 1 && AllDigits(s) then Some(DigitsValue(s)) else None
  }

  lemma {:induction false} DigitsValueOfNatToString(n: nat)
    ensures DigitsValue(NatToString(n)) == n
    decreases n
  {
    if n >= 10 {
      var s := NatToString(n);
      DigitsValueOfNatToString(n / 10);
      assert s[..|s| - 1] == NatToString(n / 10);
      assert s[|s| - 1] == DigitChar(n % 10);
    }
  }

  /** Parsing a rendered number gives the number back. */
  lemma {:induction false} ParseNatToString(n: nat)
    ensures ParseDecimal(NatToString(n)) == Some(n)
  {
    DigitsValueOfNatToString(n);
  }
}
