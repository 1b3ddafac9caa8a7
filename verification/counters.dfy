/** Python's `collections.Counter` as the analyzer uses it: an insertion-ordered
    dictionary from string keys to counts, where reading a missing key yields 0 and
    `c[k] += 1` on a missing key appends `k` with count 1. The order of keys matters
    because the detector reports findings in dictionary iteration order. */
module Counters {

  datatype CountEntry = CountEntry(key: string, count: nat)

  /** Entries in insertion order. */
  type Counter = seq<CountEntry>

  /** The keys in iteration (insertion) order. */
  function Keys(c: Counter): (ks: seq<string>)
    ensures |ks| == |c|
    ensures forall i :: 0 <= i < |c| ==> ks[i] == c[i].key
  {
    if |c| == 0 then [] else [c[0].key] + Keys(c[1..])
  }

  /** Dictionary keys are unique. */
  predicate DistinctKeys(c: Counter) {
    forall i, j :: 0 <= i < j < |c| ==> c[i].key != c[j].key
  }

  /** A counter built only by `+= 1`: unique keys, every stored count at least 1. */
  predicate Valid(c: Counter) {
    DistinctKeys(c) && forall i :: 0 <= i < |c| ==> c[i].count >= 1
  }

  /** `c[k]`: the stored count, or 0 for a key never seen. */
  function Get(c: Counter, k: string): nat {
    if |c| == 0 then 0 else if c[0].key == k then c[0].count else Get(c[1..], k)
  }

  /** `c[k] += 1`. */
  function Increment(c: Counter, k: string): Counter {
    if |c| == 0 then [CountEntry(k, 1)]
    else if c[0].key == k then [CountEntry(k, c[0].count + 1)] + c[1..]
    else [c[0]] + Increment(c[1..], k)
  }

  /** The sum of all counts. */
  function Total(c: Counter): nat {
    if |c| == 0 then 0 else c[0].count + Total(c[1..])
  }

  /** Incrementing `k` adds exactly one to `k` and leaves every other key's count alone. */
  lemma {:induction false} IncrementGet(c: Counter, k: string, j: string)
    ensures Get(Increment(c, k), j) == Get(c, j) + (if j == k then 1 else 0)
  {
    if |c| > 0 && c[0].key != k {
      IncrementGet(c[1..], k, j);
      assert Increment(c, k)[1..] == Increment(c[1..], k);
    }
  }

  /** Incrementing adds exactly one to the sum of all counts. */
  lemma {:induction false} IncrementTotal(c: Counter, k: string)
    ensures Total(Increment(c, k)) == Total(c) + 1
  {
    if |c| > 0 {
      if c[0].key == k {
        assert Increment(c, k)[1..] == c[1..];
      } else {
        IncrementTotal(c[1..], k);
        assert Increment(c, k)[1..] == Increment(c[1..], k);
      }
    }
  }

  /** Existing keys keep their position; a new key is appended at the end. */
  lemma {:induction false} IncrementKeys(c: Counter, k: string)
    ensures Keys(Increment(c, k)) == if k in Keys(c) then Keys(c) else Keys(c) + [k]
  {
    if |c| > 0 {
      var r := Increment(c, k);
      if c[0].key == k {
        assert k in Keys(c);
        assert Keys(r) == [k] + Keys(c[1..]);
      } else {
        IncrementKeys(c[1..], k);
        assert r[1..] == Increment(c[1..], k);
        assert Keys(c) == [c[0].key] + Keys(c[1..]);
        assert Keys(r) == [c[0].key] + Keys(Increment(c[1..], k));
        assert k in Keys(c) <==> k in Keys(c[1..]);
      }
    }
  }

  /** In a counter with unique keys, `Get` reads the entry stored under the key. */
  lemma {:induction false} GetEntry(c: Counter, i: nat)
    requires DistinctKeys(c) && i < |c|
    ensures Get(c, c[i].key) == c[i].count
  {
    if i > 0 {
      assert c[0].key != c[i].key;
      assert c[1..][i - 1] == c[i];
      GetEntry(c[1..], i - 1);
    }
  }

  /** For a valid counter, a key is present exactly when its count is positive. */
  lemma {:induction false} GetPositive(c: Counter, k: string)
    requires Valid(c)
    ensures k in Keys(c) <==> Get(c, k) > 0
  {
    if |c| > 0 && c[0].key != k {
      GetPositive(c[1..], k);
      assert Keys(c) == [c[0].key] + Keys(c[1..]);
    }
  }

  /** `+= 1` keeps keys unique and counts positive. */
  lemma {:induction false} IncrementValid(c: Counter, k: string)
    requires Valid(c)
    ensures Valid(Increment(c, k))
  {
    var r := Increment(c, k);
    IncrementKeys(c, k);
    assert Keys(r) == if k in Keys(c) then Keys(c) else Keys(c) + [k];
    IncrementCounts(c, k);
  }

  lemma {:induction false} IncrementCounts(c: Counter, k: string)
    requires forall i :: 0 <= i < |c| ==> c[i].count >= 1
    ensures forall i :: 0 <= i < |Increment(c, k)| ==> Increment(c, k)[i].count >= 1
  {
    if |c| > 0 && c[0].key != k {
      IncrementCounts(c[1..], k);
      assert Increment(c, k)[1..] == Increment(c[1..], k);
    }
  }
}
