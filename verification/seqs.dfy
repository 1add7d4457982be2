/** Sequence facts used across the model: order-preserving filtering and distinctness. */
module Seqs {

  /** The elements of `s` that satisfy `keep`, in their original order
      (the behaviour of `Array.prototype.filter`). */
  function Filter<T>(s: seq<T>, keep: T -> bool): (r: seq<T>)
    ensures |r| <= |s|
    ensures forall i :: 0 <= i < |r| ==> r[i] in s && keep(r[i])
    ensures forall i :: 0 <= i < |s| && keep(s[i]) ==> s[i] in r
  {
    if |s| == 0 then []
    else (if keep(s[0]) then [s[0]] else []) + Filter(s[1..], keep)
  }

  /** The positions of `s` whose elements `keep` accepts, in increasing order. */
  function KeptIndices<T>(s: seq<T>, keep: T -> bool): seq<int> {
    KeptFrom(s, keep, 0)
  }

  /** The accepted positions of `s`, numbered from `base`. */
  function KeptFrom<T>(s: seq<T>, keep: T -> bool, base: int): seq<int>
    decreases |s|
  {
    if |s| == 0 then [] else (if keep(s[0]) then [base] else []) + KeptFrom(s[1..], keep, base + 1)
  }

  /** `Filter` keeps exactly the accepted elements, each once, in their original order:
      its result is `s` read at the increasing positions of the accepted elements. */
  lemma {:induction false} FilterIsKeptSubsequence<T>(s: seq<T>, keep: T -> bool)
    ensures var idx := KeptIndices(s, keep);
      && |idx| == |Filter(s, keep)|
      && (forall i :: 0 <= i < |idx| ==> 0 <= idx[i] < |s| && s[idx[i]] == Filter(s, keep)[i])
      && (forall i, j :: 0 <= i < j < |idx| ==> idx[i] < idx[j])
      && (forall j :: 0 <= j < |s| ==> (keep(s[j]) <==> j in idx))
  {
    AcceptedIsFilter(s, keep);
    KeptValues(s, keep, 0);
    KeptOrder(s, keep, 0);
    KeptMembers(s, keep, 0);
  }

  /** `Filter` without its contract, so that the proofs below reason about plain sequences. */
  function Accepted<T>(s: seq<T>, keep: T -> bool): seq<T>
    decreases |s|
  {
    if |s| == 0 then [] else (if keep(s[0]) then [s[0]] else []) + Accepted(s[1..], keep)
  }

  lemma {:induction false} AcceptedIsFilter<T>(s: seq<T>, keep: T -> bool)
    ensures Accepted(s, keep) == Filter(s, keep)
    decreases |s|
  {
    if |s| > 0 {
      AcceptedIsFilter(s[1..], keep);
    }
  }

  lemma {:induction false} KeptValues<T>(s: seq<T>, keep: T -> bool, base: int)
    ensures |KeptFrom(s, keep, base)| == |Accepted(s, keep)|
    ensures forall i :: 0 <= i < |KeptFrom(s, keep, base)| ==>
      base <= KeptFrom(s, keep, base)[i] < base + |s| && s[KeptFrom(s, keep, base)[i] - base] == Accepted(s, keep)[i]
    decreases |s|
  {
    if |s| > 0 {
      var t, ta := KeptFrom(s[1..], keep, base + 1), Accepted(s[1..], keep);
      KeptValues(s[1..], keep, base + 1);
      var h, ha := if keep(s[0]) then [base] else [], if keep(s[0]) then [s[0]] else [];
      assert KeptFrom(s, keep, base) == h + t;
      assert Accepted(s, keep) == ha + ta;
      forall i | 0 <= i < |h + t|
        ensures base <= (h + t)[i] < base + |s| && s[(h + t)[i] - base] == (ha + ta)[i]
      {
        if i >= |h| {
          var k := i - |h|;
          assert (h + t)[i] == t[k] && (ha + ta)[i] == ta[k];
          assert s[t[k] - base] == s[1..][t[k] - (base + 1)];
        }
      }
    }
  }

  lemma {:induction false} KeptOrder<T>(s: seq<T>, keep: T -> bool, base: int)
    ensures forall i, j :: 0 <= i < j < |KeptFrom(s, keep, base)| ==> KeptFrom(s, keep, base)[i] < KeptFrom(s, keep, base)[j]
    decreases |s|
  {
    if |s| > 0 {
      var t := KeptFrom(s[1..], keep, base + 1);
      KeptOrder(s[1..], keep, base + 1);
      KeptValues(s[1..], keep, base + 1);
      var h := if keep(s[0]) then [base] else [];
      assert KeptFrom(s, keep, base) == h + t;
      forall i, j | 0 <= i < j < |h + t|
        ensures (h + t)[i] < (h + t)[j]
      {
        assert (h + t)[j] == t[j - |h|];
        if i >= |h| {
          assert (h + t)[i] == t[i - |h|];
        }
      }
    }
  }

  lemma {:induction false} KeptMembers<T>(s: seq<T>, keep: T -> bool, base: int)
    ensures forall j :: base <= j < base + |s| ==> (keep(s[j - base]) <==> j in KeptFrom(s, keep, base))
    decreases |s|
  {
    if |s| > 0 {
      var t := KeptFrom(s[1..], keep, base + 1);
      KeptMembers(s[1..], keep, base + 1);
      KeptRange(s[1..], keep, base + 1);
      var h := if keep(s[0]) then [base] else [];
      assert KeptFrom(s, keep, base) == h + t;
      forall j | base <= j < base + |s|
        ensures keep(s[j - base]) <==> j in h + t
      {
        if j > base {
          assert s[j - base] == s[1..][j - (base + 1)];
        }
        ConsMember(h, t, base, j, keep(s[j - base]), keep(s[0]));
      }
    }
  }

  /** Every accepted position numbered from `base` lies in `[base, base + |s|)`. */
  lemma {:induction false} KeptRange<T>(s: seq<T>, keep: T -> bool, base: int)
    ensures forall i :: 0 <= i < |KeptFrom(s, keep, base)| ==> base <= KeptFrom(s, keep, base)[i] < base + |s|
    decreases |s|
  {
    if |s| > 0 {
      var t := KeptFrom(s[1..], keep, base + 1);
      KeptRange(s[1..], keep, base + 1);
      var h := if keep(s[0]) then [base] else [];
      assert KeptFrom(s, keep, base) == h + t;
      forall i | 0 <= i < |h + t|
        ensures base <= (h + t)[i] < base + |s|
      {
        if i >= |h| {
          assert (h + t)[i] == t[i - |h|];
        }
      }
    }
  }

  /** `j` is in `h + t`, where `h` holds `base` exactly when `first` and `t` lies above
      `base`, exactly when `kj` says so. */
  lemma ConsMember(h: seq<int>, t: seq<int>, base: int, j: int, kj: bool, first: bool)
    requires h == (if first then [base] else [])
    requires forall m :: 0 <= m < |t| ==> base < t[m]
    requires base <= j
    requires j == base ==> kj == first
    requires j > base ==> (kj <==> j in t)
    ensures kj <==> j in h + t
  {
    if kj {
      if j == base {
        assert (h + t)[0] == j;
      } else {
        var m :| 0 <= m < |t| && t[m] == j;
        assert (h + t)[m + |h|] == j;
      }
    }
    if j in h + t {
      var m :| 0 <= m < |h + t| && (h + t)[m] == j;
      if m >= |h| {
        assert t[m - |h|] == j;
      }
    }
  }

  /** Filtering distributes over concatenation, so filtering keeps relative order. */
  lemma {:induction false} FilterAppend<T>(a: seq<T>, b: seq<T>, keep: T -> bool)
    ensures Filter(a + b, keep) == Filter(a, keep) + Filter(b, keep)
  {
    if |a| == 0 {
      assert a + b == b;
    } else {
      assert (a + b)[1..] == a[1..] + b;
      FilterAppend(a[1..], b, keep);
    }
  }

  /** Filtering a sequence whose every element is kept returns it unchanged. */
  lemma {:induction false} FilterAll<T>(s: seq<T>, keep: T -> bool)
    requires forall i :: 0 <= i < |s| ==> keep(s[i])
    ensures Filter(s, keep) == s
  {
    if |s| > 0 {
      FilterAll(s[1..], keep);
    }
  }

  /** Filtering a sequence none of whose elements is kept yields the empty sequence. */
  lemma {:induction false} FilterNone<T>(s: seq<T>, keep: T -> bool)
    requires forall i :: 0 <= i < |s| ==> !keep(s[i])
    ensures Filter(s, keep) == []
  {
    if |s| > 0 {
      FilterNone(s[1..], keep);
    }
  }

  /** Filtering twice with the same test is filtering once. */
  lemma FilterIdempotent<T>(s: seq<T>, keep: T -> bool)
    ensures Filter(Filter(s, keep), keep) == Filter(s, keep)
  {
    FilterAll(Filter(s, keep), keep);
  }

  /** No value occurs twice in `s`. */
  ghost predicate Distinct<T>(s: seq<T>) {
    forall i, j :: 0 <= i < j < |s| ==> s[i] != s[j]
  }

  /** The set of values occurring in `s` (JavaScript `new Set(s)`). */
  function Elements<T>(s: seq<T>): set<T> {
    set x | x in s
  }

  /** `new Set(s).size === s.length` is exactly the test that no value repeats. */
  lemma {:induction false} DistinctIffCardinality<T>(s: seq<T>)
    ensures |Elements(s)| <= |s|
    ensures |Elements(s)| == |s| <==> Distinct(s)
  {
    if |s| == 0 {
      assert Elements(s) == {};
    } else {
      var t := s[1..];
      DistinctIffCardinality(t);
      assert Elements(s) == {s[0]} + Elements(t);
      if s[0] in t {
        assert Elements(s) == Elements(t);
        var k :| 0 <= k < |t| && t[k] == s[0];
        assert s[k + 1] == s[0];
      } else {
        assert |Elements(s)| == 1 + |Elements(t)|;
        if Distinct(t) {
          forall i, j | 0 <= i < j < |s|
            ensures s[i] != s[j]
          {
            assert s[j] == t[j - 1];
            if i > 0 {
              assert s[i] == t[i - 1];
            }
          }
        }
        if Distinct(s) {
          forall i, j | 0 <= i < j < |t|
            ensures t[i] != t[j]
          {
            assert t[i] == s[i + 1] && t[j] == s[j + 1];
          }
        }
      }
    }
  }
}
