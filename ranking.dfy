/** The ranking step of `retrieveRelevantDocs`: the list of `{id, score}`
    records sorted with `(a, b) => b.score - a.score`. The JavaScript sort is
    stable, so the result is the stable descending sort, written here as a
    function (insertion in input order), proved to be the only stable
    descending arrangement, and computed in place by an insertion sort. */
module Ranking {

  /** A document id with its raw similarity to the query. */
  datatype Scored = Scored(id: string, score: real)

  /** Non-increasing by score. */
  predicate SortedDesc(s: seq<Scored>) {
    forall i, j :: 0 <= i < j < |s| ==> s[i].score >= s[j].score
  }

  /** No two records share an id. */
  predicate DistinctIds(s: seq<Scored>) {
    forall i, j :: 0 <= i < j < |s| ==> s[i].id != s[j].id
  }

  /** Places `x`, which follows every element of `t` in the input, into `t`:
      after every element whose score is at least that of `x`. */
  function InsertDesc(t: seq<Scored>, x: Scored): seq<Scored>
    decreases |t|
  {
    if t == [] then [x]
    else if t[|t| - 1].score < x.score then InsertDesc(t[..|t| - 1], x) + [t[|t| - 1]]
    else t + [x]
  }

  /** The stable sort by descending score. */
  function SortDesc(s: seq<Scored>): seq<Scored> {
    if s == [] then [] else InsertDesc(SortDesc(s[..|s| - 1]), s[|s| - 1])
  }

  /** The records of `s` whose score is exactly `c`, in their order in `s`. */
  function WithScore(s: seq<Scored>, c: real): seq<Scored> {
    if s == [] then [] else (if s[0].score == c then [s[0]] else []) + WithScore(s[1..], c)
  }

  lemma {:induction false} WithScoreAppend(a: seq<Scored>, b: seq<Scored>, c: real)
    ensures WithScore(a + b, c) == WithScore(a, c) + WithScore(b, c)
  {
    if a != [] {
      assert (a + b)[1..] == a[1..] + b;
      WithScoreAppend(a[1..], b, c);
    } else {
      assert a + b == b;
    }
  }

  lemma {:induction false} WithScoreMember(s: seq<Scored>, c: real, y: Scored)
    requires y in WithScore(s, c)
    ensures y in s && y.score == c
  {
    if s != [] && !(s[0].score == c && y == s[0]) {
      WithScoreMember(s[1..], c, y);
    }
  }

  /** Inserting adds exactly one element. */
  lemma {:induction false} InsertDescPermutation(t: seq<Scored>, x: Scored)
    ensures multiset(InsertDesc(t, x)) == multiset(t) + multiset{x}
    decreases |t|
  {
    if t != [] && t[|t| - 1].score < x.score {
      var n := |t| - 1;
      InsertDescPermutation(t[..n], x);
      assert t == t[..n] + [t[n]];
    }
  }

  /** The sort is a permutation of its input. */
  lemma {:induction false} SortDescPermutation(s: seq<Scored>)
    ensures multiset(SortDesc(s)) == multiset(s)
  {
    if s != [] {
      var n := |s| - 1;
      var p := s[..n];
      SortDescPermutation(p);
      InsertDescPermutation(SortDesc(p), s[n]);
      assert SortDesc(s) == InsertDesc(SortDesc(p), s[n]);
      assert s == p + [s[n]];
      assert multiset(s) == multiset(p) + multiset{s[n]};
    }
  }

  lemma SortDescLength(s: seq<Scored>)
    ensures |SortDesc(s)| == |s|
  {
    SortDescPermutation(s);
    assert |multiset(SortDesc(s))| == |multiset(s)|;
  }

  lemma {:induction false} InsertDescSorted(t: seq<Scored>, x: Scored)
    requires SortedDesc(t)
    ensures SortedDesc(InsertDesc(t, x))
    decreases |t|
  {
    if t != [] && t[|t| - 1].score < x.score {
      var n := |t| - 1;
      var last := t[n];
      InsertDescSorted(t[..n], x);
      InsertDescPermutation(t[..n], x);
      var r := InsertDesc(t[..n], x);
      forall i | 0 <= i < |r| ensures r[i].score >= last.score {
        assert r[i] in multiset(r);
        if r[i] != x {
          assert r[i] in t[..n];
        }
      }
    }
  }

  /** The sort is non-increasing by score. */
  lemma {:induction false} SortDescSorted(s: seq<Scored>)
    ensures SortedDesc(SortDesc(s))
  {
    if s != [] {
      SortDescSorted(s[..|s| - 1]);
      InsertDescSorted(SortDesc(s[..|s| - 1]), s[|s| - 1]);
    }
  }

  lemma {:induction false} InsertDescStable(t: seq<Scored>, x: Scored, c: real)
    ensures WithScore(InsertDesc(t, x), c) == WithScore(t, c) + WithScore([x], c)
    decreases |t|
  {
    if t == [] {
    } else if t[|t| - 1].score < x.score {
      var n := |t| - 1;
      InsertDescStable(t[..n], x, c);
      WithScoreAppend(InsertDesc(t[..n], x), [t[n]], c);
      assert t == t[..n] + [t[n]];
      WithScoreAppend(t[..n], [t[n]], c);
    } else {
      WithScoreAppend(t, [x], c);
    }
  }

  /** Stability: for every score value, the records with that score appear in
      the sort in the same order as in the input. */
  lemma {:induction false} SortDescStable(s: seq<Scored>, c: real)
    ensures WithScore(SortDesc(s), c) == WithScore(s, c)
  {
    if s != [] {
      var n := |s| - 1;
      SortDescStable(s[..n], c);
      InsertDescStable(SortDesc(s[..n]), s[n], c);
      assert s == s[..n] + [s[n]];
      WithScoreAppend(s[..n], [s[n]], c);
    }
  }

  lemma SameEmptiness(r: seq<Scored>, q: seq<Scored>)
    requires forall c :: WithScore(r, c) == WithScore(q, c)
    ensures r == [] <==> q == []
  {
    if r != [] {
      assert WithScore(q, r[0].score) == WithScore(r, r[0].score);
    }
    if q != [] {
      assert WithScore(r, q[0].score) == WithScore(q, q[0].score);
    }
  }

  /** Two non-increasing sequences that agree, for every score value, on the
      records with that score are equal. */
  lemma {:induction false} SortedUnique(r: seq<Scored>, q: seq<Scored>)
    requires SortedDesc(r) && SortedDesc(q)
    requires forall c :: WithScore(r, c) == WithScore(q, c)
    ensures r == q
    decreases |r|
  {
    SameEmptiness(r, q);
    if r != [] {
      var a, b := r[0].score, q[0].score;
      var wr, wq := WithScore(r, b), WithScore(q, a);
      assert wr == WithScore(q, b) && wr[0] == q[0];
      assert wq == WithScore(r, a) && wq[0] == r[0];
      WithScoreMember(r, b, q[0]);
      WithScoreMember(q, a, r[0]);
      assert a == b;
      assert r[0] == q[0];
      forall c ensures WithScore(r[1..], c) == WithScore(q[1..], c) {
        var h := if a == c then [r[0]] else [];
        assert WithScore(r, c) == h + WithScore(r[1..], c);
        assert WithScore(q, c) == h + WithScore(q[1..], c);
        assert WithScore(r[1..], c) == (h + WithScore(r[1..], c))[|h|..];
        assert WithScore(q[1..], c) == (h + WithScore(q[1..], c))[|h|..];
      }
      SortedUnique(r[1..], q[1..]);
      assert r == [r[0]] + r[1..] && q == [q[0]] + q[1..];
    }
  }

  /** Every stable sort by descending score gives `SortDesc`: a sequence that
      is non-increasing and keeps, for every score value, the input order of
      the records with that score is `SortDesc(s)`. */
  lemma StableSortIsSortDesc(s: seq<Scored>, r: seq<Scored>)
    requires SortedDesc(r)
    requires forall c :: WithScore(r, c) == WithScore(s, c)
    ensures r == SortDesc(s)
  {
    SortDescSorted(s);
    forall c ensures WithScore(r, c) == WithScore(SortDesc(s), c) {
      SortDescStable(s, c);
    }
    SortedUnique(r, SortDesc(s));
  }

  lemma {:induction false} InsertDescDistinct(t: seq<Scored>, x: Scored)
    requires DistinctIds(t)
    requires forall i :: 0 <= i < |t| ==> t[i].id != x.id
    ensures DistinctIds(InsertDesc(t, x))
    decreases |t|
  {
    if t == [] {
    } else if t[|t| - 1].score < x.score {
      var n := |t| - 1;
      var last := t[n];
      InsertDescDistinct(t[..n], x);
      InsertDescPermutation(t[..n], x);
      var r := InsertDesc(t[..n], x);
      forall i | 0 <= i < |r| ensures r[i].id != last.id {
        assert r[i] in multiset(r);
        if r[i] != x {
          assert r[i] in t[..n];
        }
      }
    }
  }

  /** The sort keeps the ids distinct. */
  lemma {:induction false} SortDescDistinct(s: seq<Scored>)
    requires DistinctIds(s)
    ensures DistinctIds(SortDesc(s))
  {
    if s != [] {
      var n := |s| - 1;
      SortDescDistinct(s[..n]);
      SortDescPermutation(s[..n]);
      var r := SortDesc(s[..n]);
      forall i | 0 <= i < |r| ensures r[i].id != s[n].id {
        assert r[i] in multiset(r);
        assert r[i] in s[..n];
      }
      InsertDescDistinct(r, s[n]);
    }
  }

  /** Where `InsertDesc` puts `x`: at the position `j` below which every score
      is at least that of `x` and from which every score is smaller. */
  lemma {:induction false} InsertDescAt(t: seq<Scored>, x: Scored, j: nat)
    requires j <= |t|
    requires forall m :: j <= m < |t| ==> t[m].score < x.score
    requires j == 0 || x.score <= t[j - 1].score
    ensures InsertDesc(t, x) == t[..j] + [x] + t[j..]
    decreases |t|
  {
    if j < |t| {
      var n := |t| - 1;
      InsertDescAt(t[..n], x, j);
      assert t[..n][..j] == t[..j];
      assert t[j..] == t[..n][j..] + [t[n]];
    } else {
      assert t[..j] == t;
    }
  }

  /** The array contents left by one pass of the insertion sort: `t` with the
      elements from position `j` on shifted up by one and `x` written at `j`. */
  lemma ShiftedInsert(t: seq<Scored>, x: Scored, j: nat, b: seq<Scored>)
    requires j <= |t| && |b| == |t| + 1
    requires forall m :: 0 <= m < j ==> b[m] == t[m]
    requires b[j] == x
    requires forall m :: j < m <= |t| ==> b[m] == t[m - 1]
    requires forall m :: j <= m < |t| ==> t[m].score < x.score
    requires j == 0 || x.score <= t[j - 1].score
    ensures b == InsertDesc(t, x)
  {
    InsertDescAt(t, x, j);
    var inserted := t[..j] + [x] + t[j..];
    forall m | 0 <= m < |b| ensures b[m] == inserted[m] {
      if m < j {
        assert inserted[m] == t[m];
      } else if j < m {
        assert inserted[m] == t[m - 1];
      }
    }
  }

  /** One pass of the insertion sort: `a[..i]` is sorted, and `a[i]` is moved
      down past every element of smaller score. */
  method InsertIntoSorted(a: array<Scored>, i: nat)
    requires i < a.Length
    modifies a
    ensures a[..i + 1] == InsertDesc(old(a[..i]), old(a[i]))
    ensures a[i + 1..] == old(a[i + 1..])
  {
    ghost var t := a[..i];
    var x := a[i];
    var j := i;
    while j > 0 && a[j - 1].score < x.score
      invariant 0 <= j <= i
      invariant forall m :: 0 <= m < j ==> a[m] == t[m]
      invariant forall m :: j < m <= i ==> a[m] == t[m - 1]
      invariant forall m :: i < m < a.Length ==> a[m] == old(a[m])
      invariant forall m :: j <= m < i ==> t[m].score < x.score
    {
      a[j] := a[j - 1];
      j := j - 1;
    }
    a[j] := x;
    ShiftedInsert(t, x, j, a[..i + 1]);
  }

  /** `scores.sort((a, b) => b.score - a.score)`, as an insertion sort in place. */
  method SortDescending(a: array<Scored>)
    modifies a
    ensures a[..] == SortDesc(old(a[..]))
  {
    ghost var input := a[..];
    var i := 0;
    while i < a.Length
      invariant 0 <= i <= a.Length
      invariant a[..i] == SortDesc(input[..i])
      invariant a[i..] == input[i..]
    {
      assert a[i] == input[i];
      assert input[..i + 1][..i] == input[..i];
      InsertIntoSorted(a, i);
      i := i + 1;
    }
    assert a[..] == a[..a.Length] && input == input[..a.Length];
  }
}
