/** Sequence operations that pandas performs on columns and frames:
    `Series.unique()` and `DataFrame.drop_duplicates()` (keep the first
    occurrence of each value, in order of first appearance) and `pd.concat`
    of a list of frames. */
module Seqs {

  /** No value occurs twice. */
  predicate Distinct<T(==)>(s: seq<T>) {
    forall i, j :: 0 <= i < j < |s| ==> s[i] != s[j]
  }

  /** Position of the first occurrence of `x` in `s`. */
  function FirstIndex<T(==)>(s: seq<T>, x: T): (i: nat)
    requires x in s
    ensures i < |s| && s[i] == x
    ensures forall j :: 0 <= j < i ==> s[j] != x
  {
    if s[0] == x then 0 else 1 + FirstIndex(s[1..], x)
  }

  /** `unique()` / `drop_duplicates()`: the distinct values of `s`, each kept at
      its first occurrence. Written as the left-to-right scan that keeps a
      value the first time it is seen. */
  function Unique<T(==)>(s: seq<T>): seq<T>
    decreases |s|
  {
    if s == [] then []
    else
      var u := Unique(s[..|s| - 1]);
      if s[|s| - 1] in u then u else u + [s[|s| - 1]]
  }

  /** `pd.concat` of a list of frames, in list order. */
  function Flatten<T>(ss: seq<seq<T>>): seq<T>
    decreases |ss|
  {
    if ss == [] then [] else Flatten(ss[..|ss| - 1]) + ss[|ss| - 1]
  }

  /** Sum of the lengths of the frames in `ss`. */
  function TotalLength<T>(ss: seq<seq<T>>): nat
    decreases |ss|
  {
    if ss == [] then 0 else TotalLength(ss[..|ss| - 1]) + |ss[|ss| - 1]|
  }

  /** `Unique` keeps exactly the values of `s` and each of them once. */
  lemma {:induction false} UniqueElements<T>(s: seq<T>)
    ensures Distinct(Unique(s))
    ensures forall x :: x in Unique(s) <==> x in s
    ensures |Unique(s)| <= |s|
    decreases |s|
  {
    if s != [] {
      var p := s[..|s| - 1];
      UniqueElements(p);
      assert s == p + [s[|s| - 1]];
    }
  }

  lemma {:induction false} FirstIndexPrefix<T>(s: seq<T>, t: seq<T>, x: T)
    requires x in s
    ensures x in s + t && FirstIndex(s + t, x) == FirstIndex(s, x)
    decreases |s|
  {
    if s[0] != x {
      assert (s + t)[1..] == s[1..] + t;
      FirstIndexPrefix(s[1..], t, x);
    }
  }

  /** `Unique` lists the values in order of first appearance in `s`. */
  lemma {:induction false} UniqueFirstAppearanceOrder<T>(s: seq<T>)
    ensures forall x :: x in Unique(s) ==> x in s
    ensures forall i, j :: 0 <= i < j < |Unique(s)| ==>
      FirstIndex(s, Unique(s)[i]) < FirstIndex(s, Unique(s)[j])
    decreases |s|
  {
    UniqueElements(s);
    if s != [] {
      var p := s[..|s| - 1];
      var x := s[|s| - 1];
      assert s == p + [x];
      UniqueFirstAppearanceOrder(p);
      UniqueElements(p);
      var u := Unique(p);
      forall y | y in u ensures FirstIndex(s, y) == FirstIndex(p, y) {
        FirstIndexPrefix(p, [x], y);
      }
      if x !in u {
        assert x !in p;
        assert FirstIndex(s, x) == |p| by {
          forall j | 0 <= j < |p| ensures s[j] != x {
            assert s[j] == p[j];
          }
        }
      }
    }
  }

  lemma {:induction false} FlattenAppend<T>(a: seq<seq<T>>, b: seq<seq<T>>)
    ensures Flatten(a + b) == Flatten(a) + Flatten(b)
    ensures TotalLength(a + b) == TotalLength(a) + TotalLength(b)
    decreases |b|
  {
    if b == [] {
      assert a + b == a;
    } else {
      var b' := b[..|b| - 1];
      assert (a + b)[..|a + b| - 1] == a + b';
      FlattenAppend(a, b');
    }
  }

  /** `pd.concat` neither drops nor duplicates rows. */
  lemma {:induction false} FlattenLength<T>(ss: seq<seq<T>>)
    ensures |Flatten(ss)| == TotalLength(ss)
    decreases |ss|
  {
    if ss != [] {
      FlattenLength(ss[..|ss| - 1]);
    }
  }

  /** Every row of a concatenation comes from one of the frames. */
  lemma {:induction false} FlattenMember<T>(ss: seq<seq<T>>, x: T)
    requires x in Flatten(ss)
    ensures exists k :: 0 <= k < |ss| && x in ss[k]
    decreases |ss|
  {
    var init := ss[..|ss| - 1];
    if x in Flatten(init) {
      FlattenMember(init, x);
      var k :| 0 <= k < |init| && x in init[k];
      assert ss[k] == init[k];
    } else {
      assert x in ss[|ss| - 1];
    }
  }

  /** Every row of every frame is in the concatenation. */
  lemma {:induction false} FlattenContains<T>(ss: seq<seq<T>>, k: nat, x: T)
    requires k < |ss| && x in ss[k]
    ensures x in Flatten(ss)
    decreases |ss|
  {
    if k < |ss| - 1 {
      FlattenContains(ss[..|ss| - 1], k, x);
    }
  }

  /** When every row of the k-th frame has `values[k]` in some field, every
      row of the concatenation has one of the `values` there. */
  lemma {:induction false} FlattenField<T, F>(ss: seq<seq<T>>, field: T -> F, values: seq<F>)
    requires |ss| == |values|
    requires forall k, i :: 0 <= k < |ss| && 0 <= i < |ss[k]| ==> field(ss[k][i]) == values[k]
    ensures forall x :: x in Flatten(ss) ==> field(x) in values
  {
    forall x | x in Flatten(ss) ensures field(x) in values {
      FlattenMember(ss, x);
      var k :| 0 <= k < |ss| && x in ss[k];
      var i :| 0 <= i < |ss[k]| && ss[k][i] == x;
    }
  }

  /** Concatenating one-row frames keeps the rows one for one. */
  lemma {:induction false} FlattenSingletons<T>(ss: seq<seq<T>>)
    requires forall k :: 0 <= k < |ss| ==> |ss[k]| == 1
    ensures |Flatten(ss)| == |ss|
    ensures forall k :: 0 <= k < |ss| ==> Flatten(ss)[k] == ss[k][0]
    decreases |ss|
  {
    if ss != [] {
      FlattenSingletons(ss[..|ss| - 1]);
    }
  }
}
