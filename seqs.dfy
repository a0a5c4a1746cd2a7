// Sequence operations shared by the pages: the `Array.prototype.filter`
// idioms the source uses to delete, keep and count records.

module Seqs {

  datatype Option<T> = None | Some(value: T)

  /** `s.filter(p)`: the elements of `s` that satisfy `p`, in their original order. */
  function Filter<T>(s: seq<T>, p: T -> bool): (r: seq<T>)
    ensures |r| <= |s|
    ensures forall i :: 0 <= i < |r| ==> p(r[i])
  {
    if s == [] then [] else (if p(s[0]) then [s[0]] else []) + Filter(s[1..], p)
  }

  /** An element is kept by the filter exactly when it occurs in `s` and satisfies `p`. */
  lemma {:induction false} FilterMembers<T>(s: seq<T>, p: T -> bool, x: T)
    ensures x in Filter(s, p) <==> x in s && p(x)
  {
    if s != [] {
      FilterMembers(s[1..], p, x);
      assert s == [s[0]] + s[1..];
    }
  }

  /** Filtering distributes over concatenation: the kept elements keep their relative order. */
  lemma {:induction false} FilterAppend<T>(a: seq<T>, b: seq<T>, p: T -> bool)
    ensures Filter(a + b, p) == Filter(a, p) + Filter(b, p)
  {
    if a == [] {
      assert a + b == b;
    } else {
      var head := if p(a[0]) then [a[0]] else [];
      assert (a + b)[0] == a[0] && (a + b)[1..] == a[1..] + b;
      assert Filter(a + b, p) == head + Filter(a[1..] + b, p);
      FilterAppend(a[1..], b, p);
      assert head + (Filter(a[1..], p) + Filter(b, p)) == (head + Filter(a[1..], p)) + Filter(b, p);
    }
  }

  /** Filtering a list grown by one element filters that element on its own. */
  lemma FilterLast<T>(s: seq<T>, p: T -> bool)
    requires |s| > 0
    ensures Filter(s, p) == Filter(s[..|s| - 1], p) + (if p(s[|s| - 1]) then [s[|s| - 1]] else [])
  {
    var x := s[|s| - 1];
    assert s == s[..|s| - 1] + [x];
    FilterAppend(s[..|s| - 1], [x], p);
    assert [x][1..] == [];
  }

  /** Filtering with a predicate that every element satisfies changes nothing. */
  lemma {:induction false} FilterKeepsAll<T>(s: seq<T>, p: T -> bool)
    requires forall i :: 0 <= i < |s| ==> p(s[i])
    ensures Filter(s, p) == s
  {
    if s != [] {
      FilterKeepsAll(s[1..], p);
    }
  }

  /** Filtering with a predicate that no element satisfies keeps nothing. */
  lemma {:induction false} FilterDropsAll<T>(s: seq<T>, p: T -> bool)
    requires forall i :: 0 <= i < |s| ==> !p(s[i])
    ensures Filter(s, p) == []
  {
    if s != [] {
      FilterDropsAll(s[1..], p);
    }
  }

  /** Two predicates that no element satisfies together select at most |s| elements between them. */
  lemma {:induction false} FilterDisjoint<T>(s: seq<T>, p: T -> bool, q: T -> bool)
    requires forall i :: 0 <= i < |s| ==> !(p(s[i]) && q(s[i]))
    ensures |Filter(s, p)| + |Filter(s, q)| <= |s|
  {
    if s != [] {
      FilterDisjoint(s[1..], p, q);
    }
  }

  /** When `q` is the negation of `p` on `s`, the two filters split `s` between them. */
  lemma {:induction false} FilterComplement<T>(s: seq<T>, p: T -> bool, q: T -> bool)
    requires forall i :: 0 <= i < |s| ==> (q(s[i]) <==> !p(s[i]))
    ensures |Filter(s, p)| + |Filter(s, q)| == |s|
  {
    if s != [] {
      FilterComplement(s[1..], p, q);
    }
  }

  /** A weaker predicate keeps at least as many elements. */
  lemma {:induction false} FilterMonotone<T>(s: seq<T>, p: T -> bool, q: T -> bool)
    requires forall i :: 0 <= i < |s| ==> (p(s[i]) ==> q(s[i]))
    ensures |Filter(s, p)| <= |Filter(s, q)|
  {
    if s != [] {
      FilterMonotone(s[1..], p, q);
    }
  }

  /** `s.filter((_, i) => i !== idx)`: drop the element at `idx`; an index outside `s` drops nothing. */
  function RemoveAt<T>(s: seq<T>, idx: int): (r: seq<T>)
    ensures 0 <= idx < |s| ==> |r| == |s| - 1
    ensures 0 <= idx < |s| ==> forall j :: 0 <= j < idx ==> r[j] == s[j]
    ensures 0 <= idx < |s| ==> forall j :: idx <= j < |r| ==> r[j] == s[j + 1]
    ensures !(0 <= idx < |s|) ==> r == s
  {
    if 0 <= idx < |s| then s[..idx] + s[idx + 1..] else s
  }

  /** Removing an element takes exactly one occurrence of it out of the multiset of elements. */
  lemma RemoveAtMultiset<T>(s: seq<T>, idx: int)
    requires 0 <= idx < |s|
    ensures multiset(RemoveAt(s, idx)) + multiset{s[idx]} == multiset(s)
  {
    assert s == s[..idx] + [s[idx]] + s[idx + 1..];
  }

  /** `s.map((e, i) => i === idx ? x : e)`: replace the element at `idx`; an index outside `s` changes nothing. */
  function ReplaceAt<T>(s: seq<T>, idx: int, x: T): (r: seq<T>)
    ensures |r| == |s|
    ensures forall j :: 0 <= j < |s| && j != idx ==> r[j] == s[j]
    ensures 0 <= idx < |s| ==> r[idx] == x
  {
    if 0 <= idx < |s| then s[idx := x] else s
  }

  /** The position in `s` of the `n`-th (from 0) element that satisfies `p`. */
  function NthMatchIndex<T>(s: seq<T>, p: T -> bool, n: nat): (j: nat)
    requires n < |Filter(s, p)|
    ensures j < |s| && p(s[j])
    ensures |Filter(s[..j], p)| == n
    decreases |s|
  {
    if p(s[0]) && n == 0 then
      assert s[..0] == [];
      0
    else
      var m := if p(s[0]) then n - 1 else n;
      var k := NthMatchIndex(s[1..], p, m);
      FilterPrefixStep(s, k, p);
      k + 1
  }

  lemma FilterPrefixStep<T>(s: seq<T>, k: nat, p: T -> bool)
    requires k < |s|
    ensures |Filter(s[..k + 1], p)| == (if p(s[0]) then 1 else 0) + |Filter(s[1..][..k], p)|
  {
    assert s[..k + 1] == [s[0]] + s[1..][..k];
    FilterAppend([s[0]], s[1..][..k], p);
  }

  /** Removing the element at `j` removes the corresponding element of the filtered view, when `p` holds of it,
      and leaves the elements that fail `p` untouched. */
  lemma {:induction false} RemoveAtFilter<T>(s: seq<T>, j: nat, p: T -> bool)
    requires j < |s|
    ensures p(s[j]) ==> Filter(RemoveAt(s, j), p) == RemoveAt(Filter(s, p), |Filter(s[..j], p)|)
    ensures !p(s[j]) ==> Filter(RemoveAt(s, j), p) == Filter(s, p)
  {
    FilterWithout(s, j, p);
    FilterAround(s, j, p);
    if p(s[j]) {
      SpliceOut(Filter(s[..j], p), s[j], Filter(s[j + 1..], p));
    }
  }

  lemma {:induction false} FilterWithout<T>(s: seq<T>, j: nat, p: T -> bool)
    requires j < |s|
    ensures Filter(RemoveAt(s, j), p) == Filter(s[..j], p) + Filter(s[j + 1..], p)
  {
    assert RemoveAt(s, j) == s[..j] + s[j + 1..];
    FilterAppend(s[..j], s[j + 1..], p);
  }

  lemma {:induction false} FilterAround<T>(s: seq<T>, j: nat, p: T -> bool)
    requires j < |s|
    ensures p(s[j]) ==> Filter(s, p) == Filter(s[..j], p) + [s[j]] + Filter(s[j + 1..], p)
    ensures !p(s[j]) ==> Filter(s, p) == Filter(s[..j], p) + Filter(s[j + 1..], p)
  {
    var pre, post := Filter(s[..j], p), Filter(s[j + 1..], p);
    assert s == s[..j] + ([s[j]] + s[j + 1..]);
    FilterAppend(s[..j], [s[j]] + s[j + 1..], p);
    FilterAppend([s[j]], s[j + 1..], p);
    assert Filter([s[j]], p) == if p(s[j]) then [s[j]] else [] by {
      assert [s[j]][1..] == [];
    }
    if p(s[j]) {
      assert pre + ([s[j]] + post) == pre + [s[j]] + post;
    } else {
      assert [] + post == post;
    }
  }

  lemma {:induction false} SpliceOut<T>(pre: seq<T>, x: T, post: seq<T>)
    ensures RemoveAt(pre + [x] + post, |pre|) == pre + post
  {
    var f := pre + [x] + post;
    assert f[..|pre|] == pre;
    assert f[|pre| + 1..] == post;
  }
}
