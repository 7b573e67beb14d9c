/** The parts of JavaScript's `Array.prototype` the portal relies on (`filter`, `find`),
    over Dafny sequences, with the facts about them the rest of the model uses. */
module Arrays {
  import opened Wrappers

  /** `s.filter(p)`: the elements of `s` that satisfy `p`, in their order in `s`. */
  function Filter<T>(p: T -> bool, s: seq<T>): (r: seq<T>)
    ensures |r| <= |s|
    ensures forall i :: 0 <= i < |r| ==> r[i] in s && p(r[i])
    ensures forall i :: 0 <= i < |s| && p(s[i]) ==> s[i] in r
  {
    if s == [] then []
    else (if p(s[0]) then [s[0]] else []) + Filter(p, s[1..])
  }

  /** Filtering distributes over concatenation: it never reorders or mixes elements. */
  lemma {:induction false} FilterAppend<T>(p: T -> bool, a: seq<T>, b: seq<T>)
    ensures Filter(p, a + b) == Filter(p, a) + Filter(p, b)
  {
    if a == [] {
      assert a + b == b;
    } else {
      assert (a + b)[1..] == a[1..] + b;
      FilterAppend(p, a[1..], b);
    }
  }

  /** An element that fails `p` can be dropped before filtering. */
  lemma FilterSkip<T>(p: T -> bool, a: seq<T>, x: T, b: seq<T>)
    requires !p(x)
    ensures Filter(p, a + [x] + b) == Filter(p, a + b)
  {
    FilterAppend(p, a + [x], b);
    FilterAppend(p, a, [x]);
    FilterAppend(p, a, b);
    assert Filter(p, [x]) == [] by {
      assert [x][1..] == [];
    }
  }

  /** The indices of the elements of `s` that satisfy `p`, in increasing order. */
  function Positions<T>(p: T -> bool, s: seq<T>): (ix: seq<nat>)
    ensures forall k :: 0 <= k < |ix| ==> ix[k] < |s| && p(s[ix[k]])
    ensures forall k1, k2 :: 0 <= k1 < k2 < |ix| ==> ix[k1] < ix[k2]
    ensures forall i :: 0 <= i < |s| && p(s[i]) ==> i in ix
  {
    if s == [] then []
    else
      var rest := Positions(p, s[..|s| - 1]);
      assert forall i :: 0 <= i < |s| - 1 ==> s[..|s| - 1][i] == s[i];
      if p(s[|s| - 1]) then rest + [|s| - 1] else rest
  }

  /** `Filter(p, s)` is exactly the elements of `s` at `Positions(p, s)`: every element that
      satisfies `p`, each once, in the order of `s`. */
  lemma {:induction false} FilterSelects<T>(p: T -> bool, s: seq<T>)
    ensures |Filter(p, s)| == |Positions(p, s)|
    ensures forall k :: 0 <= k < |Positions(p, s)| ==> Filter(p, s)[k] == s[Positions(p, s)[k]]
  {
    if s != [] {
      var n := |s| - 1;
      FilterSelects(p, s[..n]);
      assert s == s[..n] + [s[n]];
      FilterAppend(p, s[..n], [s[n]]);
      assert Filter(p, [s[n]]) == if p(s[n]) then [s[n]] else [];
      var f, ix := Filter(p, s[..n]), Positions(p, s[..n]);
      forall k | 0 <= k < |ix| ensures Filter(p, s)[k] == s[Positions(p, s)[k]] {
        assert Filter(p, s)[k] == f[k] && Positions(p, s)[k] == ix[k];
        assert s[..n][ix[k]] == s[ix[k]];
      }
    }
  }

  /** `s.find(p)`: the first element of `s` that satisfies `p`, if any. */
  function Find<T>(p: T -> bool, s: seq<T>): (r: Option<T>)
    ensures r.None? <==> forall i :: 0 <= i < |s| ==> !p(s[i])
    ensures r.Some? ==> exists i :: 0 <= i < |s| && s[i] == r.value && p(s[i]) &&
                                   forall j :: 0 <= j < i ==> !p(s[j])
  {
    if s == [] then None
    else if p(s[0]) then Some(s[0])
    else
      var r := Find(p, s[1..]);
      assert r.Some? ==> exists i :: 1 <= i < |s| && s[i] == r.value && p(s[i]) &&
                                     forall j :: 0 <= j < i ==> !p(s[j]);
      r
  }

  /** `find` returns the head of what `filter` returns. */
  lemma {:induction false} FindIsFirstOfFilter<T>(p: T -> bool, s: seq<T>)
    ensures Find(p, s) == if Filter(p, s) == [] then None else Some(Filter(p, s)[0])
  {
    if s != [] && !p(s[0]) {
      FindIsFirstOfFilter(p, s[1..]);
    }
  }
}
