/** Python's list comprehensions `[x for x in s if p(x)]` and `[f(x) for x in s]`,
    shared by the schedule, the library and the download queue. */
module Seqs {
  import opened Wrappers

  /** The elements of `s` that satisfy `p`, in their original order. Defined on
      the prefix, so that a left-to-right loop can keep `Filter(s[..i], p)`. */
  function Filter<T>(s: seq<T>, p: T -> bool): (r: seq<T>)
    ensures |r| <= |s|
    ensures forall i :: 0 <= i < |r| ==> r[i] in s && p(r[i])
    ensures forall i :: 0 <= i < |s| && p(s[i]) ==> s[i] in r
  {
    if s == [] then []
    else Filter(s[..|s| - 1], p) + (if p(s[|s| - 1]) then [s[|s| - 1]] else [])
  }

  /** One more element: the filter of a longer prefix extends the filter of
      the shorter one. */
  lemma FilterSnoc<T>(s: seq<T>, i: nat, p: T -> bool)
    requires i < |s|
    ensures Filter(s[..i + 1], p) == Filter(s[..i], p) + (if p(s[i]) then [s[i]] else [])
  {
    assert s[..i + 1][..i] == s[..i];
  }

  /** The filter of a concatenation is the concatenation of the filters. */
  lemma {:induction false} FilterAppend<T>(a: seq<T>, b: seq<T>, p: T -> bool)
    ensures Filter(a + b, p) == Filter(a, p) + Filter(b, p)
    decreases |b|
  {
    if b == [] {
      assert a + b == a;
    } else {
      var init, last := b[..|b| - 1], b[|b| - 1];
      FilterAppend(a, init, p);
      assert (a + b)[..|a + b| - 1] == a + init;
      assert (a + b)[|a + b| - 1] == last;
    }
  }

  /** The filter keeps every occurrence of a kept value and drops every
      occurrence of a rejected one. */
  lemma {:induction false} FilterCount<T>(s: seq<T>, p: T -> bool, x: T)
    ensures multiset(Filter(s, p))[x] == if p(x) then multiset(s)[x] else 0
  {
    if s != [] {
      var init, last := s[..|s| - 1], s[|s| - 1];
      FilterCount(init, p, x);
      assert s == init + [last];
    }
  }

  /** When every element passes, the filter is the identity. */
  lemma {:induction false} FilterAll<T>(s: seq<T>, p: T -> bool)
    requires forall i :: 0 <= i < |s| ==> p(s[i])
    ensures Filter(s, p) == s
  {
    if s != [] {
      var init, last := s[..|s| - 1], s[|s| - 1];
      forall i | 0 <= i < |init| ensures p(init[i]) {
        assert init[i] == s[i];
      }
      FilterAll(init, p);
      assert p(last);
      calc {
        Filter(s, p);
        Filter(init, p) + [last];
        init + [last];
        s;
      }
    }
  }

  /** `idx` lists strictly increasing positions of `s` holding the elements
      of `sub`, in order. */
  ghost predicate Embeds<T>(s: seq<T>, sub: seq<T>, idx: seq<nat>) {
    && |idx| == |sub|
    && (forall k :: 0 <= k < |idx| ==> idx[k] < |s| && s[idx[k]] == sub[k])
    && (forall k, l :: 0 <= k < l < |idx| ==> idx[k] < idx[l])
  }

  /** An embedding survives appending to `s` alone, or to both `s` and `sub`. */
  lemma EmbedsSnoc<T>(s: seq<T>, sub: seq<T>, idx: seq<nat>, x: T)
    requires Embeds(s, sub, idx)
    ensures Embeds(s + [x], sub, idx)
    ensures Embeds(s + [x], sub + [x], idx + [|s|])
  {
    var idx' := idx + [|s|];
    assert forall k :: 0 <= k < |idx'| ==> idx'[k] < |s| + 1 && (s + [x])[idx'[k]] == (sub + [x])[k];
  }

  /** The filter is a subsequence: its elements come from strictly increasing
      positions of `s`. */
  lemma {:induction false} FilterIsSubsequence<T>(s: seq<T>, p: T -> bool)
    ensures exists idx: seq<nat> :: Embeds(s, Filter(s, p), idx)
  {
    if s == [] {
      assert Embeds(s, Filter(s, p), []);
    } else {
      var init, last := s[..|s| - 1], s[|s| - 1];
      assert s == init + [last];
      FilterIsSubsequence(init, p);
      var idx: seq<nat> :| Embeds(init, Filter(init, p), idx);
      EmbedsSnoc(init, Filter(init, p), idx, last);
      if p(last) {
        assert Embeds(s, Filter(s, p), idx + [|init|]);
      } else {
        assert Embeds(s, Filter(s, p), idx);
      }
    }
  }

  /** Python's `[f(x) for x in s]` when `f` may raise: every element mapped in
      order, or the exception of the first element that fails. */
  function MapResult<A, B>(items: seq<A>, f: A -> Result<B>): (r: Result<seq<B>>)
    ensures r.Ok? <==> forall k :: 0 <= k < |items| ==> f(items[k]).Ok?
    ensures r.Ok? ==>
              && |r.value| == |items|
              && forall k :: 0 <= k < |items| ==> r.value[k] == f(items[k]).value
  {
    if items == [] then Ok([])
    else
      var init :- MapResult(items[..|items| - 1], f);
      var last :- f(items[|items| - 1]);
      Ok(init + [last])
  }

  /** A failing comprehension raises the exception of its first failing
      element. */
  lemma {:induction false} MapResultFirstError<A, B>(items: seq<A>, f: A -> Result<B>)
    requires MapResult(items, f).Err?
    ensures exists k :: 0 <= k < |items| && f(items[k]).Err? && f(items[k]).error == MapResult(items, f).error
                        && forall j :: 0 <= j < k ==> f(items[j]).Ok?
  {
    var init := items[..|items| - 1];
    if MapResult(init, f).Err? {
      MapResultFirstError(init, f);
      var k :| 0 <= k < |init| && f(init[k]).Err? && f(init[k]).error == MapResult(init, f).error
                && forall j :: 0 <= j < k ==> f(init[j]).Ok?;
      assert items[k] == init[k];
      assert forall j :: 0 <= j < k ==> items[j] == init[j];
    } else {
      var k := |items| - 1;
      assert forall j :: 0 <= j < k ==> items[j] == init[j];
    }
  }
}
