/** The shape shared by `get_matches` and `load_suggestions`: walk a vector
    front to back and `push_back` every element that passes a test. */
module Filtering {

  /** The elements of `s` that satisfy `p`, in their original order, duplicates kept. */
  function Filter<T>(p: T -> bool, s: seq<T>): (r: seq<T>)
    ensures |r| <= |s|
  {
    if s == [] then []
    else Filter(p, s[..|s| - 1]) + (if p(s[|s| - 1]) then [s[|s| - 1]] else [])
  }

  /** The indices of the elements of `s` that satisfy `p`, in increasing order. */
  function Positions<T>(p: T -> bool, s: seq<T>): (idx: seq<nat>)
    ensures forall k :: 0 <= k < |idx| ==> idx[k] < |s|
  {
    if s == [] then []
    else Positions(p, s[..|s| - 1]) + (if p(s[|s| - 1]) then [|s| - 1] else [])
  }

  /** `r` lists the elements of `s` at the strictly increasing indices `idx`. */
  ghost predicate PicksAt<T>(r: seq<T>, s: seq<T>, idx: seq<nat>) {
    && |idx| == |r|
    && (forall k :: 0 <= k < |idx| ==> idx[k] < |s| && r[k] == s[idx[k]])
    && (forall k, l :: 0 <= k < l < |idx| ==> idx[k] < idx[l])
  }

  /** `Filter` keeps exactly the elements satisfying `p`: it picks `s` at the
      increasing positions `Positions(p, s)`, and a position is among them
      exactly when its element satisfies `p`. */
  lemma FilterExactly<T>(p: T -> bool, s: seq<T>)
    ensures PicksAt(Filter(p, s), s, Positions(p, s))
    ensures forall j :: 0 <= j < |s| ==> (p(s[j]) <==> j in Positions(p, s))
  {
    FilterPicks(p, s);
    PositionsExactly(p, s);
  }

  /** `Filter` picks `s` at the increasing positions `Positions(p, s)`. */
  lemma {:induction false} FilterPicks<T>(p: T -> bool, s: seq<T>)
    ensures PicksAt(Filter(p, s), s, Positions(p, s))
  {
    if s != [] {
      var init := s[..|s| - 1];
      FilterPicks(p, init);
      var idx0 := Positions(p, init);
      assert forall k :: 0 <= k < |idx0| ==> idx0[k] < |init| && s[idx0[k]] == init[idx0[k]];
    }
  }

  /** A position is among `Positions(p, s)` exactly when its element satisfies `p`. */
  lemma {:induction false} PositionsExactly<T>(p: T -> bool, s: seq<T>)
    ensures forall j :: 0 <= j < |s| ==> (p(s[j]) <==> j in Positions(p, s))
  {
    if s != [] {
      var init := s[..|s| - 1];
      PositionsExactly(p, init);
      var idx0 := Positions(p, init);
      assert Positions(p, s) == idx0 + (if p(s[|s| - 1]) then [|s| - 1] else []);
      forall j | 0 <= j < |s|
        ensures p(s[j]) <==> j in Positions(p, s)
      {
        if j < |s| - 1 {
          assert s[j] == init[j];
          assert |s| - 1 !in idx0;
        }
      }
    }
  }

  /** Every element the filter keeps satisfies the test and comes from `s`. */
  lemma {:induction false} FilterMembers<T>(p: T -> bool, s: seq<T>, x: T)
    ensures x in Filter(p, s) <==> x in s && p(x)
  {
    if s != [] {
      FilterMembers(p, s[..|s| - 1], x);
      assert s == s[..|s| - 1] + [s[|s| - 1]];
    }
  }

  /** Everything the filter keeps is an element of `s` that passes the test. */
  lemma FilterKeeps<T>(p: T -> bool, s: seq<T>)
    ensures forall x :: x in Filter(p, s) ==> x in s && p(x)
  {
    forall x | x in Filter(p, s)
      ensures x in s && p(x)
    {
      FilterMembers(p, s, x);
    }
  }

  /** A test every element passes keeps the whole sequence. */
  lemma {:induction false} FilterAll<T>(p: T -> bool, s: seq<T>)
    requires forall k :: 0 <= k < |s| ==> p(s[k])
    ensures Filter(p, s) == s
  {
    if s != [] {
      FilterAll(p, s[..|s| - 1]);
    }
  }

  /** Filtering with a stronger test after a weaker one is filtering with the
      stronger test alone. */
  lemma {:induction false} FilterNarrow<T>(weak: T -> bool, strong: T -> bool, s: seq<T>)
    requires forall x :: strong(x) ==> weak(x)
    ensures Filter(strong, Filter(weak, s)) == Filter(strong, s)
  {
    if s != [] {
      var init, last := s[..|s| - 1], s[|s| - 1];
      FilterNarrow(weak, strong, init);
      FilterAppend(strong, Filter(weak, init), if weak(last) then [last] else []);
    }
  }

  /** Filtering distributes over concatenation. */
  lemma {:induction false} FilterAppend<T>(p: T -> bool, a: seq<T>, b: seq<T>)
    ensures Filter(p, a + b) == Filter(p, a) + Filter(p, b)
    decreases |b|
  {
    if b == [] {
      assert a + b == a;
    } else {
      FilterAppend(p, a, b[..|b| - 1]);
      assert (a + b)[..|a + b| - 1] == a + b[..|b| - 1];
    }
  }
}
