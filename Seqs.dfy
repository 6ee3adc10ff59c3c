/** Sequence helpers shared by the models: LINQ `Where`, `Count` and `string.Join`. */
module Seqs {

  /** LINQ `Where`: the elements of `s` that satisfy `p`, in their original order. */
  function Filter<T>(s: seq<T>, p: T -> bool): (r: seq<T>)
    ensures |r| <= |s|
    ensures forall i :: 0 <= i < |r| ==> r[i] in s && p(r[i])
    ensures forall i :: 0 <= i < |s| && p(s[i]) ==> s[i] in r
  {
    if s == [] then [] else (if p(s[0]) then [s[0]] else []) + Filter(s[1..], p)
  }

  /** `Where` keeps order: filtering a longer sequence filters the prefix, then the last element. */
  lemma {:induction false} FilterSnoc<T>(s: seq<T>, x: T, p: T -> bool)
    ensures Filter(s + [x], p) == Filter(s, p) + (if p(x) then [x] else [])
  {
    if s != [] {
      assert (s + [x])[1..] == s[1..] + [x];
      FilterSnoc(s[1..], x, p);
    }
  }

  /** Two `Where`s in a row are one `Where` on the conjunction. */
  lemma {:induction false} FilterFilter<T>(s: seq<T>, p: T -> bool, q: T -> bool, pq: T -> bool)
    requires forall x :: pq(x) == (p(x) && q(x))
    ensures Filter(Filter(s, p), q) == Filter(s, pq)
  {
    if s != [] {
      FilterFilter(s[1..], p, q, pq);
      var rest := Filter(s[1..], p);
      if p(s[0]) {
        assert Filter(s, p) == [s[0]] + rest;
        assert ([s[0]] + rest)[1..] == rest;
        assert Filter(Filter(s, p), q) == (if q(s[0]) then [s[0]] else []) + Filter(rest, q);
      } else {
        assert Filter(s, p) == rest;
      }
      assert Filter(s, pq) == (if pq(s[0]) then [s[0]] else []) + Filter(s[1..], pq);
    }
  }

  /** Some position of `s` satisfies `p`. */
  ghost predicate SomeSatisfies<T>(s: seq<T>, p: T -> bool)
  {
    exists i :: 0 <= i < |s| && p(s[i])
  }

  /** Two different positions of `s` satisfy `p`. */
  ghost predicate TwoSatisfy<T>(s: seq<T>, p: T -> bool)
  {
    exists i, j :: 0 <= i < j < |s| && p(s[i]) && p(s[j])
  }

  /** `Where` keeps at least two elements exactly when two positions of `s` satisfy `p`. */
  lemma {:induction false} FilterHasTwo<T>(s: seq<T>, p: T -> bool)
    ensures |Filter(s, p)| > 1 <==> TwoSatisfy(s, p)
  {
    if s != [] {
      var t := s[1..];
      FilterHasTwo(t, p);
      assert Filter(s, p) == (if p(s[0]) then [s[0]] else []) + Filter(t, p);
      if p(s[0]) {
        TwoSatisfyCons(s, p);
        assert |Filter(t, p)| > 0 <==> SomeSatisfies(t, p) by {
          if |Filter(t, p)| > 0 {
            var j :| 0 <= j < |t| && t[j] == Filter(t, p)[0];
          }
          if SomeSatisfies(t, p) {
            var j :| 0 <= j < |t| && p(t[j]);
            assert t[j] in Filter(t, p);
          }
        }
      } else {
        TwoSatisfyDrop(s, p);
      }
    }
  }

  /** When the head satisfies `p`, two positions do exactly when one in the tail does. */
  lemma TwoSatisfyCons<T>(s: seq<T>, p: T -> bool)
    requires s != [] && p(s[0])
    ensures TwoSatisfy(s, p) <==> SomeSatisfies(s[1..], p)
  {
    var t := s[1..];
    if TwoSatisfy(s, p) {
      var i, j :| 0 <= i < j < |s| && p(s[i]) && p(s[j]);
      assert p(t[j - 1]);
    }
    if SomeSatisfies(t, p) {
      var j :| 0 <= j < |t| && p(t[j]);
      assert p(s[0]) && p(s[j + 1]);
    }
  }

  /** When the head fails `p`, two positions satisfy it exactly when two in the tail do. */
  lemma TwoSatisfyDrop<T>(s: seq<T>, p: T -> bool)
    requires s != [] && !p(s[0])
    ensures TwoSatisfy(s, p) <==> TwoSatisfy(s[1..], p)
  {
    var t := s[1..];
    if TwoSatisfy(s, p) {
      var i, j :| 0 <= i < j < |s| && p(s[i]) && p(s[j]);
      assert p(t[i - 1]) && p(t[j - 1]);
    }
    if TwoSatisfy(t, p) {
      var i, j :| 0 <= i < j < |t| && p(t[i]) && p(t[j]);
      assert p(s[i + 1]) && p(s[j + 1]);
    }
  }

  /** LINQ `Count(x => x == y)`: how many times `y` occurs in `s`. */
  function Occurrences<T(==)>(s: seq<T>, y: T): (n: nat)
    ensures n <= |s|
    ensures n == 0 <==> y !in s
  {
    if s == [] then 0 else (if s[0] == y then 1 else 0) + Occurrences(s[1..], y)
  }

  /** `string.Join(sep, xs)`. */
  function Join(sep: string, xs: seq<string>): string
  {
    if |xs| == 0 then ""
    else if |xs| == 1 then xs[0]
    else xs[0] + sep + Join(sep, xs[1..])
  }

  /** Joining one more element appends the separator and that element. */
  lemma {:induction false} JoinSnoc(sep: string, xs: seq<string>, y: string)
    requires xs != []
    ensures Join(sep, xs + [y]) == Join(sep, xs) + sep + y
  {
    if |xs| == 1 {
      assert xs + [y] == [xs[0], y];
    } else {
      assert (xs + [y])[1..] == xs[1..] + [y];
      JoinSnoc(sep, xs[1..], y);
    }
  }

  /** No element occurs twice. */
  ghost predicate Distinct<T>(s: seq<T>)
  {
    forall i, j :: 0 <= i < j < |s| ==> s[i] != s[j]
  }

  /** Appending an element not yet present keeps a sequence duplicate-free. */
  lemma DistinctSnoc<T>(s: seq<T>, x: T)
    requires Distinct(s) && x !in s
    ensures Distinct(s + [x])
  {
    forall i, j | 0 <= i < j < |s + [x]| ensures (s + [x])[i] != (s + [x])[j] {
      if j < |s| {
        assert (s + [x])[i] == s[i] && (s + [x])[j] == s[j];
      } else {
        assert (s + [x])[i] == s[i] && s[i] in s;
      }
    }
  }

  /** A duplicate-free sequence drawn from a set is no longer than the set. */
  lemma {:induction false} DistinctLengthBound<T>(s: seq<T>, universe: set<T>)
    requires Distinct(s)
    requires forall x :: x in s ==> x in universe
    ensures |s| <= |universe|
  {
    if s != [] {
      var last := s[|s| - 1];
      var rest := s[..|s| - 1];
      assert forall i :: 0 <= i < |rest| ==> rest[i] == s[i] && s[i] != last;
      assert last !in rest;
      DistinctLengthBound(rest, universe - {last});
    }
  }
}
