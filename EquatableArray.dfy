/**
 * `EquatableArray<T>`: an immutable array wrapper with value equality, used so
 * that pipeline values compare by contents. The C# struct holds a possibly null
 * array; `default(EquatableArray<T>)` is the null case.
 */
module EquatableArrays {
  import opened Wrappers

  /** The struct's single field: `None` is a null `_array`. */
  datatype EquatableArray<T> = EquatableArray(contents: Option<seq<T>>)

  /** `default(EquatableArray<T>)`: the null array. */
  function Default<T>(): (a: EquatableArray<T>)
    ensures a.contents.None?
  {
    EquatableArray(None)
  }

  /** `Empty`: a zero-length, non-null array. */
  function Empty<T>(): (a: EquatableArray<T>)
    ensures a.contents == Some([])
  {
    EquatableArray(Some([]))
  }

  /** The `T[]` constructor: wraps the array as is. */
  function FromArray<T>(items: seq<T>): (a: EquatableArray<T>)
    ensures AsSpan(a) == items && Count(a) == |items|
  {
    EquatableArray(Some(items))
  }

  /** The `List<T>` constructor: a copy of the list's elements, in order. */
  function FromList<T>(list: seq<T>): (a: EquatableArray<T>)
    ensures AsSpan(a) == list && Count(a) == |list|
    ensures a.contents.Some?
  {
    EquatableArray(Some(list))
  }

  /** `AsSpan()`, and what both enumerators yield: a null array reads as empty. */
  function AsSpan<T>(a: EquatableArray<T>): (items: seq<T>)
    ensures a.contents.None? ==> items == []
    ensures a.contents.Some? ==> items == a.contents.value
  {
    match a.contents
    case None => []
    case Some(items) => items
  }

  /** `Count`: the array's length, 0 when null. */
  function Count<T>(a: EquatableArray<T>): (n: nat)
    ensures n == |AsSpan(a)|
    ensures a.contents.None? ==> n == 0
  {
    match a.contents
    case None => 0
    case Some(items) => |items|
  }

  /** `MemoryExtensions.SequenceEqual`: same length, and equal element by element. */
  function SequenceEqual<T(==)>(xs: seq<T>, ys: seq<T>): (b: bool)
    ensures b <==> xs == ys
  {
    if |xs| != |ys| then false
    else if xs == [] then true
    else
      assert xs == [xs[0]] + xs[1..] && ys == [ys[0]] + ys[1..];
      xs[0] == ys[0] && SequenceEqual(xs[1..], ys[1..])
  }

  /** `Equals(EquatableArray<T>)`: the two spans hold the same elements in the same order. */
  function Equals<T(==)>(a: EquatableArray<T>, b: EquatableArray<T>): (r: bool)
    ensures r <==> AsSpan(a) == AsSpan(b)
  {
    SequenceEqual(AsSpan(a), AsSpan(b))
  }

  /** `operator ==`. */
  function OpEquality<T(==)>(left: EquatableArray<T>, right: EquatableArray<T>): (r: bool)
    ensures r <==> Equals(left, right)
  {
    Equals(left, right)
  }

  /** `operator !=`. */
  function OpInequality<T(==)>(left: EquatableArray<T>, right: EquatableArray<T>): (r: bool)
    ensures r <==> !Equals(left, right)
  {
    !Equals(left, right)
  }

  /** Value equality is an equivalence relation, and `!=` is always the negation of `==`. */
  lemma EqualsIsEquivalence<T>(a: EquatableArray<T>, b: EquatableArray<T>, c: EquatableArray<T>)
    ensures OpEquality(a, a)
    ensures OpEquality(a, b) == OpEquality(b, a)
    ensures OpEquality(a, b) && OpEquality(b, c) ==> OpEquality(a, c)
    ensures OpInequality(a, b) == !OpEquality(a, b)
  {
  }

  /** Two arrays built from lists are equal exactly when the lists are. */
  lemma FromListEquality<T>(xs: seq<T>, ys: seq<T>)
    ensures OpEquality(FromList(xs), FromList(ys)) <==> xs == ys
  {
  }

  /** The null array and `Empty` compare equal, as do arrays of equal contents whatever their origin. */
  lemma DefaultEqualsEmpty<T>()
    ensures OpEquality(Default<T>(), Empty<T>())
    ensures Count(Default<T>()) == Count(Empty<T>()) == 0
  {
  }

  /**
   * `System.HashCode`, kept abstract: the process-wide random seed a `default`
   * instance starts from, the mixing step of `Add`, and the finaliser `ToHashCode`.
   * `add` stands for `Add(item)`, that is, mixing in `item.GetHashCode()`.
   */
  datatype HashCode<-T> = HashCode(seed: int, add: (int, T) -> int, finish: int -> int)

  /** The hasher's state after adding `items` in order, starting from `state`. */
  function Mix<T>(h: HashCode<T>, state: int, items: seq<T>): int
    decreases |items|
  {
    if items == [] then state else Mix(h, h.add(state, items[0]), items[1..])
  }

  /** Mixing a longer prefix is one more `Add` step. */
  lemma {:induction false} MixSnoc<T>(h: HashCode<T>, state: int, items: seq<T>, x: T)
    ensures Mix(h, state, items + [x]) == h.add(Mix(h, state, items), x)
    decreases |items|
  {
    if items != [] {
      assert (items + [x])[1..] == items[1..] + [x];
      MixSnoc(h, h.add(state, items[0]), items[1..], x);
    }
  }

  /** What `GetHashCode` returns: 0 for the null array, otherwise the finalised hash of the elements. */
  function HashOf<T>(a: EquatableArray<T>, h: HashCode<T>): (r: int)
    ensures a.contents.None? ==> r == 0
    ensures a.contents == Some([]) ==> r == h.finish(h.seed)
    ensures a.contents.Some? && a.contents.value != [] ==>
              var items := a.contents.value;
              r == h.finish(h.add(Mix(h, h.seed, items[..|items| - 1]), items[|items| - 1]))
  {
    match a.contents
    case None => 0
    case Some(items) =>
      if items == [] then h.finish(Mix(h, h.seed, items))
      else
        MixSnoc(h, h.seed, items[..|items| - 1], items[|items| - 1]);
        assert items[..|items| - 1] + [items[|items| - 1]] == items;
        h.finish(Mix(h, h.seed, items))
  }

  /** `GetHashCode`: one `Add` per element, in order, then `ToHashCode`. */
  method GetHashCode<T>(a: EquatableArray<T>, h: HashCode<T>) returns (code: int)
    ensures code == HashOf(a, h)
  {
    if a.contents.None? {
      return 0;
    }
    var items := a.contents.value;
    var state := h.seed;
    for i := 0 to |items|
      invariant state == Mix(h, h.seed, items[..i])
    {
      MixSnoc(h, h.seed, items[..i], items[i]);
      assert items[..i + 1] == items[..i] + [items[i]];
      state := h.add(state, items[i]);
    }
    assert items[..|items|] == items;
    code := h.finish(state);
  }

  /** Two non-null arrays that are equal hash alike. */
  lemma EqualNonNullArraysHashAlike<T>(a: EquatableArray<T>, b: EquatableArray<T>, h: HashCode<T>)
    requires a.contents.Some? && b.contents.Some?
    requires Equals(a, b)
    ensures HashOf(a, h) == HashOf(b, h)
  {
  }

  /**
   * As written, `GetHashCode` breaks the rule that equal values hash alike: the null
   * array equals `Empty`, yet hashes to 0 while `Empty` hashes to the finalised seed,
   * which is non-zero for almost every seed.
   */
  lemma DefaultAndEmptyHashApart<T>(h: HashCode<T>)
    requires h.finish(h.seed) != 0
    ensures OpEquality(Default<T>(), Empty<T>())
    ensures HashOf(Default<T>(), h) != HashOf(Empty<T>(), h)
  {
  }

  /** The corrected hash: the elements of `AsSpan()` are hashed whether or not the array is null. */
  function StableHashOf<T>(a: EquatableArray<T>, h: HashCode<T>): int
  {
    h.finish(Mix(h, h.seed, AsSpan(a)))
  }

  /** With the corrected hash, equal arrays always hash alike, the null array included. */
  lemma EqualArraysHashAlike<T>(a: EquatableArray<T>, b: EquatableArray<T>, h: HashCode<T>)
    requires Equals(a, b)
    ensures StableHashOf(a, h) == StableHashOf(b, h)
  {
  }

  /** The corrected hash agrees with the source's wherever the array is not null. */
  lemma StableHashAgreesOnNonNull<T>(a: EquatableArray<T>, h: HashCode<T>)
    requires a.contents.Some?
    ensures StableHashOf(a, h) == HashOf(a, h)
  {
  }
}
