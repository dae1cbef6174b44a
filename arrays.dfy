/**
 * The array utilities: in-place concatenation onto a target array, a polyfill of
 * `Array.prototype.flat` with a depth, and resizing to a fixed length.
 */
module Arrays {
  import opened Wrappers
  import opened JsValues

  // ---------------------------------------------------------------------------
  // inPlaceConcat
  // ---------------------------------------------------------------------------

  /** A JavaScript array that is grown in place. */
  class JsArray<T> {
    var elements: seq<T>

    constructor (init: seq<T>)
      ensures elements == init
    {
      elements := init;
    }

    /** `Array.prototype.push(...items)`: appends the items and returns the new length. */
    method Push(items: seq<T>) returns (newLength: nat)
      modifies this
      ensures elements == old(elements) + items
      ensures newLength == |elements|
    {
      elements := elements + items;
      newLength := |elements|;
    }
  }

  /** A number that `Math.max` can return: `-Infinity` for no arguments, otherwise a finite length. */
  datatype Extended = NegativeInfinity | Finite(value: int)

  /** `Math.max(...xs)` over whole numbers. */
  function MathMax(xs: seq<int>): (r: Extended)
    ensures r == NegativeInfinity <==> xs == []
    ensures r.Finite? ==> r.value in xs && forall i :: 0 <= i < |xs| ==> xs[i] <= r.value
  {
    if xs == [] then NegativeInfinity
    else
      match MathMax(xs[..|xs| - 1])
      case NegativeInfinity => Finite(xs[|xs| - 1])
      case Finite(m) => Finite(if m < xs[|xs| - 1] then xs[|xs| - 1] else m)
  }

  /** The arrays joined end to end, in the order given. */
  function Concat<T>(arrays: seq<seq<T>>): seq<T>
  {
    if arrays == [] then [] else Concat(arrays[..|arrays| - 1]) + arrays[|arrays| - 1]
  }

  /**
   * `inPlaceConcat(target, ...arrays)`: pushes each array onto `target` in turn and
   * returns `Math.max` of the lengths the pushes reported. Since every push reports
   * the length reached so far, that is the final length of `target`, or `-Infinity`
   * when no arrays were given.
   */
  method InPlaceConcat<T>(target: JsArray<T>, arrays: seq<seq<T>>) returns (r: Extended)
    modifies target
    ensures target.elements == old(target.elements) + Concat(arrays)
    ensures r == if arrays == [] then NegativeInfinity else Finite(|target.elements|)
  {
    var lengths: seq<int> := [];
    for i := 0 to |arrays|
      invariant |lengths| == i
      invariant target.elements == old(target.elements) + Concat(arrays[..i])
      invariant forall j :: 0 <= j < i ==> lengths[j] <= |target.elements|
      invariant i > 0 ==> lengths[i - 1] == |target.elements|
    {
      ghost var before := target.elements;
      var newLength := target.Push(arrays[i]);
      assert arrays[..i + 1][..i] == arrays[..i];
      assert target.elements == before + arrays[i];
      lengths := lengths + [newLength];
    }
    assert arrays[..|arrays|] == arrays;
    r := MathMax(lengths);
    assert r.Finite? ==> r.value == |target.elements|;
  }

  // ---------------------------------------------------------------------------
  // flattenArray
  // ---------------------------------------------------------------------------

  /**
   * `flattenArray(arr, depth = 1)`: a non-array yields `[]`; a positive depth folds
   * the items from left to right, splicing in each nested array flattened with one
   * depth less; any other depth yields a copy of the items.
   */
  function FlattenArray(arr: JsValue, depth: int := 1): (r: seq<JsValue>)
    decreases arr, 1
    ensures !arr.Arr? ==> r == []
    ensures arr.Arr? && depth <= 0 ==> r == arr.items
  {
    if !arr.Arr? then []
    else if depth > 0 then FlattenItems(arr.items, depth)
    else arr.items
  }

  /** The `reduce` of a positive-depth flatten: the fold over every item but the last, then the last. */
  function FlattenItems(items: seq<JsValue>, depth: int): seq<JsValue>
    decreases items, 0
  {
    if items == [] then []
    else FlattenItems(items[..|items| - 1], depth) + Piece(items[|items| - 1], depth)
  }

  /** What the `reduce` callback appends to the accumulator for one item. */
  function Piece(val: JsValue, depth: int): seq<JsValue>
    decreases val, 2
  {
    if val.Arr? then FlattenArray(val, depth - 1) else [val]
  }

  /** The nesting depth of a value: 0 for a non-array, one more than its deepest item for an array. */
  function Depth(v: JsValue): nat
  {
    if v.Arr? then 1 + DepthOf(v.items) else 0
  }

  /** The nesting depth of the deepest item. */
  function DepthOf(items: seq<JsValue>): nat
  {
    if items == [] then 0
    else
      var d, e := DepthOf(items[..|items| - 1]), Depth(items[|items| - 1]);
      if d < e then e else d
  }

  /** Every non-array value nested anywhere in the items, left to right. */
  function Leaves(items: seq<JsValue>): seq<JsValue>
  {
    if items == [] then []
    else
      var last := items[|items| - 1];
      Leaves(items[..|items| - 1]) + (if last.Arr? then Leaves(last.items) else [last])
  }

  function Max0(x: int): nat { if x < 0 then 0 else x }

  lemma {:induction false} LeavesOfConcat(a: seq<JsValue>, b: seq<JsValue>)
    ensures Leaves(a + b) == Leaves(a) + Leaves(b)
    decreases |b|
  {
    if b != [] {
      var last := b[|b| - 1];
      assert (a + b)[..|a + b| - 1] == a + b[..|b| - 1];
      LeavesOfConcat(a, b[..|b| - 1]);
    } else {
      assert a + b == a;
    }
  }

  lemma {:induction false} DepthOfConcat(a: seq<JsValue>, b: seq<JsValue>)
    ensures DepthOf(a + b) == if DepthOf(a) < DepthOf(b) then DepthOf(b) else DepthOf(a)
    decreases |b|
  {
    if b != [] {
      assert (a + b)[..|a + b| - 1] == a + b[..|b| - 1];
      DepthOfConcat(a, b[..|b| - 1]);
    } else {
      assert a + b == a;
    }
  }

  /** Flattening keeps every leaf, in order, and adds none. */
  lemma {:induction false} FlattenKeepsLeaves(arr: JsValue, depth: int)
    requires arr.Arr?
    ensures Leaves(FlattenArray(arr, depth)) == Leaves(arr.items)
    decreases arr, 1
  {
    if depth > 0 {
      FlattenItemsKeepsLeaves(arr.items, depth);
    }
  }

  lemma {:induction false} FlattenItemsKeepsLeaves(items: seq<JsValue>, depth: int)
    ensures Leaves(FlattenItems(items, depth)) == Leaves(items)
    decreases items, 0
  {
    if items != [] {
      var init, last := items[..|items| - 1], items[|items| - 1];
      FlattenItemsKeepsLeaves(init, depth);
      if last.Arr? {
        FlattenKeepsLeaves(last, depth - 1);
      } else {
        assert [last][..0] == [];
      }
      LeavesOfConcat(FlattenItems(init, depth), Piece(last, depth));
    }
  }

  /** Each unit of depth removes one level of nesting, down to a flat result. */
  lemma {:induction false} FlattenRemovesLevels(arr: JsValue, depth: int)
    requires arr.Arr?
    ensures DepthOf(FlattenArray(arr, depth)) == Max0(DepthOf(arr.items) - Max0(depth))
    decreases arr, 1
  {
    if depth > 0 {
      FlattenItemsRemovesLevels(arr.items, depth);
    }
  }

  lemma {:induction false} FlattenItemsRemovesLevels(items: seq<JsValue>, depth: int)
    requires depth > 0
    ensures DepthOf(FlattenItems(items, depth)) == Max0(DepthOf(items) - depth)
    decreases items, 0
  {
    if items != [] {
      var init, last := items[..|items| - 1], items[|items| - 1];
      FlattenItemsRemovesLevels(init, depth);
      PieceRemovesLevels(last, depth);
      DepthOfConcat(FlattenItems(init, depth), Piece(last, depth));
      MaxLessDepth(DepthOf(init), Depth(last), depth);
    }
  }

  /** The part one item contributes to a positive-depth flatten loses `depth` levels. */
  lemma PieceRemovesLevels(val: JsValue, depth: int)
    requires depth > 0
    ensures DepthOf(Piece(val, depth)) == Max0(Depth(val) - depth)
    decreases val, 2
  {
    if val.Arr? {
      FlattenRemovesLevels(val, depth - 1);
    } else {
      assert [val][..0] == [];
    }
  }

  lemma MaxLessDepth(a: nat, b: nat, depth: int)
    requires depth > 0
    ensures Max0((if a < b then b else a) - depth)
            == if Max0(a - depth) < Max0(b - depth) then Max0(b - depth) else Max0(a - depth)
  {
  }

  lemma {:induction false} DepthZeroIsFlat(items: seq<JsValue>)
    ensures DepthOf(items) == 0 <==> forall i :: 0 <= i < |items| ==> !items[i].Arr?
  {
    if items != [] {
      DepthZeroIsFlat(items[..|items| - 1]);
      assert forall i :: 0 <= i < |items| - 1 ==> items[..|items| - 1][i] == items[i];
    }
  }

  /** A depth at least as large as the nesting yields an array with no nested arrays left. */
  lemma FlattenFully(arr: JsValue, depth: int)
    requires arr.Arr? && depth >= DepthOf(arr.items)
    ensures forall i :: 0 <= i < |FlattenArray(arr, depth)| ==> !FlattenArray(arr, depth)[i].Arr?
    ensures FlattenArray(arr, depth) == Leaves(arr.items)
  {
    FlattenRemovesLevels(arr, depth);
    DepthZeroIsFlat(FlattenArray(arr, depth));
    FlattenKeepsLeaves(arr, depth);
    FlatHasItselfAsLeaves(FlattenArray(arr, depth));
  }

  lemma {:induction false} FlatHasItselfAsLeaves(items: seq<JsValue>)
    requires forall i :: 0 <= i < |items| ==> !items[i].Arr?
    ensures Leaves(items) == items
  {
    if items != [] {
      var init := items[..|items| - 1];
      assert forall i :: 0 <= i < |init| ==> init[i] == items[i];
      FlatHasItselfAsLeaves(init);
      assert init + [items[|items| - 1]] == items;
    }
  }

  /** The cases of the array test suite. */
  lemma FlattenExamples()
    ensures FlattenArray(Num(123.0)) == []
    ensures var arr := [Str("apple"), Arr([Str("orange"), Str("lemon")])];
            FlattenArray(Arr(arr), -1) == arr
    ensures var nested := Arr([Str("apple"), Arr([Str("orange"), Str("lemon"), Arr([Str("grapefruit")])])]);
            FlattenArray(nested) == [Str("apple"), Str("orange"), Str("lemon"), Arr([Str("grapefruit")])]
            && FlattenArray(nested, 10) == [Str("apple"), Str("orange"), Str("lemon"), Str("grapefruit")]
  {
    var inner := [Str("orange"), Str("lemon"), Arr([Str("grapefruit")])];
    var items := [Str("apple"), Arr(inner)];
    assert items[..1] == [Str("apple")];
    assert inner[..2][..1] == [Str("orange")];
    assert inner[..2] == [Str("orange"), Str("lemon")];
    assert inner[..1] == [Str("orange")];
    assert [Str("grapefruit")][..0] == [];
  }

  // ---------------------------------------------------------------------------
  // arrayEnsureSize
  // ---------------------------------------------------------------------------

  /** The error `arrayEnsureSize` throws. */
  datatype SizeError = NegativeSize

  /** `new Array(n).fill(value)`. */
  function Filled<T>(n: nat, value: T): (r: seq<T>)
    ensures |r| == n && forall i :: 0 <= i < n ==> r[i] == value
  {
    if n == 0 then [] else Filled(n - 1, value) + [value]
  }

  /**
   * `arrayEnsureSize(arr, size, fillValue)`: a new array of exactly `size` entries,
   * the first ones taken from `arr` and any further ones equal to `fillValue`;
   * a negative size throws.
   */
  function ArrayEnsureSize<T>(arr: seq<T>, size: int, fillValue: T): (r: Result<seq<T>, SizeError>)
    ensures r.Err? <==> size < 0
    ensures r.Ok? ==> |r.value| == size
    ensures r.Ok? ==> forall i :: 0 <= i < |r.value| && i < |arr| ==> r.value[i] == arr[i]
    ensures r.Ok? ==> forall i :: |arr| <= i < |r.value| ==> r.value[i] == fillValue
  {
    if size < 0 then Err(NegativeSize)
    else if |arr| < size then Ok(arr + Filled(size - |arr|, fillValue))
    else if |arr| > size then Ok(arr[..size])
    else Ok(arr)
  }

  /** Resizing is idempotent, and resizing to the current length gives the same entries back. */
  lemma EnsureSizeIdempotent<T>(arr: seq<T>, size: nat, fillValue: T)
    ensures ArrayEnsureSize(ArrayEnsureSize(arr, size, fillValue).value, size, fillValue)
            == ArrayEnsureSize(arr, size, fillValue)
    ensures ArrayEnsureSize(arr, |arr|, fillValue) == Ok(arr)
  {
  }
}
