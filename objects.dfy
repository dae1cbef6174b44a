/**
 * The object utilities: a recursive type comparison, a layout check built on it,
 * a deep assignment of source objects onto a target, and `TypedMap`, a string-keyed
 * map meant to hold values of a single type.
 */
module Objects {
  import opened Wrappers
  import opened JsValues

  /** The `TypeError`s the comparison can run into. */
  datatype ObjectError =
    | LengthOfNull      // `second.length` read on `null` when `first` is an array
    | EveryNotCallable  // `greater.every(...)` on an object that is not an array
    | PrototypeOfNull   // `Object.getPrototypeOf(null)`

  /** `a === b`. Values are compared structurally here, which for the comparisons below gives the outcome reference identity gives. */
  predicate StrictEquals(a: JsValue, b: JsValue)
  {
    a == b && !a.NaN?
  }

  /** `Object.getPrototypeOf(v).constructor` for an array or an object, by name. */
  function ConstructorOf(v: JsValue): string
  {
    if v.Obj? then v.ctor else "Array"
  }

  // ---------------------------------------------------------------------------
  // objectsAreSameType
  // ---------------------------------------------------------------------------

  /** A size that every array item is below, so that comparisons of items terminate. */
  function Size(v: JsValue): nat
  {
    if v.Arr? then 1 + SizeOfItems(v.items) else 1
  }

  function SizeOfItems(items: seq<JsValue>): nat
  {
    if items == [] then 0 else SizeOfItems(items[..|items| - 1]) + Size(items[|items| - 1])
  }

  lemma {:induction false} ItemIsSmaller(items: seq<JsValue>, i: nat)
    requires i < |items|
    ensures 1 <= Size(items[i]) <= SizeOfItems(items)
  {
    if i < |items| - 1 {
      ItemIsSmaller(items[..|items| - 1], i);
    }
  }

  function Max(a: nat, b: nat): nat { if a < b then b else a }

  /**
   * `objectsAreSameType(first, second)`. Different `typeof` strings give false and
   * strictly equal values give true. Two arrays are compared entry by entry: every
   * entry of the longer one (of `second` when the lengths are equal) against the
   * entry of the shorter one at the same index taken modulo its length, or against
   * `undefined` when the shorter one is empty. Other objects are compared by their
   * prototypes' constructors. Any two values of another `typeof` are the same type.
   */
  function SameType(first: JsValue, second: JsValue): (r: Result<bool, ObjectError>)
    ensures TypeOf(first) != TypeOf(second) ==> r == Ok(false)
    ensures StrictEquals(first, second) ==> r == Ok(true)
    ensures TypeOf(first) == TypeOf(second) && TypeOf(first) != "object" ==> r == Ok(true)
    ensures first.Obj? && (second.Obj? || second.Arr?) ==> r == Ok(ConstructorOf(first) == ConstructorOf(second))
    ensures r.Err? ==> first.Null? || second.Null? || first.Arr?
    decreases Max(Size(first), Size(second)), 1, 0
  {
    if TypeOf(first) != TypeOf(second) then Ok(false)
    else if StrictEquals(first, second) then Ok(true)
    else if TypeOf(first) == "object" then
      if first.Arr? then
        if second.Null? then Err(LengthOfNull)
        else if second.Obj? then Err(EveryNotCallable)
        else
          var lesser := if |first.items| < |second.items| then first else second;
          var greater := if |first.items| > |second.items| then first else second;
          EveryEntry(greater, lesser, 0)
      else if first.Null? || second.Null? then Err(PrototypeOfNull)
      else Ok(ConstructorOf(first) == ConstructorOf(second))
    else Ok(true)
  }

  /** The entry the entry of `greater` at `ind` is compared with: `lesser[ind % lesser.length]`. */
  function Counterpart(lesser: JsValue, ind: nat): JsValue
    requires lesser.Arr?
  {
    if |lesser.items| == 0 then Undefined else lesser.items[ind % |lesser.items|]
  }

  lemma CounterpartIsSmaller(lesser: JsValue, ind: nat)
    requires lesser.Arr?
    ensures Size(Counterpart(lesser, ind)) == 1 || Size(Counterpart(lesser, ind)) < Size(lesser)
  {
    if |lesser.items| > 0 {
      ItemIsSmaller(lesser.items, ind % |lesser.items|);
    }
  }

  /** `greater.every(...)` from index `ind` on: stops at the first entry that is not the same type, or that throws. */
  function EveryEntry(greater: JsValue, lesser: JsValue, ind: nat): (r: Result<bool, ObjectError>)
    requires greater.Arr? && lesser.Arr? && ind <= |greater.items|
    decreases Max(Size(greater), Size(lesser)), 0, |greater.items| - ind
  {
    if ind == |greater.items| then Ok(true)
    else
      ItemIsSmaller(greater.items, ind);
      CounterpartIsSmaller(lesser, ind);
      match SameType(greater.items[ind], Counterpart(lesser, ind))
      case Err(e) => Err(e)
      case Ok(same) => if same then EveryEntry(greater, lesser, ind + 1) else Ok(false)
  }

  /** Every value is the same type as itself. */
  lemma SameTypeIsReflexive(v: JsValue)
    ensures SameType(v, v) == Ok(true)
  {
  }

  /** An array compared with itself from any index on holds throughout. */
  lemma {:induction false} EveryEntryOfItself(a: JsValue, ind: nat)
    requires a.Arr? && ind <= |a.items|
    ensures EveryEntry(a, a, ind) == Ok(true)
    decreases |a.items| - ind
  {
    if ind < |a.items| {
      assert Counterpart(a, ind) == a.items[ind];
      SameTypeIsReflexive(a.items[ind]);
      EveryEntryOfItself(a, ind + 1);
    }
  }

  /**
   * Arrays of equal length are always the same type: both roles go to `second`,
   * which is then compared with itself.
   */
  lemma EqualLengthArraysAreSameType(first: JsValue, second: JsValue)
    requires first.Arr? && second.Arr? && |first.items| == |second.items|
    ensures SameType(first, second) == Ok(true)
  {
    if first != second {
      EveryEntryOfItself(second, 0);
    }
  }

  /** Every entry of `greater` from `ind` on is the same type as its counterpart in `lesser`. */
  ghost predicate EntriesMatch(greater: JsValue, lesser: JsValue, ind: nat)
    requires greater.Arr? && lesser.Arr?
  {
    forall i :: ind <= i < |greater.items| ==> SameType(greater.items[i], Counterpart(lesser, i)) == Ok(true)
  }

  /**
   * `greater.every(...)` from `ind` on holds exactly when every remaining entry of
   * `greater` is the same type as its counterpart in `lesser`.
   */
  lemma {:induction false} EveryEntryHoldsIff(greater: JsValue, lesser: JsValue, ind: nat)
    requires greater.Arr? && lesser.Arr? && ind <= |greater.items|
    ensures EveryEntry(greater, lesser, ind) == Ok(true) <==> EntriesMatch(greater, lesser, ind)
    decreases |greater.items| - ind
  {
    if ind < |greater.items| {
      EveryEntryHoldsIff(greater, lesser, ind + 1);
      var here := SameType(greater.items[ind], Counterpart(lesser, ind));
      if here == Ok(true) {
        assert EveryEntry(greater, lesser, ind) == EveryEntry(greater, lesser, ind + 1);
        assert EntriesMatch(greater, lesser, ind) <==> EntriesMatch(greater, lesser, ind + 1);
      } else {
        assert EveryEntry(greater, lesser, ind) != Ok(true);
        assert !EntriesMatch(greater, lesser, ind) by {
          assert SameType(greater.items[ind], Counterpart(lesser, ind)) != Ok(true);
        }
      }
    }
  }

  /** The shorter of two arrays, `second` when the lengths are equal (src/objects.ts:64). */
  function Lesser(first: JsValue, second: JsValue): JsValue
    requires first.Arr? && second.Arr?
  {
    if |first.items| < |second.items| then first else second
  }

  /** The longer of two arrays, `second` when the lengths are equal (src/objects.ts:65). */
  function Greater(first: JsValue, second: JsValue): JsValue
    requires first.Arr? && second.Arr?
  {
    if |first.items| > |second.items| then first else second
  }

  /**
   * Two arrays, of any lengths, are the same type exactly when every entry of the
   * longer one (of `second` when the lengths are equal) is the same type as the entry
   * of the shorter one at its index taken modulo the shorter length, or as
   * `undefined` when the shorter one is empty.
   */
  lemma ArraysCompareEntries(first: JsValue, second: JsValue)
    requires first.Arr? && second.Arr?
    ensures SameType(first, second) == Ok(true) <==> EntriesMatch(Greater(first, second), Lesser(first, second), 0)
  {
    var lesser := Lesser(first, second);
    var greater := Greater(first, second);
    EveryEntryHoldsIff(greater, lesser, 0);
    if first == second {
      EveryEntryOfItself(second, 0);
      assert SameType(first, second) == Ok(true);
    } else {
      assert SameType(first, second) == EveryEntry(greater, lesser, 0);
    }
  }

  /** `undefined` is the same type as nothing but itself, and the comparison never throws. */
  lemma SameTypeAsUndefined(v: JsValue)
    ensures SameType(v, Undefined) == Ok(v.Undefined?)
  {
  }

  /** With an empty array, the other array's entries are compared with `undefined`: only all-`undefined` entries pass. */
  lemma {:induction false} EveryEntryAgainstEmpty(greater: JsValue, ind: nat)
    requires greater.Arr? && ind <= |greater.items|
    ensures EveryEntry(greater, Arr([]), ind) == Ok(forall i :: ind <= i < |greater.items| ==> greater.items[i].Undefined?)
    decreases |greater.items| - ind
  {
    if ind < |greater.items| {
      SameTypeAsUndefined(greater.items[ind]);
      EveryEntryAgainstEmpty(greater, ind + 1);
    }
  }

  /** An array is the same type as `[]` exactly when all its entries are `undefined`. */
  lemma EmptyArrayAgainstEntries(first: JsValue)
    requires first.Arr?
    ensures SameType(first, Arr([])) == Ok(forall i :: 0 <= i < |first.items| ==> first.items[i].Undefined?)
  {
    if first != Arr([]) {
      EveryEntryAgainstEmpty(first, 0);
    }
  }

  /** The example pairs behind the comparison's rules. */
  lemma SameTypeExamples()
    ensures SameType(Num(1.0), Str("1")) == Ok(false)
    ensures SameType(Num(1.0), Num(2.5)) == Ok(true)
    ensures SameType(Arr([Num(1.0), Num(2.0), Num(3.0)]), Arr([Num(4.0)])) == Ok(true)
    ensures SameType(Arr([Num(1.0), Str("x")]), Arr([Num(4.0)])) == Ok(false)
    ensures SameType(Null, Obj("Object", [], map[])) == Err(PrototypeOfNull)
    ensures SameType(Arr([]), Null) == Err(LengthOfNull)
  {
    var g := Arr([Num(1.0), Num(2.0), Num(3.0)]);
    var l := Arr([Num(4.0)]);
    assert Counterpart(l, 1) == Num(4.0) && Counterpart(l, 2) == Num(4.0);
    assert EveryEntry(g, l, 3) == Ok(true);
    assert EveryEntry(g, l, 2) == Ok(true);
    assert EveryEntry(g, l, 1) == Ok(true);
    var g' := Arr([Num(1.0), Str("x")]);
    assert Counterpart(l, 1) == Num(4.0);
    assert EveryEntry(g', l, 1) == Ok(false);
  }

  // ---------------------------------------------------------------------------
  // objectMatchesLayout
  // ---------------------------------------------------------------------------

  /** `o[key]` for an own property; `undefined` when there is none. */
  function Get(o: JsValue, key: string): JsValue
  {
    if o.Obj? && key in o.fields then o.fields[key] else Undefined
  }

  /** `Object.keys(input).every(...)` from position `i` on. */
  function LayoutFrom(input: JsValue, layout: JsValue, i: nat): (r: Result<bool, ObjectError>)
    requires input.Obj? && layout.Obj? && i <= |input.keys|
    ensures r == Ok(true) <==>
              forall j :: i <= j < |input.keys| ==>
                input.keys[j] in layout.keys && SameType(Get(input, input.keys[j]), Get(layout, input.keys[j])) == Ok(true)
    decreases |input.keys| - i
  {
    if i == |input.keys| then Ok(true)
    else
      var key := input.keys[i];
      if key !in layout.keys then Ok(false)
      else
        match SameType(Get(input, key), Get(layout, key))
        case Err(e) => Err(e)
        case Ok(same) => if same then LayoutFrom(input, layout, i + 1) else Ok(false)
  }

  /**
   * `objectMatchesLayout(input, layout)`: every own key of `input` is a key of
   * `layout`, with a value of the same type. Keys of `layout` that `input` lacks do
   * not matter, so an empty input matches every layout.
   */
  function MatchesLayout(input: JsValue, layout: JsValue): (r: Result<bool, ObjectError>)
    requires input.Obj? && layout.Obj?
    ensures r == Ok(true) <==>
              forall key :: key in input.keys ==>
                key in layout.keys && SameType(Get(input, key), Get(layout, key)) == Ok(true)
    ensures input.keys == [] ==> r == Ok(true)
  {
    var r := LayoutFrom(input, layout, 0);
    assert r == Ok(true) <==>
             forall j :: 0 <= j < |input.keys| ==>
               input.keys[j] in layout.keys && SameType(Get(input, input.keys[j]), Get(layout, input.keys[j])) == Ok(true);
    r
  }

  /** Every object matches itself as a layout. */
  lemma MatchesOwnLayout(o: JsValue)
    requires o.Obj?
    ensures MatchesLayout(o, o) == Ok(true)
  {
    forall key | key in o.keys
      ensures SameType(Get(o, key), Get(o, key)) == Ok(true)
    {
      SameTypeIsReflexive(Get(o, key));
    }
  }

  // ---------------------------------------------------------------------------
  // objectNestedAssign
  // ---------------------------------------------------------------------------

  /** The test `v && typeof v === 'object' && !Array.isArray(v)` for a value that is merged into rather than replaced. */
  predicate IsMergeable(v: JsValue)
  {
    v.Obj?
  }

  predicate DistinctKeys(keys: seq<string>)
  {
    forall i, j :: 0 <= i < j < |keys| ==> keys[i] != keys[j]
  }

  /** An object whose key list names each own property exactly once. */
  ghost predicate WellFormed(o: JsValue)
  {
    o.Obj? && DistinctKeys(o.keys) && forall key :: key in o.fields <==> key in o.keys
  }

  /** `o[key] = v`: a new key goes to the end of the key order. */
  function Put(o: JsValue, key: string, v: JsValue): (r: JsValue)
    requires o.Obj?
    ensures r.Obj? && r.ctor == o.ctor
    ensures forall k :: Get(r, k) == if k == key then v else Get(o, k)
    ensures WellFormed(o) ==> WellFormed(r)
  {
    Obj(o.ctor, if key in o.fields then o.keys else o.keys + [key], o.fields[key := v])
  }

  /**
   * The first `n` keys of `src` assigned onto `target`, in order: where both the
   * target's and the source's value are mergeable objects, the target's value is
   * replaced by the two merged recursively; otherwise by the source's value.
   */
  function MergeKeys(target: JsValue, src: JsValue, n: nat): (r: JsValue)
    requires target.Obj? && src.Obj? && n <= |src.keys|
    ensures r.Obj? && r.ctor == target.ctor
    decreases src, n
  {
    if n == 0 then target
    else
      var acc := MergeKeys(target, src, n - 1);
      var key := src.keys[n - 1];
      if key in src.fields && IsMergeable(Get(acc, key)) && IsMergeable(src.fields[key]) then
        Put(acc, key, MergeKeys(Get(acc, key), src.fields[key], |src.fields[key].keys|))
      else
        Put(acc, key, Get(src, key))
  }

  /** What one key of a source leaves in the target, given the target's value before. */
  function Merged(targetValue: JsValue, sourceValue: JsValue): JsValue
  {
    if IsMergeable(targetValue) && IsMergeable(sourceValue) then
      MergeKeys(targetValue, sourceValue, |sourceValue.keys|)
    else sourceValue
  }

  /** The sources assigned onto `target` one after another. */
  function AssignAll(target: JsValue, sources: seq<JsValue>): (r: JsValue)
    requires target.Obj? && forall i :: 0 <= i < |sources| ==> sources[i].Obj?
    ensures r.Obj? && r.ctor == target.ctor
  {
    if sources == [] then target
    else
      var last := sources[|sources| - 1];
      MergeKeys(AssignAll(target, sources[..|sources| - 1]), last, |last.keys|)
  }

  /**
   * The value a key ends up with after one source is assigned: the merge of the
   * target's and the source's values for keys the source has, the target's value
   * for any other key.
   */
  lemma {:induction false} MergeKeysAt(target: JsValue, src: JsValue, n: nat, k: string)
    requires target.Obj? && src.Obj? && n <= |src.keys| && DistinctKeys(src.keys)
    ensures Get(MergeKeys(target, src, n), k)
            == if k in src.keys[..n] then Merged(Get(target, k), Get(src, k)) else Get(target, k)
  {
    if n > 0 {
      var key := src.keys[n - 1];
      assert src.keys[..n] == src.keys[..n - 1] + [key];
      MergeKeysAt(target, src, n - 1, k);
      MergeKeysAt(target, src, n - 1, key);
      assert key !in src.keys[..n - 1];
    }
  }

  /** Assigning a source keeps the target well formed and adds exactly the source's new keys. */
  lemma {:induction false} MergeKeysShape(target: JsValue, src: JsValue, n: nat)
    requires WellFormed(target) && src.Obj? && n <= |src.keys|
    ensures WellFormed(MergeKeys(target, src, n))
    ensures forall k :: k in MergeKeys(target, src, n).keys <==> k in target.keys || k in src.keys[..n]
  {
    if n > 0 {
      MergeKeysShape(target, src, n - 1);
      assert src.keys[..n] == src.keys[..n - 1] + [src.keys[n - 1]];
    }
  }

  /** Keys that no source mentions keep the target's value. */
  lemma {:induction false} AssignKeepsUnmentioned(target: JsValue, sources: seq<JsValue>, k: string)
    requires target.Obj? && forall i :: 0 <= i < |sources| ==> sources[i].Obj? && DistinctKeys(sources[i].keys)
    requires forall i :: 0 <= i < |sources| ==> k !in sources[i].keys
    ensures Get(AssignAll(target, sources), k) == Get(target, k)
  {
    if sources != [] {
      var last := sources[|sources| - 1];
      AssignKeepsUnmentioned(target, sources[..|sources| - 1], k);
      MergeKeysAt(AssignAll(target, sources[..|sources| - 1]), last, |last.keys|, k);
      assert last.keys[..|last.keys|] == last.keys;
    }
  }

  /**
   * The last source that has a key decides it: a value that is not a mergeable
   * object overwrites whatever the earlier sources and the target left, and a
   * mergeable one is merged into what they left.
   */
  lemma LastSourceDecides(target: JsValue, sources: seq<JsValue>, k: string)
    requires target.Obj? && forall i :: 0 <= i < |sources| ==> sources[i].Obj? && DistinctKeys(sources[i].keys)
    requires |sources| > 0 && k in sources[|sources| - 1].keys
    ensures var before := AssignAll(target, sources[..|sources| - 1]);
            var last := sources[|sources| - 1];
            Get(AssignAll(target, sources), k) == Merged(Get(before, k), Get(last, k))
    ensures !IsMergeable(Get(sources[|sources| - 1], k)) ==>
              Get(AssignAll(target, sources), k) == Get(sources[|sources| - 1], k)
  {
    var last := sources[|sources| - 1];
    MergeKeysAt(AssignAll(target, sources[..|sources| - 1]), last, |last.keys|, k);
    assert last.keys[..|last.keys|] == last.keys;
  }

  /** Assigning well-formed sources keeps the target well formed; its keys become those of the target and all sources. */
  lemma {:induction false} AssignAllShape(target: JsValue, sources: seq<JsValue>)
    requires WellFormed(target) && forall i :: 0 <= i < |sources| ==> sources[i].Obj?
    ensures WellFormed(AssignAll(target, sources))
    ensures forall k :: k in AssignAll(target, sources).keys <==>
              k in target.keys || exists i :: 0 <= i < |sources| && k in sources[i].keys
  {
    if sources != [] {
      var init, last := sources[..|sources| - 1], sources[|sources| - 1];
      AssignAllShape(target, init);
      MergeKeysShape(AssignAll(target, init), last, |last.keys|);
      assert last.keys[..|last.keys|] == last.keys;
      forall k | exists i :: 0 <= i < |sources| && k in sources[i].keys
        ensures k in last.keys || exists i :: 0 <= i < |init| && k in init[i].keys
      {
        var i :| 0 <= i < |sources| && k in sources[i].keys;
        if i < |init| { assert init[i] == sources[i]; }
      }
    }
  }

  /**
   * `MergeInto(target, src)`: the inner loop of `objectNestedAssign`, over
   * `Object.keys(src)`, calling itself where both values are mergeable objects.
   */
  method MergeInto(target: JsValue, src: JsValue) returns (r: JsValue)
    requires target.Obj? && src.Obj?
    ensures r == MergeKeys(target, src, |src.keys|)
    decreases src
  {
    r := target;
    for i := 0 to |src.keys|
      invariant r == MergeKeys(target, src, i)
    {
      var key := src.keys[i];
      var targetValue := Get(r, key);
      if key in src.fields && IsMergeable(targetValue) && IsMergeable(src.fields[key]) {
        var merged := MergeInto(targetValue, src.fields[key]);
        r := Put(r, key, merged);
      } else {
        r := Put(r, key, Get(src, key));
      }
    }
  }

  /** `objectNestedAssign(target, ...sources)`: each source merged onto the target in turn. */
  method ObjectNestedAssign(target: JsValue, sources: seq<JsValue>) returns (result: JsValue)
    requires target.Obj? && forall i :: 0 <= i < |sources| ==> sources[i].Obj?
    ensures result == AssignAll(target, sources)
  {
    result := target;
    for i := 0 to |sources|
      invariant result == AssignAll(target, sources[..i])
    {
      assert sources[..i + 1][..i] == sources[..i];
      result := MergeInto(result, sources[i]);
    }
    assert sources[..|sources|] == sources;
  }

  // ---------------------------------------------------------------------------
  // TypedMap
  // ---------------------------------------------------------------------------

  /** The `TypeError`s `TypedMap.set` throws. */
  datatype MapError =
    | InvalidKey                     // the key is falsy or not a string
    | InvalidValue                   // the value is `undefined` or `null`
    | TypeMismatch                   // `checkType` said no
    | CheckFailed(cause: ObjectError) // `checkType` itself threw

  /**
   * `TypedMap`: the private dictionary, with its keys in insertion order, and the
   * private `hasEntries` flag. No method ever sets the flag, so type checking never
   * takes effect and the string form never lists entries.
   */
  class TypedMap {
    var dict: map<string, JsValue>
    var order: seq<string>
    var hasEntries: bool

    /** The key order names every entry exactly once, and no entry holds `undefined` or `null`. */
    ghost predicate Valid()
      reads this
    {
      && DistinctKeys(order)
      && (forall k :: k in dict <==> k in order)
      && (forall k :: k in dict ==> !dict[k].Undefined? && !dict[k].Null?)
    }

    constructor ()
      ensures Valid() && dict == map[] && order == [] && !hasEntries
    {
      dict := map[];
      order := [];
      hasEntries := false;
    }

    /** `has(key)`: whether the key is an own entry. */
    predicate Has(key: string): (r: bool)
      reads this
      ensures Valid() ==> (r <==> key in order)
    {
      key in dict
    }

    /** `get(key)`: the entry, or `undefined` exactly when there is none. */
    function Get(key: string): (r: JsValue)
      reads this
      requires Valid()
      ensures r.Undefined? <==> !Has(key)
      ensures Has(key) ==> r == dict[key]
    {
      if key in dict then dict[key] else Undefined
    }

    /** `keys()`: every key once, in insertion order. */
    function Keys(): (r: seq<string>)
      reads this
      requires Valid()
      ensures |r| == |dict| && DistinctKeys(r)
      ensures forall k :: k in r <==> Has(k)
    {
      DistinctKeysCount(order, dict.Keys);
      order
    }

    /** `checkType(value)`: compared with the first entry when `hasEntries` is set, otherwise accepted. */
    function CheckType(value: JsValue): (r: Result<bool, ObjectError>)
      reads this
      requires Valid()
      ensures !hasEntries ==> r == Ok(true)
      ensures hasEntries && order == [] ==> r == SameType(value, Undefined)
    {
      if hasEntries then SameType(value, if order == [] then Undefined else dict[order[0]]) else Ok(true)
    }

    /**
     * `set(key, value)`: throws on a falsy or non-string key, on an `undefined` or
     * `null` value and when `checkType` rejects or throws; otherwise stores the entry,
     * a new key going last.
     */
    method Set(key: JsValue, value: JsValue) returns (r: Result<(), MapError>)
      requires Valid()
      modifies this`dict, this`order
      ensures Valid()
      ensures !Truthy(key) || TypeOf(key) != "string" ==> r == Err(InvalidKey)
      ensures Truthy(key) && key.Str? && (value.Undefined? || value.Null?) ==> r == Err(InvalidValue)
      ensures r.Err? ==> dict == old(dict) && order == old(order)
      ensures r.Ok? <==> key.Str? && key.s != "" && !value.Undefined? && !value.Null? && old(CheckType(value)) == Ok(true)
      ensures r.Ok? ==> Has(key.s) && Get(key.s) == value
      ensures r.Ok? ==> order == if key.s in old(dict) then old(order) else old(order) + [key.s]
      ensures r.Ok? ==> forall k :: k != key.s ==> Has(k) == old(Has(k)) && (Has(k) ==> dict[k] == old(dict[k]))
    {
      if !Truthy(key) || TypeOf(key) != "string" {
        return Err(InvalidKey);
      }
      if value.Undefined? || value.Null? {
        return Err(InvalidValue);
      }
      match CheckType(value)
      case Err(e) =>
        return Err(CheckFailed(e));
      case Ok(same) =>
        if !same {
          return Err(TypeMismatch);
        }
      if key.s !in dict {
        order := order + [key.s];
      }
      dict := dict[key.s := value];
      r := Ok(());
    }

    /** `delete(key)`: removes the entry and reports whether there was one. */
    method Delete(key: string) returns (found: bool)
      requires Valid()
      modifies this`dict, this`order
      ensures Valid()
      ensures found == old(Has(key))
      ensures !Has(key) && dict == old(dict) - {key}
      ensures order == RemoveKey(old(order), key)
    {
      found := key in dict;
      if found {
        RemoveKeyKeepsOthers(order, key);
        dict := dict - {key};
        order := RemoveKey(order, key);
      }
      else {
        RemoveKeyOfAbsent(order, key);
      }
    }

    /** `clear()`: deletes every key of a snapshot of `keys()`, one after another. */
    method Clear()
      requires Valid()
      modifies this`dict, this`order
      ensures Valid()
      ensures dict == map[] && order == []
    {
      var ks := Keys();
      for i := 0 to |ks|
        invariant Valid()
        invariant order == ks[i..]
        invariant forall k :: k in dict <==> k in ks[i..]
      {
        var key := ks[i];
        assert ks[i..] == [key] + ks[i + 1..];
        RemoveKeyKeepsOthers(order, key);
        assert RemoveKey(ks[i..], key) == RemoveKey(ks[i + 1..], key);
        RemoveKeyOfAbsent(ks[i + 1..], key);
        dict := dict - {key};
        order := RemoveKey(order, key);
      }
    }

    /**
     * `toString()`: `"{ }"` while `hasEntries` is unset, which is always; otherwise
     * the entries each followed by `", "`, after a leading `"{ "`. The closing `" }"`
     * would need an index equal to the number of entries, which no entry has.
     */
    function ToString(render: JsValue -> string): (r: string)
      reads this
      requires Valid()
      ensures !hasEntries ==> r == "{ }"
      ensures hasEntries ==> |r| >= 2 && r[..2] == "{ " && (order != [] ==> r[|r| - 2..] == ", ")
    {
      if !hasEntries then "{ }"
      else Entries(render, |order|)
    }

    /** The `reduce` in `toString` over the first `n` entries. */
    function Entries(render: JsValue -> string, n: nat): (r: string)
      reads this
      requires Valid() && n <= |order|
      ensures |r| >= 2 && r[..2] == "{ " && (n > 0 ==> r[|r| - 2..] == ", ")
    {
      if n == 0 then "{ "
      else
        var acc := Entries(render, n - 1);
        var key := order[n - 1];
        acc + key + ": " + render(dict[key]) + (if n - 1 == |order| then " }" else ", ")
    }
  }

  /** The key list without `key`. */
  function RemoveKey(keys: seq<string>, key: string): (r: seq<string>)
    ensures forall k :: k in r <==> k in keys && k != key
    ensures DistinctKeys(keys) ==> DistinctKeys(r)
  {
    if keys == [] then []
    else
      DistinctTail(keys);
      if keys[0] == key then RemoveKey(keys[1..], key)
      else [keys[0]] + RemoveKey(keys[1..], key)
  }

  lemma DistinctTail(keys: seq<string>)
    requires keys != []
    ensures DistinctKeys(keys) ==> DistinctKeys(keys[1..]) && keys[0] !in keys[1..]
  {
    if DistinctKeys(keys) {
      var rest := keys[1..];
      forall i, j | 0 <= i < j < |rest| ensures rest[i] != rest[j] {
        assert rest[i] == keys[i + 1] && rest[j] == keys[j + 1];
      }
    }
  }

  lemma {:induction false} RemoveKeyOfAbsent(keys: seq<string>, key: string)
    requires key !in keys
    ensures RemoveKey(keys, key) == keys
  {
    if keys != [] {
      RemoveKeyOfAbsent(keys[1..], key);
    }
  }

  lemma RemoveKeyKeepsOthers(keys: seq<string>, key: string)
    ensures forall k :: k in RemoveKey(keys, key) <==> k in keys && k != key
  {
  }

  /** A list of distinct keys that names exactly the keys of a set has the set's size. */
  lemma {:induction false} DistinctKeysCount(keys: seq<string>, s: set<string>)
    requires DistinctKeys(keys) && forall k :: k in s <==> k in keys
    ensures |keys| == |s|
  {
    if keys != [] {
      var rest := keys[1..];
      assert keys[0] !in rest;
      assert DistinctKeys(rest) by {
        forall i, j | 0 <= i < j < |rest| ensures rest[i] != rest[j] {
          assert rest[i] == keys[i + 1] && rest[j] == keys[j + 1];
        }
      }
      DistinctKeysCount(rest, s - {keys[0]});
    }
  }

  /**
   * Since the flag is never set, a map that `set` has filled still accepts a value of
   * any type, and still prints as `"{ }"`.
   */
  method MixedTypesAccepted() returns (first: Result<(), MapError>, second: Result<(), MapError>, text: string)
    ensures first.Ok? && second.Ok?
    ensures text == "{ }"
  {
    var m := new TypedMap();
    assert m.CheckType(Num(1.0)) == Ok(true);
    first := m.Set(Str("count"), Num(1.0));
    assert !m.hasEntries;
    assert m.CheckType(Str("one")) == Ok(true);
    second := m.Set(Str("name"), Str("one"));
    text := m.ToString(v => "");
  }
}
