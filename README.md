# ts-toolbox in Dafny

This project is a Dafny model of the core of `ts-toolbox`, a TypeScript utility library. It covers:

- the numeric helpers (`src/math.ts`);
- the array helpers (`src/arrays.ts`);
- the object helpers and the type-checked `TypedMap` (`src/objects.ts`);
- the string predicates (`src/strings.ts`);
- the `Vector` constructor (`src/vectors/vector.ts`);
- the two-component `Vector2` (`src/vectors/vector2.ts`).

Each module follows one source file:

| module | file | models |
|---|---|---|
| `Wrappers` | wrappers.dfy | `Result` and `Option`. A thrown `TypeError` is an `Err` carrying the reason. |
| `JsValues` | js_values.dfy | The JavaScript values the helpers inspect at run time, with `typeof` and truthiness. |
| `MathHelpers` | math.dfy | The type-checking predicates, parity and multiples, the clamps with their "falsy input gives a sentinel" rule, `wrapToPositive`, interpolation and degree/radian conversion. |
| `Arrays` | arrays.dfy | `inPlaceConcat` on a mutable array object, `flattenArray` and `arrayEnsureSize`. |
| `Objects` | objects.dfy | `objectsAreSameType`, `objectMatchesLayout`, `objectNestedAssign` and the `TypedMap` class. |
| `Strings` | strings.dfy | `isStringURI` and `isStringKabob`, with recognisers for their regular expressions. |
| `Vectors` | vector.dfy | The `Vector` constructor's dispatch on its argument and the `count`/components invariant. |
| `Vectors2D` | vector2.dfy | The `Vector2` constructor modes, `set`/`fill`/`reset`, the axis setters, and the operations that build new vectors. |

## Numbers, values and errors

Numbers are exact reals. JavaScript `+`, `*` and `/` are real arithmetic here. `%` is written out as the truncating remainder `a - m * trunc(a / m)`, because Dafny's own `%` is Euclidean.

`NaN` appears only where a helper's falsy guard inspects it (the `JsValue.NaN` case); the vector models have no `NaN`.

`Number.MAX_VALUE` is the exact real of its double value, 2^1024 - 2^971. `Math.PI` is its shortest decimal form, 3.141592653589793, which differs slightly from the double's exact value; only its positivity enters the proofs.

A function that can throw returns a `Result`, and every throwing condition of the source is an `Err` case of the model. For the two JavaScript quirks below, the model keeps the source's behaviour:

- `Math.max()` of no arguments is `-Infinity`: the `Arrays.Extended` datatype.
- `Object.keys(null)` throws: `Vectors2D.Vector2Error.NullArgument`.

Where the code and its documentation or tests disagree, the model follows the code:

- **`new Vector(vector, 9)`** ignores the `9`. The test at `tests/vectors/vector.test.ts:59-67` expects `[3, 6, 9]`, and a throw for a non-number trailing argument (`Vectors.CopyIgnoresTrailingArguments`).
- **String arguments to `Vector`** hit an empty branch. The count stays undefined and there are no components, whereas the tests expect parsing and a throw on bad strings.
- **`new Vector2(a, b)` tests `b` for truthiness**, so a zero second argument fills both axes with `a`. As a result:
  - `add`, `subtract`, `multiply`, `scale` and `map` return `(r, r)` whenever the computed y-component is 0;
  - `Vector2.fromVector` of a one-component vector gives `(x, x)`, not the documented `(x, 0)`.
- **The array constructor of `Vector2` rejects exactly the arrays of length 2**, though its message speaks of an empty array. So `mapWith`, which rebuilds from a two-entry array, always throws.
- **`TypedMap` never sets `#hasEntries`.** So `checkType` accepts any value and `toString` always prints `{ }`, contrary to the class documentation (`Objects.MixedTypesAccepted`).
- **`wrapToPositive` needs a positive `range`.** Its documentation asks for one, and the loop never ends for a negative input when `range <= 0`. The model states this as a precondition.

## Model

| member | source | states |
|---|---|---|
| MathHelpers.Trunc | src/math.ts:95 | `Math.trunc` rounds toward zero: it lies within 1 of its argument, on the zero side. |
| MathHelpers.IsIntegerMeansWhole | src/math.ts:17-21 | True exactly for a nonzero number that truncation leaves unchanged. |
| MathHelpers.IsFloatMeansFraction | src/math.ts:32-36 | True exactly for a number whose fractional part is strictly between 0 and 1 in magnitude. |
| MathHelpers.TruncFixesIntegral | src/math.ts:20 | `Number.isInteger` holds exactly when `Math.trunc` leaves the number unchanged. |
| MathHelpers.IsPositive | src/math.ts:46-50 | True exactly for numbers above 0. NaN, 0 and non-numbers fail the falsy guard. |
| MathHelpers.IsNegative | src/math.ts:60-64 | True exactly for numbers below 0. |
| MathHelpers.NumberClassification | src/math.ts:17-64 | `isInteger`/`isFloat` and `isPositive`/`isNegative` are each disjoint. Each pair covers exactly the truthy numbers. |
| MathHelpers.IsOddMeansParity | src/math.ts:87-96 | True exactly for a truthy number whose parity base is odd. The base is the input when whole, otherwise the input scaled by `10^decimals` and truncated. |
| MathHelpers.IsEvenMeansParity | src/math.ts:120-129 | True exactly for a truthy number whose parity base is even. |
| MathHelpers.RemainderByTwo | src/math.ts:91-92 | The truncating remainder of a whole number by 2 is -1, 0 or 1. Its magnitude is 1 exactly for odd numbers. |
| MathHelpers.OddXorEven | src/math.ts:87-129 | For every truthy number and every `decimals`, exactly one of `isOdd` and `isEven` holds. For 0, NaN and non-numbers neither holds. |
| MathHelpers.ParityIgnoresSign | src/math.ts:87-129 | A negative number has the same parity as its absolute value, as both doc comments promise. |
| MathHelpers.ParityOfIntegers | src/math.ts:87-129 | On nonzero integers, `isOdd`/`isEven` are `k % 2 == 1` and `k % 2 == 0`. |
| MathHelpers.ParityExamples | src/math.ts:74-112 | The documented examples: 23 and 3.1415 with 3 decimals are odd; 24 and 3.1415 are even. |
| MathHelpers.IsMultipleMeansWholeQuotient | src/math.ts:141-148 | True exactly when both arguments are truthy numbers and their quotient is a whole number, of either sign. |
| MathHelpers.RemZeroIffWholeQuotient | src/math.ts:147 | The truncating remainder is 0 exactly when the quotient is whole. |
| MathHelpers.MultipleExample | src/math.ts:131-148 | `isMultiple(-6, 2)` holds, so negatives count, and `isMultiple(7, 2)` does not. |
| MathHelpers.IsMultipleOfIntegers | src/math.ts:141-148 | On nonzero integers, `isMultiple` is divisibility. |
| MathHelpers.DivisibleHasZeroRemainder | src/math.ts:147 | A divisible integer leaves truncating remainder 0. |
| MathHelpers.ZeroRemainderIsDivisible | src/math.ts:147 | A zero truncating remainder means divisibility. |
| MathHelpers.Positive | src/math.ts:159-163 | Invalid (falsy or non-number) input gives -1. Otherwise the result is non-negative: it is the input itself exactly when the input is positive, and 0 for a negative input. |
| MathHelpers.ClampFloat | src/math.ts:176-180 | Invalid input gives `MAX_VALUE`. Otherwise the result lies in `[min, max]` and is `x` itself inside the range. Below the range it is `min`, above it `max`. When `min > max` it is `max` (no swap). |
| MathHelpers.ClampUnit | src/math.ts:190-194 | Invalid input gives 0. Every result lies in [0, 1] and equals `clampFloat(x, 0, 1)` for valid input. |
| MathHelpers.ClampDegree | src/math.ts:205-209 | Invalid input gives 0. Every result lies in [0, 360] and equals `clampFloat(x, 0, 360)` for valid input. |
| MathHelpers.ClampInteger | src/math.ts:223-227 | Invalid input gives `MAX_VALUE`. Otherwise the result is the clamped value truncated toward zero: whole, no larger in magnitude and less than 1 away. It lies within the bounds when they are whole; a fractional `min` can be undercut. |
| MathHelpers.ClampByte | src/math.ts:237 | Invalid input gives `MAX_VALUE`. Otherwise the result is a whole number in 0..255: `trunc(x)` inside that range, 0 below it (so `-3.14159` gives 0) and 255 above it (so `265.5` gives 255). |
| MathHelpers.WrapToPositive | src/math.ts:301-310 | Both branches, `%` for non-negative input and the subtraction loop for negative input, give the Euclidean remainder: it lies in `[0, range)` and equals `input - range * floor(input / range)`. |
| MathHelpers.WrapToPositiveOfIntegers | src/math.ts:301-310 | On integers, that remainder is Dafny's Euclidean `input % range`. |
| MathHelpers.DegToRad | src/math.ts:331 | 180 degrees is PI radians. Sign and zero are preserved. |
| MathHelpers.RadToDeg | src/math.ts:339 | PI radians is 180 degrees. Sign and zero are preserved. |
| MathHelpers.AngleConversionsRoundTrip | src/math.ts:331-339 | The two conversions are mutually inverse. |
| MathHelpers.LinearInterp | src/math.ts:351 | Alpha 0 gives `start` and alpha 1 gives `end`. An alpha in [0, 1] gives a value between them, with offset `alpha * (end - start)`. |
| MathHelpers.InverseLinearInterp | src/math.ts:368-371 | The result is `(delta - start) / (end - start)` when that lies in [0, 1]. Below 0 it is 0, and above 1 it is 1. `delta == start` gives a position of 0, which the clamp's falsy guard turns into `MAX_VALUE`. |
| MathHelpers.InverseLinearInterpExample | src/math.ts:360 | `inverseLinearInterp(50, 100, 75) == 0.5`. |
| MathHelpers.InverseLinearInterpInvertsLinearInterp | src/math.ts:351-371 | For alpha in (0, 1], `inverseLinearInterp` recovers the alpha given to `linearInterp`. |
| MathHelpers.InverseLinearInterpAtStart | src/math.ts:368-371 | At alpha 0 the round trip yields `MAX_VALUE` instead of 0. |
| MathHelpers.Rescale | src/math.ts:385-387 | The result lies in the target range, except that `value == fromStart` goes through the `MAX_VALUE` sentinel. |
| MathHelpers.RescaleMapsAlphaToAlpha | src/math.ts:385-387 | A point at alpha in (0, 1] of the first range maps to the point at alpha of the second. |
| Arrays.JsArray.Push | src/arrays.ts:24 | `push` appends the items in place and returns the new length. |
| Arrays.MathMax | src/arrays.ts:22-25 | `Math.max` of no lengths is `-Infinity`. Otherwise it is the largest one, which is in the list. |
| Arrays.InPlaceConcat | src/arrays.ts:21-26 | Every array is appended to `target` in place, in order. The result is the final length of `target`, or `-Infinity` when no arrays are given. |
| Arrays.FlattenArray | src/arrays.ts:36-48 | A non-array gives `[]`. A depth of 0 or less gives a copy of the items. |
| Arrays.FlattenKeepsLeaves | src/arrays.ts:36-48 | Flattening keeps every non-array value, in order, and adds none. |
| Arrays.FlattenRemovesLevels | src/arrays.ts:40-46 | The result's nesting depth is the input's depth minus `depth`, floored at 0. |
| Arrays.FlattenItemsRemovesLevels | src/arrays.ts:41-45 | The `reduce` over the items removes `depth` levels of nesting. |
| Arrays.PieceRemovesLevels | src/arrays.ts:42-44 | What the callback appends for one item has `depth` fewer levels than the item. |
| Arrays.FlattenFully | src/arrays.ts:36-48 | A depth at least the nesting depth gives exactly the leaves, with no arrays left. |
| Arrays.FlattenExamples | tests/arrays.test.ts:27-50 | The test cases: a non-array, a negative depth, the default depth and a large depth. |
| Arrays.ArrayEnsureSize | src/arrays.ts:68-80 | A negative size throws. Otherwise the result has exactly `size` entries: the input's prefix, padded with `fillValue`. |
| Arrays.EnsureSizeIdempotent | src/arrays.ts:68-80 | Resizing twice to the same size changes nothing more. Resizing to the current length copies the array. |
| Objects.SameType | src/objects.ts:49-80 | Different `typeof` gives false and `===` values give true. Same-typeof primitives give true. Objects compare constructors, even against arrays. Only `null` and arrays can throw (from `getPrototypeOf(null)` or `.length`/`.every` on a non-array). The rule for two arrays is stated by `Objects.ArraysCompareEntries`. |
| Objects.EveryEntryHoldsIff | src/objects.ts:66 | The `every` from an index holds exactly when each remaining entry of the longer array is the same type as `lesser[ind % lesser.length]` (or `undefined` for an empty `lesser`). |
| Objects.ArraysCompareEntries | src/objects.ts:57-67 | Two arrays of any lengths are the same type exactly when every entry of the longer one (of `second` for equal lengths) is the same type as its counterpart in the shorter one, the index taken modulo the shorter length. |
| Objects.SameTypeAsUndefined | src/objects.ts:50-55 | Only `undefined` is the same type as `undefined`, and the comparison does not throw. |
| Objects.EveryEntryAgainstEmpty | src/objects.ts:66 | Against an empty array, the `every` holds exactly when all remaining entries are `undefined`. |
| Objects.SameTypeIsReflexive | src/objects.ts:53-55 | Every value has the same type as itself. |
| Objects.EveryEntryOfItself | src/objects.ts:58-67 | The `every` over an array against itself is true. |
| Objects.EqualLengthArraysAreSameType | src/objects.ts:64-66 | For two arrays of equal length, the lesser and greater are the same array, so the result is true. |
| Objects.EmptyArrayAgainstEntries | src/objects.ts:64-66 | Against an empty array, `lesser[ind % 0]` is `undefined`, so an array is the same type as `[]` exactly when all its entries are `undefined`. |
| Objects.SameTypeExamples | src/objects.ts:49-80 | Concrete outcomes, including the two `null` throws. |
| Objects.LayoutFrom | src/objects.ts:92 | The `every` from a position on: each remaining key is in the layout with a value of the same type. |
| Objects.MatchesLayout | src/objects.ts:90-93 | True exactly when every own key of `input` is in `layout` with a same-typed value. Extra layout keys do not matter, so an empty input matches. |
| Objects.MatchesOwnLayout | src/objects.ts:90-93 | Every object matches its own layout. |
| Objects.Put | src/objects.ts:27-29 | `target[key] = v` changes that key only and keeps the keys distinct. |
| Objects.MergeKeysAt | src/objects.ts:22-30 | After the first n keys of a source, a key among them holds the merge of the target's value with the source's; others are unchanged. |
| Objects.MergeKeysShape | src/objects.ts:22-30 | Merging keeps the object well formed. Its keys become those of the target plus the source's. |
| Objects.AssignKeepsUnmentioned | src/objects.ts:20-34 | A key that no source mentions keeps the target's value. |
| Objects.LastSourceDecides | src/objects.ts:20-34 | The last source with a key decides it: a plain-object value is merged into what came before, any other value overwrites. |
| Objects.AssignAllShape | src/objects.ts:20-34 | The result is well formed. Its keys are the target's and all the sources'. |
| Objects.MergeInto | src/objects.ts:22-30 | The key loop over one source computes `MergeKeys`, recursing into nested plain objects. |
| Objects.ObjectNestedAssign | src/objects.ts:20-34 | The loop over the sources computes `AssignAll`. |
| Objects.TypedMap.constructor | src/objects.ts:107-110 | A new map is empty, with `#hasEntries` false. |
| Objects.TypedMap.Has | src/objects.ts:143 | On a valid map, `has(key)` holds exactly when the key is one of `keys()`. |
| Objects.TypedMap.Get | src/objects.ts:145 | `undefined` exactly for missing keys. Stored values are returned as they are. |
| Objects.TypedMap.Keys | src/objects.ts:147 | The keys are distinct, one per entry, and exactly the keys `has` reports. |
| Objects.TypedMap.CheckType | src/objects.ts:225-231 | With `#hasEntries` false, every value passes. With the flag set and no entries, the value is compared with `undefined`, as destructuring an empty `values()` gives. |
| Objects.TypedMap.Set | src/objects.ts:163-172 | A falsy or non-string key, or an `undefined`/`null` value, throws; so does a failing type check. A throw leaves the map unchanged. Otherwise the key maps to the value, a new key goes last in key order, and all other entries are unchanged. |
| Objects.TypedMap.Delete | src/objects.ts:180-186 | `delete` returns whether the key was present, then removes the key and nothing else. |
| Objects.TypedMap.Clear | src/objects.ts:191-193 | Deleting every key in turn leaves an empty map. |
| Objects.TypedMap.ToString | src/objects.ts:133-141 | With `#hasEntries` false the text is `{ }`. Otherwise it starts with `{ ` and every entry ends in `, `, because the closing test `ind === arr.length` never holds. |
| Objects.MixedTypesAccepted | src/objects.ts:163-172 | Since `#hasEntries` is never set, a number and then a string are both accepted, and the map still prints as `{ }`. |
| Objects.RemoveKey | src/objects.ts:182 | Removing a key from the key list keeps every other key and keeps them distinct. |
| Strings.UriStep | src/strings.ts:20 | One character of the recogniser for the URI expression: `/` starts a segment, and segment characters continue one. |
| Strings.MatchesUriIffShape | src/strings.ts:20 | The recogniser accepts exactly one or more `/`-led, non-empty segments of `[A-Za-z0-9_-]`, the case-insensitive `^(?:\/[a-z0-9\-_]+)+$`. |
| Strings.JoinedSegmentsHaveShape | src/strings.ts:20 | Joining valid segments, each led by `/`, gives a matching path. |
| Strings.KabobRunIffAll | src/strings.ts:50 | The kabob scan accepts exactly the strings of `[a-z0-9-]` characters. |
| Strings.KabobIsSegment | src/strings.ts:20-50 | Every kabob string is a valid URI segment, but not the reverse (`A_b`). |
| Strings.IsStringUri | src/strings.ts:34-41 | True exactly for a string of URI shape. Non-strings and the empty string fail. |
| Strings.IsStringKabob | src/strings.ts:65-72 | True exactly for non-empty strings of lower-case letters, digits and `-`. |
| Strings.AllowEmptyHasNoEffect | src/strings.ts:34-72 | `allowEmpty` never changes the result of either predicate: the falsy guard returns false for `""` before it is read. |
| Strings.UriExamples | src/strings.ts:17-27 | The documented accepted and rejected examples. |
| Strings.KabobExamples | src/strings.ts:47-58 | The documented accepted and rejected examples. |
| Strings.UriTestAsWritten | src/strings.ts:20-40 | `.test` with the global flag succeeds only from `lastIndex` 0. It moves `lastIndex` to the end on success and resets it to 0 on failure. |
| Strings.RepeatedUriTestFails | src/strings.ts:20-40 | Two calls of `isStringURI("/a")` as written give true, then false. |
| Vectors.Numbers | src/vectors/vector.ts:64-66 | The values of all-number arguments, in order. |
| Vectors.Construct | src/vectors/vector.ts:51-98 | The constructor's cases and errors: a number and numbers give `[arg, ...rest]`; a count `n` of at least 1 gives `trunc(n)` zeros; below 1 it throws; an array is copied unless empty or holding non-numbers; a `Vector` is copied, ignoring further arguments; a plain object or `null` throws; a string, `undefined` or a boolean leaves no components and no count. Every successful construction keeps a defined count equal to the number of components. |
| Vectors.ConstructExamples | tests/vectors/vector.test.ts:13-52 | The test cases the code satisfies, and its documented examples. |
| Vectors.CopyIgnoresTrailingArguments | src/vectors/vector.ts:90-93 | Copying a `Vector` ignores any trailing arguments, numbers or not. |
| Vectors.Vector.AppendNumbers | src/vectors/vector.ts:64-66 | The loop writes the arguments after `arg`, one by one. |
| Vectors.Vector.AppendZeros | src/vectors/vector.ts:73-74 | The loop writes `count` zero components. |
| Vectors.Vector.Create | src/vectors/vector.ts:51-98 | `new Vector(...)` throws exactly when `Construct` does, for the same reason. Otherwise it yields a fresh vector whose state is `Construct`'s, with `count == |components|` when defined. |
| Vectors2D.SetValues | src/vectors/vector2.ts:292-304 | A non-number throws. No values change nothing, one value sets x only, and two or more set x and y. |
| Vectors2D.SetValuesIgnoresRest | src/vectors/vector2.ts:296-301 | Values after the second never matter, nor do the old components once two values are given. |
| Vectors2D.Construct2 | src/vectors/vector2.ts:146-243 | Each constructor mode and error. A number fills both axes unless the second argument is truthy, in which case it must be a number and sets y. A string needs exactly two numbers. An array of length 2, or one with a non-number, throws; otherwise it sets from the first entries. A `Vector2` or `Vector` is copied as far as it goes. A record sets its numeric `x`/`y`, and neither present throws. `null` throws; `undefined` or nothing gives the origin. |
| Vectors2D.IdentityIsOrigin | src/vectors/vector2.ts:63 | `IDENTITY` is `(0, 0)`. |
| Vectors2D.Construct2Examples | src/vectors/vector2.ts:180-240 | Concrete outcomes, including `(3, 0)` becoming `(3, 3)` and `[3, 4]` throwing. |
| Vectors2D.CopyRoundTrip | src/vectors/vector2.ts:215-220 | Copying a `Vector2` or a two-component `Vector` reproduces its components. |
| Vectors2D.NewVector2 | src/vectors/vector2.ts:180-191 | `new Vector2(a, b)` is `(a, b)` for a nonzero `b` and `(a, a)` for `b == 0`. |
| Vectors2D.NewVector2KeepsPair | src/vectors/vector2.ts:180-191 | A pair survives `new Vector2(x, y)` exactly when its y is nonzero or equals its x. |
| Vectors2D.Add | src/vectors/vector2.ts:310-317 | The component sums, except that a zero y-sum gives `(x-sum, x-sum)`. |
| Vectors2D.Subtract | src/vectors/vector2.ts:379-386 | The component differences, except that a zero y-difference gives `(x-diff, x-diff)`. |
| Vectors2D.Multiply | src/vectors/vector2.ts:354-361 | The component products, except that a zero y-product gives `(x-product, x-product)`. |
| Vectors2D.Scale | src/vectors/vector2.ts:375-377 | Both components times `mult`, with the same collapse on a zero y. |
| Vectors2D.Map | src/vectors/vector2.ts:340-343 | `func` on each component, with the same collapse when `func(y)` is 0. |
| Vectors2D.MapWith | src/vectors/vector2.ts:345-352 | Always throws the length-2 array error. |
| Vectors2D.DotProduct | src/vectors/vector2.ts:426-428 | The dot product of a vector with itself is non-negative, and with the origin it is 0. |
| Vectors2D.DotProductIsLinear | src/vectors/vector2.ts:426-428 | Scaling the first vector by `k` scales the dot product by `k`. The dot product of a sum is the sum of the dot products. Both hold whenever the rebuilt vector keeps a nonzero y. |
| Vectors2D.DotProductIsSymmetric | src/vectors/vector2.ts:426-428 | `a.dotProduct(b) == b.dotProduct(a)`. |
| Vectors2D.AddCollapses | src/vectors/vector2.ts:313 | `(1, 1) + (2, -1)` is `(3, 3)`, the same as `(0, 2) + (3, -2)`. |
| Vectors2D.SubtractUndoesAdd | src/vectors/vector2.ts:310-386 | When no y-component on the way is 0, `subtract` undoes `add`. |
| Vectors2D.AddIsCommutative | src/vectors/vector2.ts:310-317 | `a.add(b) == b.add(a)`. |
| Vectors2D.ScaleByOne | src/vectors/vector2.ts:340-377 | Scaling by 1, or mapping the identity, keeps a vector whose y is not 0. |
| Vectors2D.FromVector | src/vectors/vector2.ts:72-76 | An empty vector gives the origin. Two or more components with a nonzero second give `(c0, c1)`. Otherwise the result is `(c0, c0)`. |
| Vectors2D.Vector2.AtOrigin | src/vectors/vector2.ts:148 | `super(2)` starts with both components 0. |
| Vectors2D.Vector2.SetX | src/vectors/vector2.ts:255-257 | The x setter writes index 0 only. |
| Vectors2D.Vector2.SetY | src/vectors/vector2.ts:269-271 | The y setter writes index 1 only. |
| Vectors2D.Vector2.Fill | src/vectors/vector2.ts:282-286 | Both components become the value. |
| Vectors2D.Vector2.Reset | src/vectors/vector2.ts:288-290 | Both components become 0. |
| Vectors2D.Vector2.Set | src/vectors/vector2.ts:292-304 | In place, as `SetValues`. A throw changes nothing. |
| Vectors2D.Vector2.Create | src/vectors/vector2.ts:146-243 | `new Vector2(...)` throws exactly when `Construct2` does. Otherwise it yields a fresh object with `Construct2`'s components, reached through `fill`, `set` and the axis setters. |
| Vectors2D.Vector2.ToVector | src/vectors/vector2.ts:278-280 | A fresh, consistent two-component `Vector` holding `[x, y]`. |
| Vectors2D.ToVectorRoundTrip | src/vectors/vector2.ts:278-280 | `fromVector(v.toVector())` (with `fromVector` at lines 72-76) returns `v` exactly when its y is nonzero, otherwise `(x, x)`. |

## Findings

| source | as written | input that shows it | evidently intended | confidence | as-written member | corrected member |
|---|---|---|---|---|---|---|
| src/strings.ts:20-41 | `RegexpURI` carries the global flag, so `.test` resumes from the shared `lastIndex` left by the previous success | `isStringURI("/a")` twice: true, then false | a stateless match, the same answer on every call | high (not executed) | Strings.UriTestAsWritten (shown by Strings.RepeatedUriTestFails) | Strings.IsStringUri |

`RegexpKabob` (src/strings.ts:50) has the same flag, and the same remedy applies to `isStringKabob`. Both predicates are modelled as the stateless match.

## Left out

- Floating point: the model uses exact reals. It loses rounding, `NaN` propagation in the vector code, infinities apart from `Math.max()` of nothing, and the double range.
- `Vectors.Construct`: a count of `NaN` or `Infinity` is not modelled. `NaN` would leave `#count` as `NaN` with no components; `Infinity` would loop without end.
- `Vectors.Construct`: the `Vector` and `Vector2` arguments are snapshots of their state, so both copies are fresh values. `Create` promises a fresh object, so later changes to either vector cannot affect the other.
- `Vectors2D.Construct2`: the parse of the string branch (`regexpNumbers`, `parseFloat`) is an abstract list of numbers. Only its "exactly two values" rule is kept. `regexpNumbers` is not part of this model.
- `vecToArray`, `get`, `setComponent` and `toArray`, which `vector2.ts` imports but `vector.ts` does not define, are taken as:
  - `vecToArray(other, 2)` is an already-converted pair, and `vecToArray(m, 2)` for a number is `(m, m)`;
  - `get(i)` and `toArray()` read the components;
  - `setComponent` and the accessors' `super.set` write them.
  
  So the `TypeError` that `add`/`subtract`/`multiply` re-throw when the conversion fails is not modelled.
- `Vectors2D.Map`, `Vectors2D.MapWith`: the callbacks receive only the component values, not the index and array arguments.
- `Vectors2D.Vector2.Fill`, `Reset`, `Set`: they return nothing, where the source returns `this` for chaining.
- The other `Vector2` members:
  - `abs`, `ceil`, `clamp`, `floor`, `pow`, `round`, `sqrt` and `trunc` are `map` with a floating-point function;
  - `divide` divides by possibly-zero reals;
  - `rotate`, `rotateDeg`, `rotateAround`, `angleBetween`, `distance`, `normalize`, `project`, `random`, `randomRange` and `randomUnit` are trigonometric, square-root or random.
- The method re-binding in the `Vector2` constructor, the `TypedMap` iterator and the `forEach*` wrappers only route calls.
- `TypedMap.values` and `entries` are further views of the same dictionary in key order; the model exposes `Keys` and `Get`.
- `TypedMap`, `objectNestedAssign`: key order is insertion order. The JavaScript rule that integer-like keys come first is not modelled, nor are the `__proto__` key, inherited properties and null-prototype objects.
- `Objects.ObjectNestedAssign`: the model works on values. It does not capture that the target and nested objects are changed in place and may be shared with the sources (for example a target passed again as a source).
- `Arrays.InPlaceConcat`: the arrays to append are values. Appending `target` to itself and the argument limit of `Function.prototype.apply` are not modelled.
- `Arrays.FlattenArray`, `Arrays.ArrayEnsureSize`: depth and size are integers. Fractional values and sparse arrays are not modelled.
- `Objects.SameType`: a plain object compared with an array finds its `length` and `every` missing. An object with its own `length` and `every` members is not modelled.
- MathHelpers.IsOdd, MathHelpers.IsEven: `decimals` is an integer. The source accepts any number there, and a fractional `decimals` scales by an irrational `Math.pow(10, decimals)`, which exact reals cannot represent.
- `MathHelpers.WrapToPositive`: the range must be positive. For a negative input and `range <= 0` the source does not terminate.
- `src/math.ts` `precisionRound`, `precisionFloor`, `precisionCeil`, `precisionModulo` and `equals` depend on binary floating-point rounding and `Number.EPSILON`.
- `src/random.ts` and `src/functions.ts` depend on `Math.random`, the clock and timers. The `index` re-export files and the compiled `lib/` copies are not part of this model.
