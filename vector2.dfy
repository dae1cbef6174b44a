/**
 * `Vector2`, the two-component specialisation of `Vector`: its constructor modes,
 * the in-place `set`/`fill`/`reset` and axis setters, and the operations that build a
 * new `Vector2` from the components of an existing one.
 */
module Vectors2D {
  import opened Wrappers
  import opened Vectors

  /** The two components, x at index 0 and y at index 1. */
  datatype Pair = Pair(x: real, y: real)

  const Origin: Pair := Pair(0.0, 0.0)

  /** The `TypeError`s the `Vector2` constructor and `set` throw. */
  datatype Vector2Error =
    | SecondArgumentNotNumber  // a truthy second argument that is not a number
    | StringNotParsed          // a string in which no number was found
    | WrongValueCount(found: nat)  // a string holding other than two numbers
    | ArrayHasTwoEntries       // an array of exactly two entries
    | ArrayEntryNotNumber      // an array with a non-number entry
    | ObjectWithoutAxes        // a plain object with neither a numeric `x` nor `y`
    | NullArgument             // `null`, on which `Object.keys` throws
    | SetValueNotNumber        // `set` given a non-number

  /** Numbers as arguments. */
  function AsArgs(values: seq<real>): (r: seq<Arg>)
    ensures |r| == |values| && AllNumbers(r)
    ensures forall i :: 0 <= i < |values| ==> r[i] == Num(values[i])
  {
    seq(|values|, i requires 0 <= i < |values| => Num(values[i]))
  }

  /**
   * What `set(...values)` makes of components `p`: every value must be a number; the
   * first, if any, becomes x, the second, if any, becomes y, and the rest are
   * ignored.
   */
  function SetValues(p: Pair, values: seq<Arg>): (r: Result<Pair, Vector2Error>)
    ensures r.Err? <==> !AllNumbers(values)
    ensures r.Err? ==> r.error == SetValueNotNumber
    ensures r.Ok? && values == [] ==> r.value == p
    ensures r.Ok? && |values| == 1 ==> r.value == Pair(values[0].n, p.y)
    ensures r.Ok? && |values| >= 2 ==> r.value == Pair(values[0].n, values[1].n)
  {
    if exists i :: 0 <= i < |values| && !values[i].Num? then Err(SetValueNotNumber)
    else if |values| == 0 then Ok(p)
    else if |values| == 1 then Ok(Pair(values[0].n, p.y))
    else Ok(Pair(values[0].n, values[1].n))
  }

  /** Values after the second never matter. */
  lemma SetValuesIgnoresRest(p: Pair, values: seq<Arg>)
    requires |values| >= 2 && AllNumbers(values)
    ensures SetValues(p, values) == SetValues(p, values[..2])
    ensures SetValues(p, values) == SetValues(Origin, values)
  {
    assert AllNumbers(values[..2]);
  }

  /** Whether a plain object has an own `axis` key holding a number (NaN is not modelled). */
  predicate HasAxis(fields: map<string, Arg>, axis: string)
  {
    axis in fields && fields[axis].Num?
  }

  /**
   * The components `new Vector2(arg, arg2)` starts with, or the error it throws. The
   * backing vector starts at the origin; a number with a falsy second argument fills
   * both axes with it, so a second argument of `0` is as good as none.
   */
  function Construct2(arg: Arg, arg2: Arg): (r: Result<Pair, Vector2Error>)
    ensures arg.Undefined? || arg.Bool? ==> r == Ok(Origin)
    ensures arg.Num? && !Truthy(arg2) ==> r == Ok(Pair(arg.n, arg.n))
    ensures arg.Num? && arg2.Num? && arg2.n != 0.0 ==> r == Ok(Pair(arg.n, arg2.n))
    ensures arg.Num? && Truthy(arg2) && !arg2.Num? ==> r == Err(SecondArgumentNotNumber)
    ensures arg.Str? ==>
              (r.Ok? <==> |arg.tokens| == 2)
              && (r.Err? ==> r.error == if arg.tokens == [] then StringNotParsed else WrongValueCount(|arg.tokens|))
              && (r.Ok? ==> r.value == Pair(arg.tokens[0], arg.tokens[1]))
    ensures arg.Arr? ==>
              (r.Ok? <==> |arg.items| != 2 && AllNumbers(arg.items))
              && (r.Err? ==> r.error == if |arg.items| == 2 then ArrayHasTwoEntries else ArrayEntryNotNumber)
              && (r.Ok? && arg.items == [] ==> r.value == Origin)
              && (r.Ok? && |arg.items| == 1 ==> r.value == Pair(arg.items[0].n, 0.0))
              && (r.Ok? && |arg.items| > 2 ==> r.value == Pair(arg.items[0].n, arg.items[1].n))
    ensures arg.Vec2? ==> r == Ok(Pair(arg.x, arg.y))
    ensures arg.Vec? ==>
              r.Ok?
              && (arg.components == [] ==> r.value == Origin)
              && (|arg.components| == 1 ==> r.value == Pair(arg.components[0], 0.0))
              && (|arg.components| >= 2 ==> r.value == Pair(arg.components[0], arg.components[1]))
    ensures arg.Record? ==>
              (r.Ok? <==> HasAxis(arg.fields, "x") || HasAxis(arg.fields, "y"))
              && (r.Err? ==> r.error == ObjectWithoutAxes)
              && (r.Ok? ==> r.value.x == (if HasAxis(arg.fields, "x") then arg.fields["x"].n else 0.0)
                            && r.value.y == (if HasAxis(arg.fields, "y") then arg.fields["y"].n else 0.0))
    ensures arg.Null? ==> r == Err(NullArgument)
  {
    match arg
    case Num(n) =>
      if Truthy(arg2) then
        if !arg2.Num? then Err(SecondArgumentNotNumber) else SetValues(Origin, [arg, arg2])
      else Ok(Pair(n, n))
    case Str(_, tokens) =>
      if |tokens| == 0 then Err(StringNotParsed)
      else if |tokens| != 2 then Err(WrongValueCount(|tokens|))
      else SetValues(Origin, AsArgs(tokens))
    case Arr(items) =>
      if |items| == 2 then Err(ArrayHasTwoEntries)
      else if !AllNumbers(items) then Err(ArrayEntryNotNumber)
      else SetValues(Origin, items)
    case Vec2(x, y) => SetValues(Origin, AsArgs([x, y]))
    case Vec(_, components) => SetValues(Origin, AsArgs(components))
    case Record(fields) =>
      if !HasAxis(fields, "x") && !HasAxis(fields, "y") then Err(ObjectWithoutAxes)
      else Ok(Pair(if HasAxis(fields, "x") then fields["x"].n else 0.0,
                   if HasAxis(fields, "y") then fields["y"].n else 0.0))
    case Null => Err(NullArgument)
    case Undefined => Ok(Origin)
    case Bool(_) => Ok(Origin)
  }

  /** `Vector2.IDENTITY`, built as `new Vector2(0)`, is the origin. */
  lemma IdentityIsOrigin()
    ensures Construct2(Num(0.0), Undefined) == Ok(Origin)
  {
  }

  /** The documented constructor examples, and the ones the truthiness test and the length-2 test produce. */
  lemma Construct2Examples()
    ensures Construct2(Num(5.0), Undefined) == Ok(Pair(5.0, 5.0))
    ensures Construct2(Num(3.0), Num(4.0)) == Ok(Pair(3.0, 4.0))
    ensures Construct2(Num(3.0), Num(0.0)) == Ok(Pair(3.0, 3.0))
    ensures Construct2(Arr([Num(3.0), Num(4.0)]), Undefined) == Err(ArrayHasTwoEntries)
    ensures Construct2(Arr([Num(3.0)]), Undefined) == Ok(Pair(3.0, 0.0))
    ensures Construct2(Arr([Num(3.0), Num(4.0), Num(5.0)]), Undefined) == Ok(Pair(3.0, 4.0))
    ensures Construct2(Str("1, 2", [1.0, 2.0]), Undefined) == Ok(Pair(1.0, 2.0))
    ensures Construct2(Str("1, 2, 3", [1.0, 2.0, 3.0]), Undefined) == Err(WrongValueCount(3))
    ensures Construct2(Record(map["y" := Num(7.0)]), Undefined) == Ok(Pair(0.0, 7.0))
    ensures Construct2(Record(map["z" := Num(7.0)]), Undefined) == Err(ObjectWithoutAxes)
  {
    assert HasAxis(map["y" := Num(7.0)], "y") && !HasAxis(map["y" := Num(7.0)], "x");
    assert !HasAxis(map["z" := Num(7.0)], "y") && !HasAxis(map["z" := Num(7.0)], "x");
  }

  /** Copying a `Vector2`, or a two-component `Vector`, reproduces its components whatever they are. */
  lemma CopyRoundTrip(p: Pair, arg2: Arg)
    ensures Construct2(Vec2(p.x, p.y), arg2) == Ok(p)
    ensures Construct2(Vec(Some(2), [p.x, p.y]), arg2) == Ok(p)
  {
  }

  /** `new Vector2(a, b)` for two numbers. */
  function NewVector2(a: real, b: real): (r: Pair)
    ensures b != 0.0 ==> r == Pair(a, b)
    ensures b == 0.0 ==> r == Pair(a, a)
  {
    Construct2(Num(a), Num(b)).value
  }

  /** A pair survives `new Vector2(x, y)` exactly when its y is not zero or equals its x. */
  lemma NewVector2KeepsPair(p: Pair)
    ensures NewVector2(p.x, p.y) == p <==> p.y != 0.0 || p.x == p.y
  {
  }

  /** `v.add(other)` for a vector with components `p` and an `other` that converts to a pair. */
  function Add(p: Pair, other: Pair): (r: Pair)
    ensures p.y + other.y != 0.0 ==> r == Pair(p.x + other.x, p.y + other.y)
    ensures p.y + other.y == 0.0 ==> r == Pair(p.x + other.x, p.x + other.x)
  {
    NewVector2(p.x + other.x, p.y + other.y)
  }

  /** `v.subtract(other)`. */
  function Subtract(p: Pair, other: Pair): (r: Pair)
    ensures p.y - other.y != 0.0 ==> r == Pair(p.x - other.x, p.y - other.y)
    ensures p.y - other.y == 0.0 ==> r == Pair(p.x - other.x, p.x - other.x)
  {
    NewVector2(p.x - other.x, p.y - other.y)
  }

  /** `v.multiply(other)`. */
  function Multiply(p: Pair, other: Pair): (r: Pair)
    ensures p.y * other.y != 0.0 ==> r == Pair(p.x * other.x, p.y * other.y)
    ensures p.y * other.y == 0.0 ==> r == Pair(p.x * other.x, p.x * other.x)
  {
    NewVector2(p.x * other.x, p.y * other.y)
  }

  /** `v.scale(mult)`, which multiplies by the number `mult`, converted to the pair `(mult, mult)`. */
  function Scale(p: Pair, mult: real): (r: Pair)
    ensures p.y * mult != 0.0 ==> r == Pair(p.x * mult, p.y * mult)
    ensures p.y * mult == 0.0 ==> r == Pair(p.x * mult, p.x * mult)
  {
    Multiply(p, Pair(mult, mult))
  }

  /** `v.map(func)`: `func` applied to each component, the results passed to `new Vector2`. */
  function Map(p: Pair, f: real -> real): (r: Pair)
    ensures f(p.y) != 0.0 ==> r == Pair(f(p.x), f(p.y))
    ensures f(p.y) == 0.0 ==> r == Pair(f(p.x), f(p.x))
  {
    NewVector2(f(p.x), f(p.y))
  }

  /**
   * `v.mapWith(other, func)`: the two results are passed to `new Vector2` as one
   * array of two entries, which the constructor rejects.
   */
  function MapWith(p: Pair, other: Pair, f: (real, real) -> real): (r: Result<Pair, Vector2Error>)
    ensures r == Err(ArrayHasTwoEntries)
  {
    Construct2(Arr([Num(f(p.x, other.x)), Num(f(p.y, other.y))]), Undefined)
  }

  /** `v.dotProduct(other)`. */
  function DotProduct(p: Pair, other: Pair): (r: real)
    ensures other == p ==> r >= 0.0
    ensures other == Origin ==> r == 0.0
  {
    p.x * other.x + p.y * other.y
  }

  lemma DotProductIsSymmetric(p: Pair, q: Pair)
    ensures DotProduct(p, q) == DotProduct(q, p)
  {
  }

  /** The dot product is linear in each argument wherever the rebuilt vector keeps its y. */
  lemma DotProductIsLinear(p: Pair, r: Pair, q: Pair, k: real)
    ensures p.y * k != 0.0 ==> DotProduct(Scale(p, k), q) == k * DotProduct(p, q)
    ensures p.y + r.y != 0.0 ==> DotProduct(Add(p, r), q) == DotProduct(p, q) + DotProduct(r, q)
  {
    if p.y * k != 0.0 {
      assert Scale(p, k) == Pair(p.x * k, p.y * k);
      assert (p.x * k) * q.x + (p.y * k) * q.y == k * (p.x * q.x + p.y * q.y);
    }
  }

  /** The collapse on a zero y makes `add` lose information ... */
  lemma AddCollapses()
    ensures Add(Pair(1.0, 1.0), Pair(2.0, -1.0)) == Pair(3.0, 3.0)
    ensures Add(Pair(1.0, 1.0), Pair(2.0, -1.0)) == Add(Pair(0.0, 2.0), Pair(3.0, -2.0))
  {
  }

  /** ... but when no y along the way is zero, `subtract` undoes `add`. */
  lemma SubtractUndoesAdd(p: Pair, other: Pair)
    requires p.y != 0.0 && p.y + other.y != 0.0
    ensures Subtract(Add(p, other), other) == p
  {
  }

  lemma AddIsCommutative(p: Pair, q: Pair)
    ensures Add(p, q) == Add(q, p)
  {
  }

  /** Scaling by 1, or mapping with the identity, keeps a vector whose y is not 0. */
  lemma ScaleByOne(p: Pair)
    requires p.y != 0.0
    ensures Scale(p, 1.0) == p
    ensures Map(p, t => t) == p
  {
  }

  /**
   * `Vector2.fromVector(vec)`: the first component (undefined when there is none) and,
   * when the count is at least 2, the second, passed to `new Vector2`; so a missing or
   * zero second component gives a vector filled with the first.
   */
  function FromVector(vec: Vector): (r: Pair)
    reads vec
    ensures vec.components == [] ==> r == Origin
    ensures |vec.components| >= 2 && vec.count.Some? && vec.count.value >= 2 && vec.components[1] != 0.0 ==>
              r == Pair(vec.components[0], vec.components[1])
    ensures |vec.components| >= 1 && !(|vec.components| >= 2 && vec.count.Some? && vec.count.value >= 2
                                        && vec.components[1] != 0.0) ==>
              r == Pair(vec.components[0], vec.components[0])
  {
    var xArg := if |vec.components| > 0 then Num(vec.components[0]) else Undefined;
    var yArg := if vec.count.Some? && vec.count.value >= 2 then
                  (if |vec.components| > 1 then Num(vec.components[1]) else Undefined)
                else Num(0.0);
    Construct2(xArg, yArg).value
  }

  /** A `Vector2` object. */
  class Vector2 {
    var x: real
    var y: real

    function Components(): Pair
      reads this
    {
      Pair(x, y)
    }

    /** The object after `super(2)`: a backing vector of two zero components. */
    constructor AtOrigin()
      ensures Components() == Origin
    {
      x := 0.0;
      y := 0.0;
    }

    /** The `x` setter: writes index 0 only. */
    method SetX(value: real)
      modifies this
      ensures x == value && y == old(y)
    {
      x := value;
    }

    /** The `y` setter: writes index 1 only. */
    method SetY(value: real)
      modifies this
      ensures y == value && x == old(x)
    {
      y := value;
    }

    method Fill(value: real)
      modifies this
      ensures Components() == Pair(value, value)
    {
      SetX(value);
      SetY(value);
    }

    method Reset()
      modifies this
      ensures Components() == Origin
    {
      Fill(0.0);
    }

    /** `set(...values)`: `SetValues` applied to the components in place; on a throw nothing changes. */
    method Set(values: seq<Arg>) returns (r: Result<(), Vector2Error>)
      modifies this
      ensures r.Err? <==> SetValues(old(Components()), values).Err?
      ensures r.Err? ==> r.error == SetValueNotNumber && Components() == old(Components())
      ensures r.Ok? ==> Components() == SetValues(old(Components()), values).value
    {
      if exists i :: 0 <= i < |values| && !values[i].Num? {
        return Err(SetValueNotNumber);
      }
      if |values| != 0 {
        SetX(values[0].n);
        if |values| >= 2 {
          SetY(values[1].n);
        }
      }
      r := Ok(());
    }

    /**
     * `new Vector2(arg, arg2)`: a fresh object whose components are `Construct2(arg, arg2)`,
     * reached through `fill`, `set` and the axis setters, or the error the constructor throws.
     */
    static method Create(arg: Arg, arg2: Arg) returns (r: Result<Vector2, Vector2Error>)
      ensures r.Ok? <==> Construct2(arg, arg2).Ok?
      ensures r.Err? ==> r.error == Construct2(arg, arg2).error
      ensures r.Ok? ==> fresh(r.value) && r.value.Components() == Construct2(arg, arg2).value
    {
      var v := new Vector2.AtOrigin();
      match arg {
        case Num(n) =>
          if Truthy(arg2) {
            if !arg2.Num? {
              return Err(SecondArgumentNotNumber);
            }
            var _ := v.Set([arg, arg2]);
          } else {
            v.Fill(n);
          }
        case Str(_, tokens) =>
          if |tokens| == 0 {
            return Err(StringNotParsed);
          }
          if |tokens| != 2 {
            return Err(WrongValueCount(|tokens|));
          }
          var _ := v.Set(AsArgs(tokens));
        case Arr(items) =>
          if |items| == 2 {
            return Err(ArrayHasTwoEntries);
          }
          if exists i :: 0 <= i < |items| && !items[i].Num? {
            return Err(ArrayEntryNotNumber);
          }
          var _ := v.Set(items);
        case Vec2(x, y) =>
          var _ := v.Set(AsArgs([x, y]));
        case Vec(_, components) =>
          var _ := v.Set(AsArgs(components));
        case Record(fields) =>
          var valid := false;
          if HasAxis(fields, "x") {
            v.SetX(fields["x"].n);
            valid := true;
          }
          if HasAxis(fields, "y") {
            v.SetY(fields["y"].n);
            valid := true;
          }
          if !valid {
            return Err(ObjectWithoutAxes);
          }
        case Null =>
          return Err(NullArgument);
        case Undefined =>
        case Bool(_) =>
      }
      r := Ok(v);
    }

    /** `toVector()`: `new Vector(x, y)`, a fresh two-component vector. */
    method ToVector() returns (vec: Vector)
      ensures fresh(vec) && vec.State() == VectorState(Some(2), [x, y]) && vec.Valid()
    {
      var made := Vector.Create(Num(x), [Num(y)]);
      vec := made.value;
    }
  }

  /** Converting to a `Vector` and back keeps the components exactly when the y-component is not zero. */
  lemma ToVectorRoundTrip(vec: Vector, p: Pair)
    requires vec.State() == VectorState(Some(2), [p.x, p.y])
    ensures p.y != 0.0 ==> FromVector(vec) == p
    ensures p.y == 0.0 ==> FromVector(vec) == Pair(p.x, p.x)
  {
  }
}
