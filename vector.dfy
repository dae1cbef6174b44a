/**
 * The generic N-component `Vector`: its constructor, which reads the runtime shape of
 * its first argument (a count, a list of numbers, an array, another vector) and fills
 * the private `#count` and `#components` fields accordingly, or throws.
 */
module Vectors {
  import opened Wrappers

  /**
   * A constructor argument as the vector classes see it at run time. Numbers are
   * exact reals (NaN and the infinities are not modelled). A string carries its text
   * and the numbers a parse of it finds. An existing `Vector` or `Vector2` is passed
   * as a snapshot of its private state.
   */
  datatype Arg =
    | Num(n: real)
    | Str(text: string, tokens: seq<real>)
    | Arr(items: seq<Arg>)
    | Vec(count: Option<nat>, components: seq<real>)
    | Vec2(x: real, y: real)
    | Record(fields: map<string, Arg>)
    | Null
    | Undefined
    | Bool(b: bool)

  /** `!!arg`. */
  predicate Truthy(arg: Arg)
  {
    match arg
    case Num(n) => n != 0.0
    case Str(text, _) => text != ""
    case Bool(b) => b
    case Null => false
    case Undefined => false
    case _ => true
  }

  /** The `TypeError`s the constructor throws. */
  datatype VectorError =
    | NonNumericArgument  // a number followed by a non-number
    | NonPositiveCount    // a single number below 1
    | EmptyArray          // an array without entries
    | NonNumericEntry     // an array with a non-number entry
    | UnsupportedObject   // an object that is neither an array nor a `Vector`

  /** The private state of a vector: `#count`, which is left undefined by some branches, and `#components`. */
  datatype VectorState = VectorState(count: Option<nat>, components: seq<real>)

  /** The state invariant the constructor establishes: a defined count is the number of components. */
  predicate Consistent(count: Option<nat>, components: seq<real>)
  {
    count.Some? ==> count.value == |components|
  }

  predicate AllNumbers(args: seq<Arg>)
  {
    forall i :: 0 <= i < |args| ==> args[i].Num?
  }

  /** The values of arguments that are all numbers. */
  function Numbers(args: seq<Arg>): (r: seq<real>)
    requires AllNumbers(args)
    ensures |r| == |args| && forall i :: 0 <= i < |args| ==> r[i] == args[i].n
  {
    if args == [] then [] else Numbers(args[..|args| - 1]) + [args[|args| - 1].n]
  }

  function Zeros(n: nat): (r: seq<real>)
    ensures |r| == n && forall i :: 0 <= i < n ==> r[i] == 0.0
  {
    if n == 0 then [] else Zeros(n - 1) + [0.0]
  }

  /**
   * What `new Vector(arg, ...rest)` leaves in `#count` and `#components`, or the error it
   * throws. A string is parsed by nothing yet, and a value of a `typeof` the
   * constructor does not test leaves the count undefined and no components. A
   * `Vector` argument is copied, and any further arguments are ignored.
   */
  function Construct(arg: Arg, rest: seq<Arg>): (r: Result<VectorState, VectorError>)
    ensures arg.Num? && rest != [] ==>
              (r.Ok? <==> AllNumbers(rest))
              && (r.Err? ==> r.error == NonNumericArgument)
              && (r.Ok? ==> r.value.count == Some(|rest| + 1) && |r.value.components| == |rest| + 1
                            && r.value.components[0] == arg.n
                            && forall i :: 0 <= i < |rest| ==> r.value.components[i + 1] == rest[i].n)
    ensures arg.Num? && rest == [] ==>
              (r.Ok? <==> arg.n >= 1.0)
              && (r.Err? ==> r.error == NonPositiveCount)
              && (r.Ok? ==> r.value.count == Some(arg.n.Floor) && |r.value.components| == arg.n.Floor
                            && forall i :: 0 <= i < |r.value.components| ==> r.value.components[i] == 0.0)
    ensures arg.Arr? ==>
              (r.Ok? <==> arg.items != [] && AllNumbers(arg.items))
              && (r.Err? ==> r.error == if arg.items == [] then EmptyArray else NonNumericEntry)
              && (r.Ok? ==> r.value.count == Some(|arg.items|) && |r.value.components| == |arg.items|
                            && forall i :: 0 <= i < |arg.items| ==> r.value.components[i] == arg.items[i].n)
    ensures arg.Vec? ==> r == Ok(VectorState(arg.count, arg.components))
    ensures arg.Vec2? ==> r == Ok(VectorState(Some(2), [arg.x, arg.y]))
    ensures arg.Record? || arg.Null? ==> r == Err(UnsupportedObject)
    ensures arg.Str? || arg.Undefined? || arg.Bool? ==> r == Ok(VectorState(None, []))
    ensures r.Ok? && (arg.Vec? ==> Consistent(arg.count, arg.components)) ==>
              Consistent(r.value.count, r.value.components)
  {
    match arg
    case Num(n) =>
      if rest != [] then
        if !AllNumbers(rest) then Err(NonNumericArgument)
        else Ok(VectorState(Some(|rest| + 1), [n] + Numbers(rest)))
      else if n < 1.0 then Err(NonPositiveCount)
      else Ok(VectorState(Some(n.Floor), Zeros(n.Floor)))
    case Arr(items) =>
      if items == [] then Err(EmptyArray)
      else if !AllNumbers(items) then Err(NonNumericEntry)
      else Ok(VectorState(Some(|items|), Numbers(items)))
    case Vec(count, components) => Ok(VectorState(count, components))
    case Vec2(x, y) => Ok(VectorState(Some(2), [x, y]))
    case Record(_) => Err(UnsupportedObject)
    case Null => Err(UnsupportedObject)
    case Str(_, _) => Ok(VectorState(None, []))
    case Undefined => Ok(VectorState(None, []))
    case Bool(_) => Ok(VectorState(None, []))
  }

  /** The examples in the constructor's documentation. */
  lemma ConstructExamples()
    ensures Construct(Num(3.0), []) == Ok(VectorState(Some(3), [0.0, 0.0, 0.0]))
    ensures Construct(Num(5.0), [Num(10.0)]) == Ok(VectorState(Some(2), [5.0, 10.0]))
    ensures Construct(Arr([Num(3.0), Num(6.0), Num(9.0)]), []) == Ok(VectorState(Some(3), [3.0, 6.0, 9.0]))
    ensures Construct(Num(0.0), []) == Err(NonPositiveCount) && Construct(Num(-3.0), []) == Err(NonPositiveCount)
    ensures Construct(Num(3.0), [Str("str", [])]) == Err(NonNumericArgument)
    ensures Construct(Arr([]), []) == Err(EmptyArray)
    ensures Construct(Arr([Num(3.0), Str("string", [])]), []) == Err(NonNumericEntry)
  {
    assert (3.0).Floor == 3;
    assert Zeros(3) == [0.0, 0.0, 0.0];
    assert [Num(10.0)][..0] == [];
    assert Numbers([Num(10.0)]) == [10.0];
    assert [5.0] + [10.0] == [5.0, 10.0];
    assert Numbers([Num(3.0), Num(6.0), Num(9.0)]) == [3.0, 6.0, 9.0];
  }

  /**
   * The copy of a vector with trailing arguments is the plain copy: the arguments are
   * neither appended nor type-checked.
   */
  lemma CopyIgnoresTrailingArguments(count: Option<nat>, components: seq<real>, rest: seq<Arg>)
    ensures Construct(Vec(count, components), rest) == Construct(Vec(count, components), [])
    ensures Construct(Vec(Some(2), [3.0, 6.0]), [Num(9.0)]) == Ok(VectorState(Some(2), [3.0, 6.0]))
    ensures Construct(Vec(Some(2), [3.0, 6.0]), [Str("string", [])]).Ok?
  {
  }

  /** A `Vector` object. */
  class Vector {
    var count: Option<nat>
    var components: seq<real>

    ghost predicate Valid()
      reads this
    {
      Consistent(count, components)
    }

    function State(): VectorState
      reads this
    {
      VectorState(count, components)
    }

    /** The object before the constructor body runs: `#components` initialised to `[]`, `#count` unset. */
    constructor Blank()
      ensures count == None && components == []
    {
      count := None;
      components := [];
    }

    /** Writes the arguments, all numbers, one by one after the existing components. */
    method AppendNumbers(args: seq<Arg>)
      requires AllNumbers(args)
      modifies this
      ensures count == old(count)
      ensures components == old(components) + Numbers(args)
    {
      ghost var before := components;
      for ind := 0 to |args|
        invariant count == old(count)
        invariant components == before + Numbers(args[..ind])
      {
        assert args[..ind + 1][..ind] == args[..ind];
        components := components + [args[ind].n];
      }
      assert args[..|args|] == args;
    }

    /** Writes `k` zero components after the existing ones. */
    method AppendZeros(k: nat)
      modifies this
      ensures count == old(count)
      ensures components == old(components) + Zeros(k)
    {
      ghost var before := components;
      for ind := 0 to k
        invariant count == old(count)
        invariant components == before + Zeros(ind)
      {
        components := components + [0.0];
      }
    }

    /**
     * `new Vector(arg, ...rest)`: a fresh vector whose state is `Construct(arg, rest)`,
     * filled component by component, or the error the constructor throws.
     */
    static method Create(arg: Arg, rest: seq<Arg>) returns (r: Result<Vector, VectorError>)
      ensures r.Ok? <==> Construct(arg, rest).Ok?
      ensures r.Err? ==> r.error == Construct(arg, rest).error
      ensures r.Ok? ==> fresh(r.value) && r.value.State() == Construct(arg, rest).value
      ensures r.Ok? && (arg.Vec? ==> Consistent(arg.count, arg.components)) ==> r.value.Valid()
    {
      var v := new Vector.Blank();
      match arg {
      case Num(n) =>
        if rest != [] {
          if exists i :: 0 <= i < |rest| && !rest[i].Num? {
            return Err(NonNumericArgument);
          }
          v.count := Some(|rest| + 1);
          v.components := [n];
          v.AppendNumbers(rest);
        } else {
          if n < 1.0 {
            return Err(NonPositiveCount);
          }
          v.count := Some(n.Floor);
          v.AppendZeros(n.Floor);
        }
      case Arr(items) =>
        if |items| == 0 {
          return Err(EmptyArray);
        }
        if exists i :: 0 <= i < |items| && !items[i].Num? {
          return Err(NonNumericEntry);
        }
        v.count := Some(|items|);
        v.components := Numbers(items);
      case Vec(count, components) =>
        v.count := count;
        v.components := components;
      case Vec2(x, y) =>
        v.count := Some(2);
        v.components := [x, y];
      case Record(_) =>
        return Err(UnsupportedObject);
      case Null =>
        return Err(UnsupportedObject);
      case Str(_, _) =>
      case Undefined =>
      case Bool(_) =>
      }
      r := Ok(v);
    }
  }
}
