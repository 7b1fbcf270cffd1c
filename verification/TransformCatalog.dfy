/**
  The closed set of functions a transform may call: their signatures, the type check of a call,
  and the literals a call widens to its column's type.
 */
module TransformCatalog {
  import opened RowModel
  import opened Digits

  type int64 = x: int | -0x8000_0000_0000_0000 <= x < 0x8000_0000_0000_0000

  /** A float literal is carried as its shortest 'f' spelling, the only form the compiler reads. */
  datatype Literal = StringLit(s: string) | IntLit(n: int64) | FloatLit(spelling: string) | BoolLit(b: bool)

  /** What the compiler knows about a compiled expression; literal is set exactly for a constant. */
  datatype ArgType = ArgType(valueType: ValueType, literal: Option<Literal>)

  datatype ArgSpec = ArgSpec(types: seq<Logical>, literal: bool, column: bool, optional: bool, variadic: bool)

  datatype FunctionSpec = FunctionSpec(args: seq<ArgSpec>, result: Logical, sameType: bool, returnsInput: bool)
  {
    /** The spec of argument i, repeating the last one. */
    function ArgAt(i: nat): ArgSpec
      requires |args| > 0
    {
      if i < |args| then args[i] else args[|args| - 1]
    }

    function Variadic(): bool { |args| > 0 && args[|args| - 1].variadic }

    function Required(): nat { Mandatory(args) + (if Variadic() then 1 else 0) }
  }

  function Mandatory(args: seq<ArgSpec>): nat {
    if args == [] then 0 else
      (if !args[0].optional && !args[0].variadic then 1 else 0) + Mandatory(args[1..])
  }

  const STRING: seq<Logical> := [String]
  const BOOL: seq<Logical> := [Bool]
  const INT64: seq<Logical> := [Int64]
  const HASH: seq<Logical> := [String, UUID, Int16, Int32, Int64]
  const FLOAT: seq<Logical> := [Float32, Float64]
  const NUMERIC: seq<Logical> := [Int16, Int32, Int64, Float32, Float64]
  const TEMPORAL: seq<Logical> := [Date, Timestamp, TimestampTZ]
  const ORDERABLE: seq<Logical> :=
    [Int16, Int32, Int64, Float32, Float64, Decimal, Date, Time, Timestamp, TimestampTZ]

  function Column(types: seq<Logical>): ArgSpec { ArgSpec(types, false, true, false, false) }
  function Columns(types: seq<Logical>): ArgSpec { ArgSpec(types, false, true, false, true) }
  function Constant(types: seq<Logical>): ArgSpec { ArgSpec(types, true, false, false, false) }
  function OptionalConstant(types: seq<Logical>): ArgSpec { ArgSpec(types, true, false, true, false) }
  function Any(types: seq<Logical>): ArgSpec { ArgSpec(types, false, false, false, false) }
  function Anys(types: seq<Logical>): ArgSpec { ArgSpec(types, false, false, false, true) }

  function Unary(types: seq<Logical>, result: Logical): FunctionSpec {
    FunctionSpec([Column(types)], result, result == Unknown, result == Unknown)
  }
  function Digest(): FunctionSpec { FunctionSpec([Columns(HASH)], String, false, false) }
  function Arithmetic(): FunctionSpec { FunctionSpec([Any(NUMERIC), Any(NUMERIC)], Unknown, true, true) }
  function Comparison(types: seq<Logical>): FunctionSpec { FunctionSpec([Any(types), Any(types)], Bool, true, false) }
  function Junction(): FunctionSpec { FunctionSpec([Any(BOOL), Any(BOOL)], Bool, true, false) }

  /** What every signature of the table has: a column argument, or values that share a column's type. */
  predicate WellFormed(spec: FunctionSpec) {
    && |spec.args| > 0 && !spec.args[0].optional && (spec.args[0].variadic ==> |spec.args| == 1)
    && (spec.sameType || spec.args[0].column)
    && (spec.returnsInput ==> spec.sameType)
    && (!spec.returnsInput ==> spec.result != Unknown)
  }

  /** catalogByName. */
  function Lookup(name: string): (spec: Option<FunctionSpec>)
    ensures spec.Some? ==> WellFormed(spec.value)
  {
    match name
    case "lower" => Some(Unary(STRING, String))
    case "upper" => Some(Unary(STRING, String))
    case "trim" => Some(Unary(STRING, String))
    case "length" => Some(Unary(STRING, Int64))
    case "replace" => Some(FunctionSpec([Column(STRING), Constant(STRING), Constant(STRING)], String, false, false))
    case "substring" =>
      Some(FunctionSpec([Column(STRING), Constant(INT64), OptionalConstant(INT64)], String, false, false))
    case "concat" => Some(FunctionSpec([Anys(STRING)], String, true, false))
    case "regex_match" => Some(FunctionSpec([Column(STRING), Constant(STRING)], Bool, false, false))
    case "regex_extract" =>
      Some(FunctionSpec([Column(STRING), Constant(STRING), OptionalConstant(INT64)], String, false, false))
    case "regex_replace" =>
      Some(FunctionSpec([Column(STRING), Constant(STRING), Constant(STRING)], String, false, false))
    case "md5" => Some(Digest())
    case "sha1" => Some(Digest())
    case "sha256" => Some(Digest())
    case "sha512" => Some(Digest())
    case "add" => Some(Arithmetic())
    case "sub" => Some(Arithmetic())
    case "mul" => Some(Arithmetic())
    case "div" => Some(Arithmetic())
    case "abs" => Some(FunctionSpec([Column(NUMERIC)], Unknown, true, true))
    case "floor" => Some(Unary(FLOAT, Unknown))
    case "ceil" => Some(Unary(FLOAT, Unknown))
    case "round" => Some(FunctionSpec([Column(FLOAT), OptionalConstant(INT64)], Unknown, true, true))
    case "eq" => Some(Comparison([]))
    case "neq" => Some(Comparison([]))
    case "gt" => Some(Comparison(ORDERABLE))
    case "gte" => Some(Comparison(ORDERABLE))
    case "lt" => Some(Comparison(ORDERABLE))
    case "lte" => Some(Comparison(ORDERABLE))
    case "and" => Some(Junction())
    case "or" => Some(Junction())
    case "not" => Some(Unary(BOOL, Bool))
    case "is_null" => Some(FunctionSpec([Column([])], Bool, false, false))
    case "coalesce" => Some(FunctionSpec([Anys([])], Unknown, true, true))
    case "to_date" => Some(FunctionSpec([Column(STRING)], Date, false, false))
    case "year" => Some(Unary(TEMPORAL, Int64))
    case "month" => Some(Unary(TEMPORAL, Int64))
    case "day" => Some(Unary(TEMPORAL, Int64))
    case _ => None
  }

  /** Whether a regular expression compiles, and how many groups it then has. */
  type Patterns = string -> Option<nat>

  function IntAt(args: seq<ArgType>, i: nat): int {
    if i < |args| && args[i].literal.Some? && args[i].literal.value.IntLit? then args[i].literal.value.n else 0
  }

  function TextAt(args: seq<ArgType>, i: nat): string {
    if i < |args| && args[i].literal.Some? && args[i].literal.value.StringLit? then args[i].literal.value.s else ""
  }

  /** The rules of one function that span its arguments. */
  predicate Validate(patterns: Patterns, name: string, args: seq<ArgType>) {
    match name
    case "substring" => (|args| > 1 ==> IntAt(args, 1) >= 1) && IntAt(args, 2) >= 0
    case "regex_match" => patterns(TextAt(args, 1)).Some?
    case "regex_replace" => patterns(TextAt(args, 1)).Some?
    case "regex_extract" =>
      && patterns(TextAt(args, 1)).Some?
      && (|args| > 2 ==> 0 <= IntAt(args, 2) <= patterns(TextAt(args, 1)).value)
    case _ => true
  }

  predicate ArgAccepted(a: ArgSpec, arg: ArgType) {
    && !(a.column && arg.literal.Some?)
    && !(a.literal && arg.literal.None?)
    && (|a.types| > 0 ==> arg.valueType.logical in a.types)
  }

  /** The first argument that is a value and not a constant. */
  function FirstValue(spec: FunctionSpec, args: seq<ArgType>, from: nat): (i: nat)
    requires |spec.args| > 0 && from <= |args|
    ensures from <= i <= |args|
    ensures i < |args| ==> args[i].literal.None? && !spec.ArgAt(i).literal
    ensures forall j :: from <= j < i ==> args[j].literal.Some? || spec.ArgAt(j).literal
    decreases |args| - from
  {
    if from == |args| || (args[from].literal.None? && !spec.ArgAt(from).literal) then from
    else FirstValue(spec, args, from + 1)
  }

  /** The type a call's values share, when a column fixes one. */
  function Target(spec: FunctionSpec, args: seq<ArgType>): Option<ValueType>
    requires |spec.args| > 0
  {
    var i := FirstValue(spec, args, 0);
    if i < |args| && args[i].valueType.logical != Unknown then Some(args[i].valueType) else None
  }

  /** sharedType: every value argument has the target's type, precision and scale included. */
  function SharedType(spec: FunctionSpec, args: seq<ArgType>): Option<ValueType>
    requires |spec.args| > 0
  {
    var target := Target(spec, args);
    if target.Some? && forall i :: 0 <= i < |args| && !spec.ArgAt(i).literal ==> args[i].valueType == target.value
    then target else None
  }

  /** function.check: the result type of a call, or None when an argument is refused. */
  function Check(patterns: Patterns, name: string, spec: FunctionSpec, args: seq<ArgType>): (ret: Option<ValueType>)
    requires |spec.args| > 0
  {
    if |args| < spec.Required() || (!spec.Variadic() && |args| > |spec.args|) then None
    else if exists i :: 0 <= i < |args| && !ArgAccepted(spec.ArgAt(i), args[i]) then None
    else if spec.sameType && SharedType(spec, args).None? then None
    else if !Validate(patterns, name, args) then None
    else if spec.returnsInput then (if spec.sameType then SharedType(spec, args) else Some(ValueType(Unknown, 0, 0)))
    else Some(ValueType(spec.result, 0, 0))
  }

  method FindTarget(spec: FunctionSpec, args: seq<ArgType>) returns (target: Option<ValueType>)
    requires |spec.args| > 0
    ensures target == Target(spec, args)
  {
    for i := 0 to |args|
      invariant FirstValue(spec, args, 0) == FirstValue(spec, args, i)
    {
      if args[i].literal.None? && !spec.ArgAt(i).literal {
        return if args[i].valueType.logical != Unknown then Some(args[i].valueType) else None;
      }
    }
    return None;
  }

  method FindSharedType(spec: FunctionSpec, args: seq<ArgType>) returns (shared: Option<ValueType>)
    requires |spec.args| > 0
    ensures shared == SharedType(spec, args)
  {
    shared := FindTarget(spec, args);
    if shared.None? { return; }
    for i := 0 to |args|
      invariant forall j :: 0 <= j < i && !spec.ArgAt(j).literal ==> args[j].valueType == shared.value
    {
      if !spec.ArgAt(i).literal && args[i].valueType != shared.value { return None; }
    }
  }

  /** check, argument by argument. */
  method CheckCall(patterns: Patterns, name: string, spec: FunctionSpec, args: seq<ArgType>)
    returns (ret: Option<ValueType>)
    requires |spec.args| > 0
    ensures ret == Check(patterns, name, spec, args)
  {
    if |args| < spec.Required() || (!spec.Variadic() && |args| > |spec.args|) { return None; }
    for i := 0 to |args|
      invariant forall j :: 0 <= j < i ==> ArgAccepted(spec.ArgAt(j), args[j])
    {
      if !ArgAccepted(spec.ArgAt(i), args[i]) { return None; }
    }
    var shared := ValueType(Unknown, 0, 0);
    if spec.sameType {
      var found := FindSharedType(spec, args);
      if found.None? { return None; }
      shared := found.value;
    }
    if !Validate(patterns, name, args) { return None; }
    return Some(if spec.returnsInput then shared else ValueType(spec.result, 0, 0));
  }

  /**
    Every call the catalog admits has a column-shaped argument, so its result has a column's shape,
    and its result type is known.
   */
  lemma CallHasColumn(patterns: Patterns, name: string, spec: FunctionSpec, args: seq<ArgType>)
    requires WellFormed(spec) && Check(patterns, name, spec, args).Some?
    ensures exists i :: 0 <= i < |args| && args[i].literal.None?
    ensures Check(patterns, name, spec, args).value.logical != Unknown
  {
    assert spec.Required() > 0;
    assert ArgAccepted(spec.ArgAt(0), args[0]);
  }
}
