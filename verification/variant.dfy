/**
 * `Variant_t`, the tagged union of an unsigned int, an int, a string, a
 * three-float vector and a 4x4 float matrix.  A variant is built once by
 * one of five constructors and only read afterwards, so it is a value
 * here: the integer tag `flag` and the active member.  The getters are
 * modelled twice: as written (`GetAsWritten`), where every getter tests
 * the unsigned tag and none of them returns a value, and as evidently
 * intended (`Get`), where each getter tests its own tag.
 */
module Variants {
  import opened Wrappers
  import opened Geometry

  type U32 = n: int | 0 <= n < 0x1_0000_0000
  type I32 = n: int | -0x8000_0000 <= n < 0x8000_0000
  type Mat4 = m: seq<real> | |m| == 16
    witness [0.0, 0.0, 0.0, 0.0, 0.0, 0.0, 0.0, 0.0, 0.0, 0.0, 0.0, 0.0, 0.0, 0.0, 0.0, 0.0]

  const FlagUint: int := 0
  const FlagInt: int := 1
  const FlagStr: int := 2
  const FlagVf3: int := 3
  const FlagMf4: int := 4

  /** The five member types a getter can ask for. */
  datatype Kind = UintKind | IntKind | StrKind | Vf3Kind | Mf4Kind

  /** The member that a constructor stored. */
  datatype Value =
    | UintValue(u: U32)
    | IntValue(i: I32)
    | StrValue(s: string)
    | Vf3Value(v: Vertex)
    | Mf4Value(m: Mat4)

  datatype Variant = Variant(flag: int, value: Value)

  datatype Error =
    | RuntimeError(msg: string)
      /** Control reached the end of a getter without a `return`. */
    | NoReturnValue

  const UnknownInnerType: string := "Variant_t : unknown inner type"

  function KindOf(v: Value): Kind
  {
    match v
    case UintValue(_) => UintKind
    case IntValue(_) => IntKind
    case StrValue(_) => StrKind
    case Vf3Value(_) => Vf3Kind
    case Mf4Value(_) => Mf4Kind
  }

  /** The tag each kind is stored under. */
  function FlagOf(k: Kind): (f: int)
    ensures 0 <= f < 5
  {
    match k
    case UintKind => FlagUint
    case IntKind => FlagInt
    case StrKind => FlagStr
    case Vf3Kind => FlagVf3
    case Mf4Kind => FlagMf4
  }

  /** The type name a getter puts in its message as the requested type. */
  function KindName(k: Kind): string
  {
    match k
    case UintKind => "uint"
    case IntKind => "int"
    case StrKind => "str"
    case Vf3Kind => "vf3"
    case Mf4Kind => "mf4"
  }

  /** The tag agrees with the stored member, as every constructor leaves it. */
  predicate Tagged(v: Variant)
  {
    v.flag == FlagOf(KindOf(v.value))
  }

  // ---------------------------------------------------------------------------
  // The five constructors

  function FromUint(d: U32): (r: Variant)
    ensures Tagged(r) && r.flag == FlagUint && r.value.UintValue? && r.value.u == d
  {
    Variant(FlagUint, UintValue(d))
  }

  function FromInt(d: I32): (r: Variant)
    ensures Tagged(r) && r.flag == FlagInt && r.value.IntValue? && r.value.i == d
  {
    Variant(FlagInt, IntValue(d))
  }

  function FromString(s: string): (r: Variant)
    ensures Tagged(r) && r.flag == FlagStr && r.value.StrValue? && r.value.s == s
  {
    Variant(FlagStr, StrValue(s))
  }

  function FromVec3(v3: Vertex): (r: Variant)
    ensures Tagged(r) && r.flag == FlagVf3 && r.value.Vf3Value? && r.value.v == v3
  {
    Variant(FlagVf3, Vf3Value(v3))
  }

  function FromMat4(m4: Mat4): (r: Variant)
    ensures Tagged(r) && r.flag == FlagMf4 && r.value.Mf4Value? && r.value.m == m4
  {
    Variant(FlagMf4, Mf4Value(m4))
  }

  // ---------------------------------------------------------------------------
  // `get_flag_string`

  /** The name of a tag; any tag outside 0..4 raises. */
  function FlagName(flag: int): (r: Result<string, Error>)
    ensures r.Success? <==> 0 <= flag < 5
    ensures r.Failure? ==> r.error == RuntimeError(UnknownInnerType)
    ensures r.Success? ==> r.value in {"uint", "int", "str", "vf3", "mf4"}
  {
    if flag == FlagUint then Success("uint")
    else if flag == FlagInt then Success("int")
    else if flag == FlagStr then Success("str")
    else if flag == FlagVf3 then Success("vf3")
    else if flag == FlagMf4 then Success("mf4")
    else Failure(RuntimeError(UnknownInnerType))
  }

  /**
   * The tag of each kind is named by the getter name of that kind, and
   * distinct tags have distinct names, so the name identifies the tag.
   */
  lemma FlagNameOfKind(k: Kind, f: int, g: int)
    ensures FlagName(FlagOf(k)) == Success(KindName(k))
    ensures FlagName(f).Success? && FlagName(g).Success? && FlagName(f) == FlagName(g) ==> f == g
  {
  }

  /** The message of a getter whose tag test failed. */
  function Mismatch(requested: Kind, actual: string): string
  {
    "Variant_t : requested type '" + KindName(requested) + "' does not match actual type '" + actual + "'"
  }

  // ---------------------------------------------------------------------------
  // The getters as written

  /**
   * `getUint`, `getInt`, `getVec3`, `getMat4` and `getString` as written:
   * each raises its mismatch message (or the unknown-tag error raised while
   * building it) unless the tag is the unsigned one, and otherwise leaves
   * the function without returning anything.
   */
  function GetAsWritten(v: Variant, requested: Kind): (r: Result<Value, Error>)
    ensures r.Failure?
    ensures v.flag == FlagUint <==> r.error == NoReturnValue
    ensures 0 <= v.flag < 5 && v.flag != FlagUint ==>
      r.error == RuntimeError(Mismatch(requested, FlagName(v.flag).value))
  {
    if v.flag != FlagUint then
      match FlagName(v.flag)
      case Failure(e) => Failure(e)
      case Success(actual) => Failure(RuntimeError(Mismatch(requested, actual)))
    else
      Failure(NoReturnValue)
  }

  /**
   * The discrepancy: asking an int variant for its int raises the message
   * that requested type 'int' does not match actual type 'int', and asking a uint variant for its uint
   * yields no value.
   */
  lemma GetterRejectsOwnType(d: I32, e: U32)
    ensures GetAsWritten(FromInt(d), IntKind) == Failure(RuntimeError(Mismatch(IntKind, KindName(IntKind))))
    ensures GetAsWritten(FromUint(e), UintKind) == Failure(NoReturnValue)
  {
  }

  // ---------------------------------------------------------------------------
  // The getters as evidently intended

  /** Each getter tests its own tag and returns the stored member. */
  function Get(v: Variant, requested: Kind): (r: Result<Value, Error>)
    requires Tagged(v)
    ensures r.Success? <==> KindOf(v.value) == requested
    ensures r.Success? ==> r.value == v.value
    ensures r.Failure? ==> r.error == RuntimeError(Mismatch(requested, KindName(KindOf(v.value))))
  {
    if v.flag != FlagOf(requested) then
      match FlagName(v.flag)
      case Failure(e) => Failure(e)
      case Success(actual) => Failure(RuntimeError(Mismatch(requested, actual)))
    else
      Success(v.value)
  }

  /** A value read back through the getter of its own kind is the value stored. */
  lemma GetReturnsStored(u: U32, i: I32, s: string, v3: Vertex, m4: Mat4)
    ensures Get(FromUint(u), UintKind) == Success(UintValue(u))
    ensures Get(FromInt(i), IntKind) == Success(IntValue(i))
    ensures Get(FromString(s), StrKind) == Success(StrValue(s))
    ensures Get(FromVec3(v3), Vf3Kind) == Success(Vf3Value(v3))
    ensures Get(FromMat4(m4), Mf4Kind) == Success(Mf4Value(m4))
  {
  }

  /**
   * On every variant whose tag is a known one, the intended getter and the
   * written one raise the same message whenever the requested kind is not
   * the stored one and the stored kind is not uint; they differ exactly on
   * the two groups of calls `GetterRejectsOwnType` exhibits.
   */
  lemma GetAgreesOffTheFaultyCases(v: Variant, requested: Kind)
    requires Tagged(v) && KindOf(v.value) != requested && KindOf(v.value) != UintKind
    ensures Get(v, requested) == GetAsWritten(v, requested)
  {
  }
}
