/**
 * Type classification against the registry of known type names, and the two
 * naming rules built on it: the token that names encoder/decoder functions,
 * and the wrapper type that holds a decoded parameter.
 */
module TypeNames {
  import opened Wrappers
  import opened PyStr
  import opened ValueInfos

  /** The generator's type-name sets, plus the platform-defined structs. */
  datatype TypeRegistry = TypeRegistry(
    structNames: set<string>,
    handleNames: set<string>,
    flagsNames: set<string>,
    enumNames: set<string>,
    platformStructs: seq<string>)

  /** Types that stand for pointers to non-Vulkan objects, written as 64-bit addresses. */
  const ExternalObjectTypes: seq<string> := ["void", "Void", "AHardwareBuffer"]

  predicate IsStruct(reg: TypeRegistry, baseType: string) {
    baseType in reg.structNames || baseType in reg.platformStructs
  }

  predicate IsHandle(reg: TypeRegistry, baseType: string) {
    baseType in reg.handleNames
  }

  predicate IsEnum(reg: TypeRegistry, baseType: string) {
    baseType in reg.enumNames
  }

  predicate IsFlags(reg: TypeRegistry, baseType: string) {
    baseType in reg.flagsNames
  }

  /** `baseType[:4] == 'PFN_'`. */
  predicate IsFunctionPtr(baseType: string) {
    Slice(baseType, 0, 4) == "PFN_"
  }

  lemma FunctionPtrIsPrefix(baseType: string)
    ensures IsFunctionPtr(baseType) <==> StartsWith(baseType, "PFN_")
  {
  }

  /**
   * An input pointer: its type is `const`, or it was substituted from a
   * platform type written without any '*'.
   */
  predicate IsInputPointer(value: ValueInfo) {
    Contains(value.fullType, "const")
    || (Truthy(value.platformFullType) && GetPointerCount(value.platformFullType.value) == 0)
  }

  /** A platform type written without '*' (an opaque handle such as HANDLE) is taken as input, whatever replaces it. */
  lemma SubstitutedOpaqueIsInput(pt: map<string, PlatformType>, d: Decl, siblings: seq<Decl>)
    requires d.typeText in pt
    requires '*' !in d.leadingText + d.typeText + d.typeTail
    requires RawFullType(d) != []
    ensures IsInputPointer(Describe(pt, d, siblings))
  {
    CountZero(d.leadingText + d.typeText + d.typeTail, '*');
    assert !IsSpace('*');
    StripKeepsCount(d.leadingText + d.typeText + d.typeTail, '*');
  }

  /** Whether some value takes `name` as its array length (first match wins, so this is a plain search). */
  predicate IsArrayLen(name: string, values: seq<ValueInfo>)
    decreases |values|
  {
    |values| > 0 && (values[0].arrayLength == Some(name) || IsArrayLen(name, values[1..]))
  }

  lemma {:induction false} IsArrayLenSpec(name: string, values: seq<ValueInfo>)
    ensures IsArrayLen(name, values) <==> exists i :: 0 <= i < |values| && values[i].arrayLength == Some(name)
    decreases |values|
  {
    if |values| > 0 {
      IsArrayLenSpec(name, values[1..]);
      if IsArrayLen(name, values[1..]) {
        var i :| 0 <= i < |values[1..]| && values[1..][i].arrayLength == Some(name);
        assert values[i + 1].arrayLength == Some(name);
      }
      if exists i :: 0 <= i < |values| && values[i].arrayLength == Some(name) {
        var i :| 0 <= i < |values| && values[i].arrayLength == Some(name);
        if i > 0 {
          assert values[1..][i - 1].arrayLength == Some(name);
        }
      }
    }
  }

  // -------------------------------------------------- invocation type name

  /** The categories the invocation-name rule tells apart, in the order it checks them. */
  datatype Category =
    | StructType | HandleType | FlagsType | EnumType | CharType | FunctionPointer
    | SizeType | IntType | UnsignedFixedWidth | FixedWidth | LowerLeading | Verbatim | EmptyName

  /** The ordered, total classification of a base type. */
  function Classify(reg: TypeRegistry, baseType: string): Category {
    if IsStruct(reg, baseType) then StructType
    else if IsHandle(reg, baseType) then HandleType
    else if IsFlags(reg, baseType) then FlagsType
    else if IsEnum(reg, baseType) then EnumType
    else if baseType == "char" then CharType
    else if IsFunctionPtr(baseType) then FunctionPointer
    else if baseType == "size_t" then SizeType
    else if baseType == "int" then IntType
    else if EndsWith(baseType, "_t") then (if baseType[0] == 'u' then UnsignedFixedWidth else FixedWidth)
    else if baseType == [] then EmptyName
    else if IsLowerChar(baseType[0]) then LowerLeading
    else Verbatim
  }

  /**
   * The type name used inside encoder/decoder function names. An empty name
   * that is no registered type fails the way `baseType[0]` does.
   */
  function InvocationTypeName(reg: TypeRegistry, baseType: string): Result<string> {
    match Classify(reg, baseType)
    case StructType => Ok(baseType)
    case HandleType => Ok("HandleId")
    case FlagsType => Ok("Flags")
    case EnumType => Ok("Enum")
    case CharType => Ok("String")
    case FunctionPointer => Ok("FunctionPtr")
    case SizeType => Ok("SizeT")
    case IntType => Ok("Int32")
    case UnsignedFixedWidth => Ok([Upper(baseType[0]), Upper(baseType[1])] + Slice(baseType, 2, -2))
    case FixedWidth => Ok(Title(Slice(baseType, 0, -2)))
    case LowerLeading => Ok(Title(baseType))
    case Verbatim => Ok(baseType)
    case EmptyName => Failure("IndexError")
  }

  /**
   * The order of the checks: a registered struct keeps its name whatever
   * else it is; a handle, flags or enum set wins over every name pattern;
   * and for a type in none of those sets the fixed names `char`, `PFN_…`,
   * `size_t` and `int` win over the `_t` and case rules.
   */
  lemma ClassifyOrder(reg: TypeRegistry, b: string)
    ensures IsStruct(reg, b) ==> InvocationTypeName(reg, b) == Ok(b)
    ensures !IsStruct(reg, b) && IsHandle(reg, b) ==> InvocationTypeName(reg, b) == Ok("HandleId")
    ensures !IsStruct(reg, b) && !IsHandle(reg, b) && IsFlags(reg, b) ==> InvocationTypeName(reg, b) == Ok("Flags")
    ensures !IsStruct(reg, b) && !IsHandle(reg, b) && !IsFlags(reg, b) && IsEnum(reg, b) ==>
      InvocationTypeName(reg, b) == Ok("Enum")
    ensures Classify(reg, b) in {CharType, FunctionPointer, SizeType, IntType, UnsignedFixedWidth, FixedWidth, LowerLeading, Verbatim, EmptyName}
      <==> !IsStruct(reg, b) && !IsHandle(reg, b) && !IsFlags(reg, b) && !IsEnum(reg, b)
    ensures !IsStruct(reg, b) && !IsHandle(reg, b) && !IsFlags(reg, b) && !IsEnum(reg, b) ==>
      (b == "char" ==> InvocationTypeName(reg, b) == Ok("String"))
      && (b != "char" && IsFunctionPtr(b) ==> InvocationTypeName(reg, b) == Ok("FunctionPtr"))
      && (b == "size_t" ==> InvocationTypeName(reg, b) == Ok("SizeT"))
      && (b == "int" ==> InvocationTypeName(reg, b) == Ok("Int32"))
  {
    if b == "size_t" {
      assert Slice(b, 0, 4) == b[..4] == "size";
    } else if b == "int" {
      assert Slice(b, 0, 4) == b[..3] == "int";
    }
  }

  /** The rule fails only on the empty name, and only when no registry set holds it. */
  lemma InvocationTypeNameTotal(reg: TypeRegistry, b: string)
    ensures InvocationTypeName(reg, b).Failure? <==>
      b == [] && !IsStruct(reg, b) && !IsHandle(reg, b) && !IsFlags(reg, b) && !IsEnum(reg, b)
  {
  }

  /**
   * The shape of a name made from a pattern: an unsigned `u…_t` type loses
   * `_t` and gets its first two characters upper-cased; another `…_t` type
   * loses `_t` and is title-cased; a lower-case first letter is title-cased;
   * anything else is returned as it is.
   */
  lemma InvocationTypeNameShape(reg: TypeRegistry, b: string)
    ensures Classify(reg, b) == UnsignedFixedWidth ==>
      var r := InvocationTypeName(reg, b).value;
      |r| >= 2 && r[0] == 'U' && r[1] == Upper(b[1])
      && (|b| >= 4 ==> |r| == |b| - 2 && r[2..] == b[2..|b| - 2])
    ensures Classify(reg, b) == FixedWidth ==>
      var r := InvocationTypeName(reg, b).value;
      |r| == |b| - 2 && r == Title(b[..|b| - 2]) && (|r| > 0 && IsLetter(b[0]) ==> IsUpperChar(r[0]))
    ensures Classify(reg, b) == LowerLeading ==>
      var r := InvocationTypeName(reg, b).value;
      |r| == |b| && r[0] == Upper(b[0]) && IsUpperChar(r[0])
    ensures Classify(reg, b) == Verbatim ==> InvocationTypeName(reg, b) == Ok(b) && !IsLowerChar(b[0])
  {
    match Classify(reg, b)
    case UnsignedFixedWidth =>
    case FixedWidth =>
      var h := Slice(b, 0, -2);
      assert h == b[..|b| - 2];
      TitleSpec(h);
    case LowerLeading =>
      TitleSpec(b);
    case _ =>
  }

  /** With nothing registered, `uint32_t` is an unsigned fixed-width name. */
  lemma UnsignedClassify(reg: TypeRegistry)
    requires reg == TypeRegistry({}, {}, {}, {}, [])
    ensures Classify(reg, "uint32_t") == UnsignedFixedWidth
  {
    var b := "uint32_t";
    assert Slice(b, 0, 4) == b[..4] == "uint";
    assert b[|b| - 2..] == "_t";
  }

  /** With nothing registered, `uint32_t` names its functions with `UInt32`. */
  lemma UnsignedExample(reg: TypeRegistry)
    requires reg == TypeRegistry({}, {}, {}, {}, [])
    ensures InvocationTypeName(reg, "uint32_t") == Ok("UInt32")
  {
    var b := "uint32_t";
    UnsignedClassify(reg);
    assert Slice(b, 2, -2) == b[2..6] == "nt32";
    assert Upper(b[0]) == 'U' && Upper(b[1]) == 'I';
    assert [Upper(b[0]), Upper(b[1])] + Slice(b, 2, -2) == "UI" + "nt32" == "UInt32";
  }

  /** With nothing registered, `int32_t` is a signed fixed-width name. */
  lemma SignedClassify(reg: TypeRegistry)
    requires reg == TypeRegistry({}, {}, {}, {}, [])
    ensures Classify(reg, "int32_t") == FixedWidth
  {
    var b := "int32_t";
    assert Slice(b, 0, 4) == b[..4] == "int3";
    assert b[|b| - 2..] == "_t";
  }

  /** With nothing registered, `int32_t` names its functions with `Int32`. */
  lemma SignedExample(reg: TypeRegistry)
    requires reg == TypeRegistry({}, {}, {}, {}, [])
    ensures InvocationTypeName(reg, "int32_t") == Ok("Int32")
  {
    var b := "int32_t";
    SignedClassify(reg);
    assert Slice(b, 0, -2) == b[..5] == "int32";
    assert TitleFrom("", false) == "";
    assert TitleFrom("2", false) == "2";
    assert TitleFrom("32", true) == "32";
    assert TitleFrom("t32", true) == "t32";
    assert TitleFrom("nt32", true) == "nt32";
    assert Title("int32") == "Int32";
  }

  /** With nothing registered, `float` falls to the lower-case rule. */
  lemma LowerCaseClassify(reg: TypeRegistry)
    requires reg == TypeRegistry({}, {}, {}, {}, [])
    ensures Classify(reg, "float") == LowerLeading
  {
    var b := "float";
    assert Slice(b, 0, 4) == b[..4] == "floa";
    assert b[|b| - 2..] == "at";
  }

  /** With nothing registered, `float` is title-cased to `Float`. */
  lemma LowerCaseExample(reg: TypeRegistry)
    requires reg == TypeRegistry({}, {}, {}, {}, [])
    ensures InvocationTypeName(reg, "float") == Ok("Float")
  {
    LowerCaseClassify(reg);
    assert TitleFrom("", true) == "";
    assert TitleFrom("t", true) == "t";
    assert TitleFrom("at", true) == "at";
    assert TitleFrom("oat", true) == "oat";
    assert TitleFrom("loat", true) == "loat";
    assert Title("float") == "Float";
  }

  // -------------------------------------------------- decoded parameter type

  /** The decoded parameter type, and whether the unexpected-indirection warning fires. */
  datatype Decoded = Decoded(typeName: string, warning: bool)

  /** The wrapper type that holds a decoded parameter of this descriptor. */
  function DecodedParamType(reg: TypeRegistry, value: ValueInfo): Decoded {
    var b := value.baseType;
    if value.IsPointer() || value.IsArray() then
      var count := value.pointerCount;
      var warn := count > 1 && b != "char" && b !in ExternalObjectTypes;
      var name :=
        if IsStruct(reg, b) then "StructPointerDecoder<Decoded_" + b + ">"
        else if b == "char" then (if count > 1 then "StringArrayDecoder" else "StringDecoder")
        else if b == "void" then
          (if value.IsArray() then "PointerDecoder<uint8_t>"
           else if count > 1 then "PointerDecoder<uint64_t>"
           else "uint64_t")
        else if IsHandle(reg, b) then "PointerDecoder<HandleId>"
        else "PointerDecoder<" + b + ">";
      Decoded(name, warn)
    else if IsFunctionPtr(b) then Decoded("uint64_t", false)
    else if IsStruct(reg, b) then Decoded("Decoded_" + b, false)
    else if IsHandle(reg, b) then Decoded("HandleId", false)
    else Decoded(b, false)
  }

  /** The warning fires exactly for more than one level of indirection on a type that is neither `char` nor an external object. */
  lemma DecodedWarning(reg: TypeRegistry, value: ValueInfo)
    ensures DecodedParamType(reg, value).warning <==>
      value.pointerCount > 1 && value.baseType != "char" && value.baseType !in ExternalObjectTypes
  {
  }

  /**
   * Only the base type, the pointer count and array-ness decide the decoded
   * type: the name, the full type text, the capacity and the platform fields
   * play no part.
   */
  lemma DecodedDependsOnShape(reg: TypeRegistry, v: ValueInfo, w: ValueInfo)
    requires v.baseType == w.baseType && v.pointerCount == w.pointerCount && v.IsArray() == w.IsArray()
    ensures DecodedParamType(reg, v) == DecodedParamType(reg, w)
  {
  }

  /**
   * A pointer or array of a struct always gets the struct-pointer wrapper of
   * that struct, and a void pointer is a byte buffer when it is an array, an
   * address array when it is a pointer to pointer, and a plain address
   * otherwise.
   */
  lemma DecodedPointerTable(reg: TypeRegistry, v: ValueInfo)
    requires v.IsPointer() || v.IsArray()
    ensures IsStruct(reg, v.baseType) ==>
      DecodedParamType(reg, v).typeName == "StructPointerDecoder<Decoded_" + v.baseType + ">"
    ensures !IsStruct(reg, v.baseType) && v.baseType == "char" ==>
      DecodedParamType(reg, v).typeName == (if v.pointerCount > 1 then "StringArrayDecoder" else "StringDecoder")
    ensures !IsStruct(reg, v.baseType) && v.baseType == "void" ==>
      DecodedParamType(reg, v).typeName ==
        (if v.IsArray() then "PointerDecoder<uint8_t>"
         else if v.pointerCount > 1 then "PointerDecoder<uint64_t>"
         else "uint64_t")
    ensures !IsStruct(reg, v.baseType) && v.baseType !in {"char", "void"} && IsHandle(reg, v.baseType) ==>
      DecodedParamType(reg, v).typeName == "PointerDecoder<HandleId>"
    ensures !IsStruct(reg, v.baseType) && v.baseType !in {"char", "void"} && !IsHandle(reg, v.baseType) ==>
      DecodedParamType(reg, v).typeName == "PointerDecoder<" + v.baseType + ">"
  {
  }

  /**
   * A value that is neither a pointer nor an array is decoded as itself: a
   * function pointer as a 64-bit address, then a struct as its decoded
   * struct, then a handle as its id, and any other type unchanged. No
   * warning fires.
   */
  lemma DecodedScalarTable(reg: TypeRegistry, v: ValueInfo)
    requires !v.IsPointer() && !v.IsArray()
    ensures IsFunctionPtr(v.baseType) ==> DecodedParamType(reg, v) == Decoded("uint64_t", false)
    ensures !IsFunctionPtr(v.baseType) && IsStruct(reg, v.baseType) ==>
      DecodedParamType(reg, v) == Decoded("Decoded_" + v.baseType, false)
    ensures !IsFunctionPtr(v.baseType) && !IsStruct(reg, v.baseType) && IsHandle(reg, v.baseType) ==>
      DecodedParamType(reg, v) == Decoded("HandleId", false)
    ensures !IsFunctionPtr(v.baseType) && !IsStruct(reg, v.baseType) && !IsHandle(reg, v.baseType) ==>
      DecodedParamType(reg, v) == Decoded(v.baseType, false)
  {
  }

  /**
   * A wrapper names its element type between a fixed prefix and `>`, so two
   * wrappers with the same prefix agree only on the same element type. This
   * covers `StructPointerDecoder<Decoded_T>` and `PointerDecoder<T>` alike.
   */
  lemma WrapperInjective(prefix: string, a: string, b: string)
    requires prefix + a + ">" == prefix + b + ">"
    ensures a == b
  {
    var x, y := prefix + a + ">", prefix + b + ">";
    assert a == x[|prefix|..|x| - 1];
    assert b == y[|prefix|..|y| - 1];
  }
}
