/**
 * Text helpers of the generator: indentation, argument lists, aligned
 * parameter declarations, the consumer member-function declaration, the
 * selection patterns and the platform guard of a feature.
 */
module Declarations {
  import opened Wrappers
  import opened PyStr
  import opened ValueInfos
  import opened TypeNames

  /** Default indentation of generated C++ code. */
  const IndentSize := 4

  /** Default column at which parameter names are aligned (0 turns alignment off). */
  const DefaultAlignColumn := 48

  // ------------------------------------------------------------ indent

  /** The lines of `value`, each behind `spaces` blanks. */
  function PrefixedLines(value: string, spaces: int): (r: seq<string>)
    ensures |r| == |Split(value, '\n')|
  {
    var lines := Split(value, '\n');
    seq(|lines|, k requires 0 <= k < |lines| => Spaces(spaces) + lines[k])
  }

  /** Every line of `value` indented by `spaces` blanks. */
  function Indent(value: string, spaces: int): string {
    Join(PrefixedLines(value, spaces), "\n")
  }

  /** Indenting keeps the line structure: line k of the result is line k of the input behind the blanks. */
  lemma IndentLines(value: string, spaces: int)
    ensures Split(Indent(value, spaces), '\n') == PrefixedLines(value, spaces)
  {
    var lines := Split(value, '\n');
    var pl := PrefixedLines(value, spaces);
    SplitPiecesFree(value, '\n');
    forall k | 0 <= k < |pl| ensures '\n' !in pl[k] {
      assert pl[k] == Spaces(spaces) + lines[k];
      assert '\n' !in Spaces(spaces);
    }
    SplitJoinExact(pl, '\n');
  }

  /** Taking the blanks off every line of an indented text gives the text back. */
  lemma IndentUndone(value: string, spaces: int)
    ensures var n := if spaces < 0 then 0 else spaces;
      var lines := Split(Indent(value, spaces), '\n');
      (forall k :: 0 <= k < |lines| ==> |lines[k]| >= n && AllSpace(lines[k][..n]))
      && Join(seq(|lines|, k requires 0 <= k < |lines| => Slice(lines[k], n, |lines[k]|)), "\n") == value
  {
    var n := if spaces < 0 then 0 else spaces;
    IndentLines(value, spaces);
    var lines := Split(Indent(value, spaces), '\n');
    var orig := Split(value, '\n');
    var stripped := seq(|lines|, k requires 0 <= k < |lines| => Slice(lines[k], n, |lines[k]|));
    forall k | 0 <= k < |lines| ensures |lines[k]| >= n && AllSpace(lines[k][..n]) && stripped[k] == orig[k] {
      assert lines[k] == Spaces(spaces) + orig[k];
      assert lines[k][..n] == Spaces(spaces);
    }
    assert stripped == orig;
    JoinSplit(value, '\n');
  }

  /** An indent of zero (or less) changes nothing. */
  lemma IndentZero(value: string, spaces: int)
    requires spaces <= 0
    ensures Indent(value, spaces) == value
  {
    var lines := Split(value, '\n');
    assert PrefixedLines(value, spaces) == lines by {
      forall k | 0 <= k < |lines| ensures PrefixedLines(value, spaces)[k] == lines[k] {
        assert Spaces(spaces) == [];
      }
    }
    JoinSplit(value, '\n');
  }

  // ------------------------------------------------------------ argument list

  function Names(values: seq<ValueInfo>): (r: seq<string>)
    ensures |r| == |values|
  {
    seq(|values|, k requires 0 <= k < |values| => values[k].name)
  }

  /** The value names separated by ", ". */
  function ArgList(values: seq<ValueInfo>): string {
    Join(Names(values), ", ")
  }

  /**
   * The argument list names every value in order: when no name holds a comma,
   * splitting at the commas gives the first name and every later one behind a
   * blank; no values give the empty list.
   */
  lemma ArgListSplit(values: seq<ValueInfo>)
    requires forall k :: 0 <= k < |values| ==> ',' !in values[k].name
    ensures values == [] ==> ArgList(values) == ""
    ensures values != [] ==>
      Split(ArgList(values), ',') ==
        [values[0].name] + seq(|values| - 1, k requires 0 <= k < |values| - 1 => " " + values[k + 1].name)
  {
    if values != [] {
      var names := Names(values);
      assert ", " == [','] + " ";
      SplitJoin(names, ',', " ");
      var rest := seq(|names| - 1, k requires 0 <= k < |names| - 1 => " " + names[k + 1]);
      assert rest == seq(|values| - 1, k requires 0 <= k < |values| - 1 => " " + values[k + 1].name);
    }
  }

  // ------------------------------------------------------------ aligned declaration

  /**
   * `type name` behind `indentColumn` blanks; when `alignColumn` is non-zero
   * the type is padded so the blank before the name sits at index
   * `alignColumn - 1`.
   */
  function AlignedParamDecl(paramType: string, paramName: string, indentColumn: int, alignColumn: int): string {
    var decl := Spaces(indentColumn) + paramType;
    var padded := if alignColumn != 0 then LJust(decl, alignColumn - 1) else decl;
    padded + " " + paramName
  }

  /**
   * The declaration is the indented type, blanks only, then the name; the name
   * starts at index `alignColumn` unless alignment is off or the type runs
   * past the column, when one blank separates them.
   */
  lemma AlignedParamDeclSpec(paramType: string, paramName: string, indentColumn: int, alignColumn: int)
    ensures var r := AlignedParamDecl(paramType, paramName, indentColumn, alignColumn);
      var ind := if indentColumn < 0 then 0 else indentColumn;
      var typeEnd := ind + |paramType|;
      var nameAt := if alignColumn != 0 && typeEnd < alignColumn then alignColumn else typeEnd + 1;
      |r| == nameAt + |paramName|
      && AllSpace(r[..ind]) && r[ind..typeEnd] == paramType
      && (forall k :: typeEnd <= k < nameAt ==> r[k] == ' ')
      && r[nameAt..] == paramName
  {
    var decl := Spaces(indentColumn) + paramType;
    if alignColumn != 0 {
      LJustSpec(decl, alignColumn - 1);
    }
    var padded := if alignColumn != 0 then LJust(decl, alignColumn - 1) else decl;
    var r := padded + " " + paramName;
    var ind := if indentColumn < 0 then 0 else indentColumn;
    assert r[..ind] == Spaces(indentColumn);
    assert r[ind..ind + |paramType|] == paramType;
  }

  // ------------------------------------------------------------ consumer declaration

  /** Pointer and struct wrappers are passed by const reference. */
  function ConsumerParamType(reg: TypeRegistry, value: ValueInfo): string {
    var t := DecodedParamType(reg, value).typeName;
    if Contains(t, "Decoder") || Contains(t, "Decoded_") then "const " + t + "&" else t
  }

  /** A pointer to or array of a struct: its struct-pointer decoder is passed by const reference. */
  lemma StructPointerParam(reg: TypeRegistry, value: ValueInfo)
    requires value.IsPointer() || value.IsArray()
    requires IsStruct(reg, value.baseType)
    ensures ConsumerParamType(reg, value) == "const " + DecodedParamType(reg, value).typeName + "&"
  {
    MarkedByReference(reg, value, "StructPointer", "<Decoded_" + value.baseType + ">");
  }

  /** A string or string array: its string decoder is passed by const reference. */
  lemma StringParam(reg: TypeRegistry, value: ValueInfo)
    requires value.IsPointer() || value.IsArray()
    requires !IsStruct(reg, value.baseType) && value.baseType == "char"
    ensures ConsumerParamType(reg, value) == "const " + DecodedParamType(reg, value).typeName + "&"
  {
    MarkedByReference(reg, value, if value.pointerCount > 1 then "StringArray" else "String", "");
  }

  /** An untyped array or pointer to pointer: its byte or address decoder is passed by const reference. */
  lemma UntypedPointerParam(reg: TypeRegistry, value: ValueInfo)
    requires !IsStruct(reg, value.baseType) && value.baseType == "void"
    requires value.IsArray() || value.pointerCount > 1
    ensures ConsumerParamType(reg, value) == "const " + DecodedParamType(reg, value).typeName + "&"
  {
    MarkedByReference(reg, value, "Pointer", if value.IsArray() then "<uint8_t>" else "<uint64_t>");
  }

  /** Any other pointer or array: its pointer decoder is passed by const reference. */
  lemma PointerDecoderParam(reg: TypeRegistry, value: ValueInfo)
    requires value.IsPointer() || value.IsArray()
    requires !IsStruct(reg, value.baseType) && value.baseType !in {"char", "void"}
    ensures ConsumerParamType(reg, value) == "const " + DecodedParamType(reg, value).typeName + "&"
  {
    MarkedByReference(reg, value, "Pointer", if IsHandle(reg, value.baseType) then "<HandleId>" else "<" + value.baseType + ">");
  }

  /**
   * Every decoder wrapper of a pointer or array is passed by const reference;
   * the one exception is a single untyped pointer, decoded as a plain 64-bit
   * address.
   */
  lemma PointerWrappersByReference(reg: TypeRegistry, value: ValueInfo)
    requires value.IsPointer() || value.IsArray()
    ensures (IsStruct(reg, value.baseType) || value.baseType != "void" || value.IsArray() || value.pointerCount > 1)
      <==> ConsumerParamType(reg, value) == "const " + DecodedParamType(reg, value).typeName + "&"
  {
    var b := value.baseType;
    if IsStruct(reg, b) {
      StructPointerParam(reg, value);
    } else if b == "char" {
      StringParam(reg, value);
    } else if b != "void" {
      PointerDecoderParam(reg, value);
    } else if value.IsArray() || value.pointerCount > 1 {
      UntypedPointerParam(reg, value);
    } else {
      NoMarker("uint64_t");
    }
  }

  lemma MarkedByReference(reg: TypeRegistry, value: ValueInfo, head: string, tail: string)
    requires DecodedParamType(reg, value).typeName == head + "Decoder" + tail
    ensures ConsumerParamType(reg, value) == "const " + DecodedParamType(reg, value).typeName + "&"
  {
    ContainsInfix(head, "Decoder", tail);
  }

  /** A struct passed by value becomes a const reference to its decoded form. */
  lemma StructByReference(reg: TypeRegistry, value: ValueInfo)
    requires !value.IsPointer() && !value.IsArray() && !IsFunctionPtr(value.baseType) && IsStruct(reg, value.baseType)
    ensures ConsumerParamType(reg, value) == "const Decoded_" + value.baseType + "&"
  {
    assert DecodedParamType(reg, value).typeName == "" + "Decoded_" + value.baseType;
    ContainsInfix("", "Decoded_", value.baseType);
  }

  /** The 64-bit address and the handle id are passed by value. */
  lemma ConsumerScalarsByValue(reg: TypeRegistry, value: ValueInfo)
    ensures DecodedParamType(reg, value).typeName in {"uint64_t", "HandleId"} ==>
      ConsumerParamType(reg, value) == DecodedParamType(reg, value).typeName
  {
    var t := DecodedParamType(reg, value).typeName;
    if t in {"uint64_t", "HandleId"} {
      NoMarker(t);
    }
  }

  /** The parameter lines of a consumer declaration: the return value first, unless it is void, then one per value. */
  function ParamDecls(reg: TypeRegistry, returnType: string, values: seq<ValueInfo>, alignColumn: int): seq<string> {
    ReturnLines(returnType, alignColumn)
    + seq(|values|, k requires 0 <= k < |values| => ValueLine(reg, values[k], alignColumn))
  }

  /** The `returnValue` line, present unless the return type is void. */
  function ReturnLines(returnType: string, alignColumn: int): seq<string> {
    if returnType != "void" then [AlignedParamDecl(returnType, "returnValue", IndentSize, alignColumn)] else []
  }

  /** The parameter line of one value. */
  function ValueLine(reg: TypeRegistry, value: ValueInfo, alignColumn: int): string {
    AlignedParamDecl(ConsumerParamType(reg, value), value.name, IndentSize, alignColumn)
  }

  /** `void name(` followed by the parameter lines joined by ",\n", or `void name()` when there are none. */
  function ConsumerFuncDecl(reg: TypeRegistry, returnType: string, name: string, values: seq<ValueInfo>, alignColumn: int): string {
    var decls := ParamDecls(reg, returnType, values, alignColumn);
    if |decls| > 0 then "void " + name + "(\n" + Join(decls, ",\n") + ")" else "void " + name + "()"
  }

  /** The parameter type of one value: pointer and struct wrappers become const references. */
  method MakeConsumerParamType(reg: TypeRegistry, value: ValueInfo) returns (paramType: string)
    ensures paramType == ConsumerParamType(reg, value)
  {
    paramType := DecodedParamType(reg, value).typeName;
    if Contains(paramType, "Decoder") || Contains(paramType, "Decoded_") {
      paramType := "const " + paramType + "&";
    }
  }

  /** Builds the parameter lines: the return value first, unless it is void, then one line per value. */
  method MakeParamDecls(reg: TypeRegistry, returnType: string, values: seq<ValueInfo>, alignColumn: int)
    returns (paramDecls: seq<string>)
    ensures paramDecls == ParamDecls(reg, returnType, values, alignColumn)
  {
    paramDecls := [];
    if returnType != "void" {
      paramDecls := paramDecls + [AlignedParamDecl(returnType, "returnValue", IndentSize, alignColumn)];
    }
    ghost var head := paramDecls;
    ghost var lines := seq(|values|, k requires 0 <= k < |values| => ValueLine(reg, values[k], alignColumn));
    assert head == ReturnLines(returnType, alignColumn);
    var i := 0;
    while i < |values|
      invariant 0 <= i <= |values|
      invariant paramDecls == head + lines[..i]
    {
      var paramType := MakeConsumerParamType(reg, values[i]);
      var paramDecl := AlignedParamDecl(paramType, values[i].name, IndentSize, alignColumn);
      assert paramDecl == lines[i];
      TakeSnoc(lines, i);
      SnocAssoc(head, lines[..i], paramDecl);
      paramDecls := paramDecls + [paramDecl];
      i := i + 1;
    }
    assert lines[..i] == lines;
  }

  /** Builds the consumer member-function declaration from its parameter lines. */
  method MakeConsumerFuncDecl(reg: TypeRegistry, returnType: string, name: string, values: seq<ValueInfo>, alignColumn: int)
    returns (decl: string)
    ensures decl == ConsumerFuncDecl(reg, returnType, name, values, alignColumn)
  {
    var paramDecls := MakeParamDecls(reg, returnType, values, alignColumn);
    if |paramDecls| > 0 {
      decl := "void " + name + "(\n" + Join(paramDecls, ",\n") + ")";
    } else {
      decl := "void " + name + "()";
    }
  }

  /**
   * There is one parameter line per value, plus one for a non-void return
   * value; the declaration is empty-handed exactly when the return type is
   * void and there are no values.
   */
  lemma ConsumerFuncDeclShape(reg: TypeRegistry, returnType: string, name: string, values: seq<ValueInfo>, alignColumn: int)
    ensures |ParamDecls(reg, returnType, values, alignColumn)| == |values| + (if returnType != "void" then 1 else 0)
    ensures ConsumerFuncDecl(reg, returnType, name, values, alignColumn) == "void " + name + "()"
      <==> returnType == "void" && values == []
  {
    var d := ConsumerFuncDecl(reg, returnType, name, values, alignColumn);
    var decls := ParamDecls(reg, returnType, values, alignColumn);
    if |decls| > 0 {
      assert |d| > |"void " + name + "()"|;
    }
  }

  /** A non-void return value comes first, typed as declared, indented, and named `returnValue`. */
  lemma ReturnValueDecl(reg: TypeRegistry, returnType: string, values: seq<ValueInfo>, alignColumn: int)
    requires returnType != "void"
    ensures var d := ParamDecls(reg, returnType, values, alignColumn)[0];
      EndsWith(d, " returnValue") && StartsWith(d, Spaces(IndentSize) + returnType)
  {
    DeclStartsWithType(returnType, "returnValue", alignColumn);
    DeclEndsWithName(returnType, "returnValue", alignColumn);
  }

  /** Value k has its own line, after the return value if any: indented, with its consumer parameter type and its name. */
  lemma ValueDecl(reg: TypeRegistry, returnType: string, values: seq<ValueInfo>, alignColumn: int, k: nat)
    requires k < |values|
    ensures var off := if returnType != "void" then 1 else 0;
      var d := ParamDecls(reg, returnType, values, alignColumn)[off + k];
      EndsWith(d, " " + values[k].name) && StartsWith(d, Spaces(IndentSize) + ConsumerParamType(reg, values[k]))
  {
    ParamDeclAt(reg, returnType, values, alignColumn, k);
    ValueLineShape(reg, values[k], alignColumn);
  }

  /** Line `off + k` of the parameter lines is the line of value k. */
  lemma ParamDeclAt(reg: TypeRegistry, returnType: string, values: seq<ValueInfo>, alignColumn: int, k: nat)
    requires k < |values|
    ensures var off := if returnType != "void" then 1 else 0;
      ParamDecls(reg, returnType, values, alignColumn)[off + k] == ValueLine(reg, values[k], alignColumn)
  {
    assert |ReturnLines(returnType, alignColumn)| == if returnType != "void" then 1 else 0;
  }

  /** The line of one value is indented, holds its consumer parameter type and ends with its name. */
  lemma ValueLineShape(reg: TypeRegistry, value: ValueInfo, alignColumn: int)
    ensures var d := ValueLine(reg, value, alignColumn);
      EndsWith(d, " " + value.name) && StartsWith(d, Spaces(IndentSize) + ConsumerParamType(reg, value))
  {
    var t := ConsumerParamType(reg, value);
    DeclStartsWithType(t, value.name, alignColumn);
    DeclEndsWithName(t, value.name, alignColumn);
  }

  /** An aligned declaration starts with the indented type. */
  lemma DeclStartsWithType(paramType: string, paramName: string, alignColumn: int)
    ensures StartsWith(AlignedParamDecl(paramType, paramName, IndentSize, alignColumn), Spaces(IndentSize) + paramType)
  {
    var decl := Spaces(IndentSize) + paramType;
    if alignColumn != 0 {
      LJustSpec(decl, alignColumn - 1);
    }
    var padded := if alignColumn != 0 then LJust(decl, alignColumn - 1) else decl;
    assert padded[..|decl|] == decl;
    var r := padded + " " + paramName;
    assert r[..|decl|] == padded[..|decl|];
  }

  /** An aligned declaration ends with a blank and the name. */
  lemma DeclEndsWithName(paramType: string, paramName: string, alignColumn: int)
    ensures EndsWith(AlignedParamDecl(paramType, paramName, IndentSize, alignColumn), " " + paramName)
  {
    var decl := Spaces(IndentSize) + paramType;
    var padded := if alignColumn != 0 then LJust(decl, alignColumn - 1) else decl;
    var r := padded + " " + paramName;
    assert r == padded + (" " + paramName);
  }

  // ------------------------------------------------------------ selection patterns

  /**
   * A regular expression matching exactly the listed names, or the default
   * pattern when the list is empty and a default is given.
   */
  function MakeREstring(names: seq<string>, default: Option<string>): string {
    if |names| > 0 || default.None? then "^(" + Join(names, "|") + ")$" else default.value
  }

  /**
   * The pattern is anchored and its alternatives are the names, in order,
   * whenever no name holds a '|'; with an empty list it is the default, or
   * the pattern that matches only the empty name.
   */
  lemma MakeREstringSpec(names: seq<string>, default: Option<string>)
    requires forall k :: 0 <= k < |names| ==> '|' !in names[k]
    ensures |names| == 0 && default.Some? ==> MakeREstring(names, default) == default.value
    ensures |names| == 0 && default.None? ==> MakeREstring(names, default) == "^()$"
    ensures |names| > 0 ==>
      var r := MakeREstring(names, default);
      StartsWith(r, "^(") && EndsWith(r, ")$") && Split(r[2..|r| - 2], '|') == names
  {
    if |names| > 0 {
      var inner := Join(names, "|");
      var r := "^(" + inner + ")$";
      assert r[2..|r| - 2] == inner;
      SplitJoinExact(names, '|');
    }
  }

  /** The selection patterns built when no lists are configured. */
  const AddExtensionsPat := MakeREstring([], None)
  const RemoveExtensionsPat := MakeREstring([], None)
  const EmitExtensionsPat := MakeREstring([], Some(".*"))
  const FeaturesPat := MakeREstring([], Some(".*"))

  /** With no lists configured nothing is added or removed, and every extension and feature is emitted. */
  lemma DefaultPatterns()
    ensures AddExtensionsPat == "^()$" && RemoveExtensionsPat == "^()$"
    ensures EmitExtensionsPat == ".*" && FeaturesPat == ".*"
  {
    MakeREstringSpec([], None);
    MakeREstringSpec([], Some(".*"));
  }

  // ------------------------------------------------------------ platform guard

  /** The preprocessor symbol guarding each platform's extensions. */
  const PlatformGuards: map<string, string> := map[
    "android" := "VK_USE_PLATFORM_ANDROID_KHR",
    "ios" := "VK_USE_PLATFORM_IOS_MVK",
    "macos" := "VK_USE_PLATFORM_MACOS_MVK",
    "mir" := "VK_USE_PLATFORM_MIR_KHR",
    "vi" := "VK_USE_PLATFORM_VI_NN",
    "wayland" := "VK_USE_PLATFORM_WAYLAND_KHR",
    "win32" := "VK_USE_PLATFORM_WIN32_KHR",
    "xcb" := "VK_USE_PLATFORM_XCB_KHR",
    "xlib" := "VK_USE_PLATFORM_XLIB_KHR",
    "xlib_xrandr" := "VK_USE_PLATFORM_XLIB_XRANDR_EXT"
  ]

  /** The guard of a feature's `platform` attribute, if it names a known platform. */
  function FeatureProtect(platform: Option<string>): Option<string> {
    if Truthy(platform) && platform.value in PlatformGuards then Some(PlatformGuards[platform.value]) else None
  }

  /** A feature is guarded exactly when its platform is one of the ten known ones. */
  lemma FeatureProtectSpec(platform: Option<string>)
    ensures FeatureProtect(platform).Some? <==> platform.Some? && platform.value in PlatformGuards
  {
  }

  /** Every guard is a `VK_USE_PLATFORM_` symbol. */
  lemma FeatureProtectPrefix(platform: Option<string>)
    ensures FeatureProtect(platform).Some? ==> StartsWith(FeatureProtect(platform).value, "VK_USE_PLATFORM_")
  {
  }

  /** Different platforms get different guards. */
  lemma FeatureProtectInjective(platform: Option<string>, other: Option<string>)
    ensures FeatureProtect(platform).Some? && FeatureProtect(platform) == FeatureProtect(other) ==> platform == other
  {
  }

  /** A text that holds a pattern holds the pattern's first character. */
  lemma {:induction false} ContainsHead(s: string, p: string)
    requires |p| > 0
    ensures Contains(s, p) ==> p[0] in s
    decreases |s|
  {
    if |s| > 0 {
      ContainsHead(s[1..], p);
      if StartsWith(s, p) {
        assert s[0] == p[0];
      }
    }
  }

  /** A text without a 'D' holds neither marker. */
  lemma NoMarker(t: string)
    requires 'D' !in t
    ensures !Contains(t, "Decoder") && !Contains(t, "Decoded_")
  {
    ContainsHead(t, "Decoder");
    ContainsHead(t, "Decoded_");
  }
}
