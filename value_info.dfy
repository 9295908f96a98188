/**
 * Parameter and struct-member descriptors: the registry declaration as the
 * generator reads it, the `ValueInfo` record built from it, and the rules that
 * decide pointer depth, array length and capacity, and platform-type
 * substitution.
 */
module ValueInfos {
  import opened Wrappers
  import opened PyStr

  /** The `<enum>` child of a declaration: absent, or present with its text (which may be missing). */
  datatype EnumChild = NoEnum | EnumElem(text: Option<string>)

  /**
   * One `<param>` or `<member>` element. Texts the generator always passes
   * through `noneStr` are plain strings, a missing text being "". The name's
   * tail, the `len` attribute and the `<enum>` child keep their absence,
   * because the generator tests it.
   */
  datatype Decl = Decl(
    leadingText: string,       // the element's own text, before <type>
    nameText: string,          // <name>.text
    nameTail: Option<string>,  // <name>.tail, where a static array's "[N]" sits
    typeText: string,          // <type>.text
    typeTail: string,          // <type>.tail, where "*" and "const" sit
    len: Option<string>,       // the len attribute
    enumChild: EnumChild)      // the <enum> naming a static array's size

  /** A platform-types entry: the recognised base type, and the text that replaces the platform type. */
  datatype PlatformType = PlatformType(baseType: string, replaceWith: string)

  /** Descriptor of one parameter or struct member; the three flags are derived from the fields. */
  datatype ValueInfo = ValueInfo(
    name: string,
    baseType: string,
    fullType: string,
    pointerCount: nat,
    arrayLength: Option<string>,
    arrayCapacity: Option<string>,
    platformBaseType: Option<string>,
    platformFullType: Option<string>)
  {
    predicate IsPointer() { pointerCount > 0 }
    /** Python truthiness: an empty length is no length. */
    predicate IsArray() { Truthy(arrayLength) }
    predicate IsDynamic() { !Truthy(arrayCapacity) }
  }

  const NullTerminated := "null-terminated"

  /** The number of '*' in a type declaration. */
  function GetPointerCount(fullType: string): nat {
    Count(fullType, '*')
  }

  /** A static array has a '[' in the tail of its name. */
  predicate IsStaticArray(d: Decl) {
    d.nameTail.Some? && Contains(d.nameTail.value, "[")
  }

  /**
   * The length a declaration names: from a non-empty `len` attribute (strings
   * have none, string arrays the count before the comma, `::` becomes `->`),
   * else a static array's size (the `<enum>` text, else what is between the
   * brackets), else none.
   */
  function GetArrayLen(d: Decl): Option<string> {
    if Truthy(d.len) then
      var l := d.len.value;
      var result :=
        if Contains(l, NullTerminated) then
          (if l != NullTerminated then Some(Split(l, ',')[0]) else None)
        else Some(l);
      if Truthy(result) then Some(Replace(result.value, "::", "->")) else result
    else if IsStaticArray(d) then
      match d.enumChild
      case EnumElem(text) => text
      case NoEnum => Some(Slice(d.nameTail.value, 1, -1))
    else None
  }

  /** The sibling name that holds a static array's element count: the name without its last character, plus "Count". */
  function LengthName(name: string): string {
    Slice(name, 0, -1) + "Count"
  }

  predicate HasSiblingNamed(params: seq<Decl>, n: string) {
    exists i :: 0 <= i < |params| && params[i].nameText == n
  }

  /** The logical length of a static array: the count sibling if there is one, else the capacity. */
  function StaticArrayLen(name: string, params: seq<Decl>, capacity: Option<string>): Option<string> {
    if HasSiblingNamed(params, LengthName(name)) then Some(LengthName(name)) else capacity
  }

  /** The search the generator runs over the sibling declarations. */
  method GetStaticArrayLen(name: string, params: seq<Decl>, capacity: Option<string>)
    returns (r: Option<string>)
    ensures r == StaticArrayLen(name, params, capacity)
  {
    var lengthName := Slice(name, 0, -1) + "Count";
    var i := 0;
    while i < |params|
      invariant 0 <= i <= |params|
      invariant forall j :: 0 <= j < i ==> params[j].nameText != lengthName
    {
      if lengthName == params[i].nameText {
        return Some(lengthName);
      }
      i := i + 1;
    }
    return capacity;
  }

  /** The full type text before substitution: the element's text, the type and its tail, stripped. */
  function RawFullType(d: Decl): string {
    Strip(d.leadingText + d.typeText + d.typeTail)
  }

  /** One iteration of the descriptor loop: the descriptor of d among its siblings. */
  function Describe(platformTypes: map<string, PlatformType>, d: Decl, siblings: seq<Decl>): ValueInfo {
    var raw := RawFullType(d);
    var substituted := d.typeText in platformTypes;
    var baseType := if substituted then platformTypes[d.typeText].baseType else d.typeText;
    var fullType := if substituted then Replace(raw, d.typeText, platformTypes[d.typeText].replaceWith) else raw;
    var len0 := GetArrayLen(d);
    var isStatic := IsStaticArray(d);
    ValueInfo(
      name := d.nameText,
      baseType := baseType,
      fullType := fullType,
      pointerCount := GetPointerCount(fullType),
      arrayLength := if isStatic then StaticArrayLen(d.nameText, siblings, len0) else len0,
      arrayCapacity := if isStatic then len0 else None,
      platformBaseType := if substituted then Some(d.typeText) else None,
      platformFullType := if substituted then Some(raw) else None)
  }

  /** The descriptors of a whole parameter or member list, in order. */
  function DescribeAll(platformTypes: map<string, PlatformType>, decls: seq<Decl>): (r: seq<ValueInfo>)
    ensures |r| == |decls|
  {
    seq(|decls|, i requires 0 <= i < |decls| => Describe(platformTypes, decls[i], decls))
  }

  // ---------------------------------------------------------------- lemmas

  /** An empty `len` attribute is no `len` attribute. */
  lemma EmptyLenIsAbsent(d: Decl)
    requires d.len == Some([])
    ensures GetArrayLen(d) == GetArrayLen(d.(len := None))
  {
  }

  /**
   * The rules for a non-empty `len`: exactly "null-terminated" names no
   * length; another text holding "null-terminated" names the part before its
   * first comma; any other text is the length. Whatever is named holds no
   * `::` any more.
   */
  lemma ExplicitLenRules(d: Decl)
    requires Truthy(d.len)
    ensures d.len.value == NullTerminated ==> GetArrayLen(d) == None
    ensures Contains(d.len.value, NullTerminated) && d.len.value != NullTerminated ==>
      GetArrayLen(d) == Some(Replace(Split(d.len.value, ',')[0], "::", "->"))
    ensures !Contains(d.len.value, NullTerminated) ==> GetArrayLen(d) == Some(Replace(d.len.value, "::", "->"))
    ensures GetArrayLen(d).Some? ==> !Contains(GetArrayLen(d).value, "::")
  {
    var r := GetArrayLen(d);
    if r.Some? {
      if r.value == [] {
        assert !StartsWith(r.value, "::");
      } else {
        var l := d.len.value;
        if Contains(l, NullTerminated) {
          ScopeSeparatorGone(Split(l, ',')[0]);
        } else {
          ScopeSeparatorGone(l);
        }
      }
    }
  }

  /** "count,null-terminated" describes an array of strings whose length is `count`. */
  lemma StringArrayLen(d: Decl, count: string)
    requires d.len == Some(count + "," + NullTerminated)
    requires ',' !in count && ':' !in count
    ensures GetArrayLen(d) == Some(count)
  {
    var l := count + "," + NullTerminated;
    assert l == count + [','] + NullTerminated;
    ContainsAt(l, NullTerminated, |count| + 1);
    assert |l| != |NullTerminated|;
    SplitAtSeparator(count, NullTerminated, ',');
    assert Split(l, ',')[0] == count;
    NoColonNoScope(count);
    ReplaceAbsent(count, "::", "->");
  }

  lemma {:induction false} NoColonNoScope(s: string)
    requires ':' !in s
    ensures !Contains(s, "::")
    decreases |s|
  {
    if s != [] {
      assert s[0] != ':';
      assert ':' !in s[1..] by {
        assert forall k :: 0 <= k < |s[1..]| ==> s[1..][k] == s[k + 1];
      }
      NoColonNoScope(s[1..]);
    }
  }

  /**
   * One descriptor per declaration, in order: descriptor i describes
   * declaration i among all of them and carries its name.
   */
  lemma DescribeAllOrder(pt: map<string, PlatformType>, decls: seq<Decl>)
    ensures var r := DescribeAll(pt, decls);
      |r| == |decls|
      && forall i :: 0 <= i < |decls| ==> r[i] == Describe(pt, decls[i], decls) && r[i].name == decls[i].nameText
  {
  }

  /**
   * Platform substitution: both original-type fields are absent exactly when
   * the base type is no platform type; otherwise they hold the types before
   * substitution, the base type is the entry's, and every occurrence of the
   * platform type in the full type is replaced.
   */
  lemma DescribePlatform(pt: map<string, PlatformType>, d: Decl, siblings: seq<Decl>)
    ensures var r := Describe(pt, d, siblings);
      && (r.platformBaseType.None? && r.platformFullType.None? <==> d.typeText !in pt)
      && (r.platformBaseType.Some? <==> r.platformFullType.Some?)
      && (d.typeText in pt ==>
            && r.platformBaseType == Some(d.typeText)
            && r.platformFullType == Some(RawFullType(d))
            && r.baseType == pt[d.typeText].baseType
            && r.fullType == Replace(RawFullType(d), d.typeText, pt[d.typeText].replaceWith))
      && (d.typeText !in pt ==> r.baseType == d.typeText && r.fullType == RawFullType(d))
  {
  }

  /**
   * The pointer count is the number of '*' in the substituted full type: the
   * declaration's own count, changed by the replacement text's count for
   * every occurrence of the platform type.
   */
  lemma DescribePointerCount(pt: map<string, PlatformType>, d: Decl, siblings: seq<Decl>)
    ensures var r := Describe(pt, d, siblings);
      && r.pointerCount == Count(r.fullType, '*')
      && (r.IsPointer() <==> '*' in r.fullType)
      && (d.typeText !in pt ==> r.pointerCount == Count(d.leadingText + d.typeText + d.typeTail, '*'))
      && (d.typeText in pt ==>
            r.pointerCount == Count(d.leadingText + d.typeText + d.typeTail, '*')
              + Occurrences(RawFullType(d), d.typeText)
                * (Count(pt[d.typeText].replaceWith, '*') - Count(d.typeText, '*')))
  {
    var r := Describe(pt, d, siblings);
    assert !IsSpace('*');
    StripKeepsCount(d.leadingText + d.typeText + d.typeTail, '*');
    CountZero(r.fullType, '*');
    if d.typeText in pt {
      ReplaceCount(RawFullType(d), d.typeText, pt[d.typeText].replaceWith, '*');
    }
  }

  /**
   * Array classification: a declaration that is no static array keeps the
   * length it names and has no capacity; a static array's capacity is that
   * length, and its logical length is the count sibling when one exists and
   * the capacity otherwise.
   */
  lemma DescribeArray(pt: map<string, PlatformType>, d: Decl, siblings: seq<Decl>)
    ensures var r := Describe(pt, d, siblings);
      && (!IsStaticArray(d) ==> r.arrayLength == GetArrayLen(d) && r.arrayCapacity == None && r.IsDynamic())
      && (IsStaticArray(d) ==>
            && r.arrayCapacity == GetArrayLen(d)
            && (HasSiblingNamed(siblings, LengthName(d.nameText)) ==> r.arrayLength == Some(LengthName(d.nameText)))
            && (!HasSiblingNamed(siblings, LengthName(d.nameText)) ==> r.arrayLength == r.arrayCapacity))
      && (IsStaticArray(d) && !Truthy(d.len) ==>
            r.arrayCapacity == match d.enumChild
                               case EnumElem(text) => text
                               case NoEnum => Some(Slice(d.nameTail.value, 1, -1)))
  {
  }

  /** Whatever is not an array is dynamic: a static array always has a length when it has a capacity. */
  lemma NonArrayIsDynamic(pt: map<string, PlatformType>, d: Decl, siblings: seq<Decl>)
    ensures var r := Describe(pt, d, siblings);
      !r.IsArray() ==> r.IsDynamic()
  {
    var r := Describe(pt, d, siblings);
    if IsStaticArray(d) && HasSiblingNamed(siblings, LengthName(d.nameText)) {
      assert |LengthName(d.nameText)| >= 5;
    }
  }

  /** A plain string (`len="null-terminated"`) is no array. */
  lemma NullTerminatedIsNoArray(pt: map<string, PlatformType>, d: Decl, siblings: seq<Decl>)
    requires d.len == Some(NullTerminated) && !IsStaticArray(d)
    ensures var r := Describe(pt, d, siblings);
      !r.IsArray() && r.IsDynamic() && r.arrayLength == None
  {
    assert Truthy(d.len);
    ExplicitLenRules(d);
  }

  /** `uint32_t values[4]` beside `uint32_t valueCount`: capacity "4", length "valueCount", fixed storage. */
  lemma StaticArrayScenario()
    ensures var values := Decl("", "values", Some("[4]"), "uint32_t", "", None, NoEnum);
      var count := Decl("", "valueCount", None, "uint32_t", "", None, NoEnum);
      var r := Describe(map[], values, [values, count]);
      r.arrayCapacity == Some("4") && r.arrayLength == Some("valueCount") && !r.IsDynamic() && r.IsArray()
  {
    var values := Decl("", "values", Some("[4]"), "uint32_t", "", None, NoEnum);
    var count := Decl("", "valueCount", None, "uint32_t", "", None, NoEnum);
    assert StartsWith("[4]", "[");
    assert Contains("[4]", "[");
    assert Slice("[4]", 1, -1) == "4";
    assert Slice("values", 0, -1) == "value";
    assert LengthName("values") == "valueCount";
    assert [values, count][1].nameText == "valueCount";
  }

  /** "const void* const*" has pointer count 2. */
  lemma PointerCountScenario()
    ensures GetPointerCount("const void* const*") == 2
  {
    var s := "const void* const*";
    var a, b := s[..10], s[11..17];
    assert '*' !in a && '*' !in b;
    CountZero(a, '*');
    CountZero(b, '*');
    assert s == a + [s[10]] + b + [s[17]];
    assert s[10] == '*' && s[17] == '*';
    CountConcat(a, [s[10]], '*');
    CountConcat(a + [s[10]], b, '*');
    CountConcat(a + [s[10]] + b, [s[17]], '*');
  }
}
