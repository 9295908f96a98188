/**
 * The generator object: the blacklists and platform tables it loads at the
 * start of a file, the type-name sets it collects while the registry is
 * walked, and the per-feature command and struct tables that concrete
 * generators turn into code.
 */
module Generator {
  import opened Wrappers
  import opened PyStr
  import opened ValueInfos
  import opened TypeNames
  import opened Declarations

  /** The contents of the blacklists file. */
  datatype Blacklists = Blacklists(functions: seq<string>, structures: seq<string>)

  /** One platform of the platform-types file: its types, in file order, and its structs. */
  datatype PlatformEntry = PlatformEntry(name: string, types: seq<(string, PlatformType)>, structs: seq<string>)

  /** The generator options the core reads; a configured file arrives already parsed. */
  datatype GenOptions = GenOptions(
    blacklists: Option<Blacklists>,
    platformTypes: Option<seq<PlatformEntry>>,
    protectFeature: bool,
    apicall: string,
    alignFuncParam: int)

  const DefaultGenOptions := GenOptions(None, None, true, "VKAPI_ATTR ", DefaultAlignColumn)

  /** A child of a command's `<proto>` element. */
  datatype ProtoElem = ProtoElem(tag: string, text: string, tail: string)

  /** A `<proto>` element: its own text and its children. */
  datatype Proto = Proto(text: string, elems: seq<ProtoElem>)

  /** What the generator records for a command: return type, prototype text and parameter descriptors. */
  datatype CmdInfo = CmdInfo(returnType: string, protoDecl: string, params: seq<ValueInfo>)

  // ------------------------------------------------------------ prototype text

  /** A command name loses its `vk` prefix before it is passed to the prototype namer. */
  function StripVk(text: string): string {
    if StartsWith(text, "vk") then text[2..] else text
  }

  lemma StripVkSpec(text: string)
    ensures StartsWith(text, "vk") ==> "vk" + StripVk(text) == text
    ensures !StartsWith(text, "vk") ==> StripVk(text) == text
  {
    if StartsWith(text, "vk") {
      assert text == text[..2] + text[2..];
    }
  }

  /** The text one `<proto>` child contributes. */
  function ProtoPiece(e: ProtoElem, makeProtoName: (string, string) -> string): string {
    if e.tag == "name" then makeProtoName(StripVk(e.text), e.tail) else e.text + e.tail
  }

  /** The prototype text after `prefix` has been extended by the pieces of these children, in order. */
  function ProtoText(prefix: string, elems: seq<ProtoElem>, makeProtoName: (string, string) -> string): string
    decreases |elems|
  {
    if elems == [] then prefix
    else ProtoText(prefix, elems[..|elems| - 1], makeProtoName) + ProtoPiece(elems[|elems| - 1], makeProtoName)
  }

  /** The piece every child contributes, in order. */
  function ProtoPieces(elems: seq<ProtoElem>, makeProtoName: (string, string) -> string): seq<string> {
    seq(|elems|, k requires 0 <= k < |elems| => ProtoPiece(elems[k], makeProtoName))
  }

  /**
   * The prototype text is the prefix followed by the children's pieces, in
   * order: the name child's piece comes from `makeProtoName` applied to the
   * name without its `vk`, and every other child is copied as its text
   * followed by its tail.
   */
  lemma {:induction false} ProtoTextVerbatim(prefix: string, elems: seq<ProtoElem>, makeProtoName: (string, string) -> string)
    ensures ProtoText(prefix, elems, makeProtoName) == prefix + Join(ProtoPieces(elems, makeProtoName), "")
    ensures forall k :: 0 <= k < |elems| && elems[k].tag != "name" ==>
      ProtoPieces(elems, makeProtoName)[k] == elems[k].text + elems[k].tail
    ensures forall k :: 0 <= k < |elems| && elems[k].tag == "name" ==>
      ProtoPieces(elems, makeProtoName)[k] == makeProtoName(StripVk(elems[k].text), elems[k].tail)
    decreases |elems|
  {
    var pieces := ProtoPieces(elems, makeProtoName);
    var n := |elems|;
    if n == 0 {
      assert prefix + Join(pieces, "") == prefix;
    } else {
      var init := elems[..n - 1];
      ProtoTextVerbatim(prefix, init, makeProtoName);
      assert ProtoPieces(init, makeProtoName) == pieces[..n - 1];
      JoinSnoc(pieces);
      Assoc3(prefix, Join(pieces[..n - 1], ""), pieces[n - 1]);
    }
  }

  /** Joining without a separator: the last piece comes after the join of the rest. */
  lemma JoinSnoc(pieces: seq<string>)
    requires pieces != []
    ensures Join(pieces, "") == Join(pieces[..|pieces| - 1], "") + pieces[|pieces| - 1]
  {
    if |pieces| == 1 {
      assert pieces[..0] == [];
    } else {
      JoinSnocSep(pieces, "");
    }
  }

  /** With at least two pieces, the separator and the last piece follow the join of the rest. */
  lemma {:induction false} JoinSnocSep(pieces: seq<string>, sep: string)
    requires |pieces| >= 2
    ensures Join(pieces, sep) == Join(pieces[..|pieces| - 1], sep) + sep + pieces[|pieces| - 1]
    decreases |pieces|
  {
    var n := |pieces|;
    var init := pieces[..n - 1];
    if n == 2 {
      assert Join(pieces[1..], sep) == pieces[1];
      assert Join(init, sep) == pieces[0];
    } else {
      var tail := pieces[1..];
      JoinSnocSep(tail, sep);
      assert tail[..|tail| - 1] == init[1..];
      assert Join(init, sep) == pieces[0] + sep + Join(init[1..], sep);
      Assoc4(pieces[0], sep, Join(init[1..], sep) + sep, pieces[n - 1]);
      Assoc3(pieces[0] + sep, Join(init[1..], sep), sep);
    }
  }

  /** The prototype text: the API-call prefix, the proto's own text, then every child's piece. */
  function ProtoDecl(apicall: string, proto: Proto, makeProtoName: (string, string) -> string): string {
    ProtoText(apicall + proto.text, proto.elems, makeProtoName)
  }

  /**
   * Under the default options features are guarded and every recorded
   * prototype starts with `VKAPI_ATTR ` followed by the proto's own text.
   */
  lemma DefaultOptionsPrototype(proto: Proto, makeProtoName: (string, string) -> string)
    ensures DefaultGenOptions.protectFeature
    ensures StartsWith(ProtoDecl(DefaultGenOptions.apicall, proto, makeProtoName), "VKAPI_ATTR " + proto.text)
  {
    var prefix := DefaultGenOptions.apicall + proto.text;
    ProtoTextVerbatim(prefix, proto.elems, makeProtoName);
    var rest := Join(ProtoPieces(proto.elems, makeProtoName), "");
    assert (prefix + rest)[..|prefix|] == prefix;
  }

  /** The text one `<proto>` child adds to the prototype. */
  method MakeProtoPiece(elem: ProtoElem, makeProtoName: (string, string) -> string) returns (piece: string)
    ensures piece == ProtoPiece(elem, makeProtoName)
  {
    var text := elem.text;
    if elem.tag == "name" {
      if StartsWith(text, "vk") {
        text := text[2..];
      }
      assert text == StripVk(elem.text);
      piece := makeProtoName(text, elem.tail);
    } else {
      piece := text + elem.tail;
    }
  }

  /** Builds the prototype text child by child. */
  method MakeProtoDecl(apicall: string, proto: Proto, makeProtoName: (string, string) -> string) returns (protoDecl: string)
    ensures protoDecl == ProtoDecl(apicall, proto, makeProtoName)
  {
    protoDecl := apicall + proto.text;
    ghost var prefix := protoDecl;
    var i := 0;
    while i < |proto.elems|
      invariant 0 <= i <= |proto.elems|
      invariant protoDecl == ProtoText(prefix, proto.elems[..i], makeProtoName)
    {
      var piece := MakeProtoPiece(proto.elems[i], makeProtoName);
      assert proto.elems[..i + 1][..i] == proto.elems[..i];
      protoDecl := protoDecl + piece;
      i := i + 1;
    }
    assert proto.elems[..i] == proto.elems;
  }

  /** The first child with the given tag, as `find` returns it. */
  function FirstTagged(elems: seq<ProtoElem>, tag: string): (r: Option<ProtoElem>)
    decreases |elems|
  {
    if elems == [] then None
    else if elems[0].tag == tag then Some(elems[0])
    else FirstTagged(elems[1..], tag)
  }

  lemma {:induction false} FirstTaggedSpec(elems: seq<ProtoElem>, tag: string)
    ensures FirstTagged(elems, tag).None? <==> forall k :: 0 <= k < |elems| ==> elems[k].tag != tag
    ensures FirstTagged(elems, tag).Some? ==>
      exists i :: 0 <= i < |elems| && elems[i] == FirstTagged(elems, tag).value && elems[i].tag == tag
        && forall k :: 0 <= k < i ==> elems[k].tag != tag
    decreases |elems|
  {
    if elems != [] && elems[0].tag != tag {
      FirstTaggedSpec(elems[1..], tag);
      if FirstTagged(elems[1..], tag).Some? {
        var i :| 0 <= i < |elems[1..]| && elems[1..][i] == FirstTagged(elems[1..], tag).value && elems[1..][i].tag == tag
          && forall k :: 0 <= k < i ==> elems[1..][k].tag != tag;
        assert elems[i + 1] == elems[1..][i];
        assert forall k :: 0 <= k < i + 1 ==> elems[k].tag != tag by {
          forall k | 0 <= k < i + 1 ensures elems[k].tag != tag {
            if k > 0 { assert elems[k] == elems[1..][k - 1]; }
          }
        }
      } else {
        forall k | 0 <= k < |elems| ensures elems[k].tag != tag {
          if k > 0 { assert elems[k] == elems[1..][k - 1]; }
        }
      }
    } else if elems != [] {
      assert elems[0] == FirstTagged(elems, tag).value;
    }
  }

  /** The return type: the proto's own text and the text of its `<type>` child; none without one. */
  function ReturnType(proto: Proto): Option<string> {
    match FirstTagged(proto.elems, "type")
    case Some(e) => Some(proto.text + e.text)
    case None => None
  }

  // ------------------------------------------------------------ platform tables

  /** The platform-types map after the entries of one platform have been stored in order. */
  function MergeTypes(m: map<string, PlatformType>, types: seq<(string, PlatformType)>): map<string, PlatformType>
    decreases |types|
  {
    if types == [] then m
    else MergeTypes(m, types[..|types| - 1])[types[|types| - 1].0 := types[|types| - 1].1]
  }

  /** The platform-types map after every platform has been stored in order. */
  function MergeAll(m: map<string, PlatformType>, platforms: seq<PlatformEntry>): map<string, PlatformType>
    decreases |platforms|
  {
    if platforms == [] then m
    else MergeTypes(MergeAll(m, platforms[..|platforms| - 1]), platforms[|platforms| - 1].types)
  }

  /** The platform structs of every platform, in order. */
  function AllStructs(platforms: seq<PlatformEntry>): seq<string>
    decreases |platforms|
  {
    if platforms == [] then []
    else AllStructs(platforms[..|platforms| - 1]) + platforms[|platforms| - 1].structs
  }

  /**
   * Storing entries in order: a key is present exactly when it was before or
   * some entry names it; the last entry naming a key decides its value, and a
   * key no entry names keeps its old value.
   */
  lemma MergeTypesSpec(m: map<string, PlatformType>, types: seq<(string, PlatformType)>, key: string)
    ensures key in MergeTypes(m, types) <==> key in m || exists j :: 0 <= j < |types| && types[j].0 == key
    ensures (forall j :: 0 <= j < |types| ==> types[j].0 != key) && key in m ==> MergeTypes(m, types)[key] == m[key]
    ensures forall j :: 0 <= j < |types| && types[j].0 == key && (forall l :: j < l < |types| ==> types[l].0 != key) ==>
      MergeTypes(m, types)[key] == types[j].1
  {
    MergeTypesKeys(m, types, key);
    if forall j :: 0 <= j < |types| ==> types[j].0 != key {
      MergeTypesUntouched(m, types, key);
    }
    forall j | 0 <= j < |types| && types[j].0 == key && (forall l :: j < l < |types| ==> types[l].0 != key)
      ensures MergeTypes(m, types)[key] == types[j].1
    {
      MergeTypesLastWins(m, types, key, j);
    }
  }

  lemma {:induction false} MergeTypesKeys(m: map<string, PlatformType>, types: seq<(string, PlatformType)>, key: string)
    ensures key in MergeTypes(m, types) <==> key in m || exists j :: 0 <= j < |types| && types[j].0 == key
    decreases |types|
  {
    if types != [] {
      var init := types[..|types| - 1];
      var last := types[|types| - 1];
      MergeTypesKeys(m, init, key);
      if (exists j :: 0 <= j < |init| && init[j].0 == key) {
        var j :| 0 <= j < |init| && init[j].0 == key;
        assert types[j].0 == key;
      }
      if (exists j :: 0 <= j < |types| && types[j].0 == key) && last.0 != key {
        var j :| 0 <= j < |types| && types[j].0 == key;
        assert init[j].0 == key;
      }
    }
  }

  lemma {:induction false} MergeTypesUntouched(m: map<string, PlatformType>, types: seq<(string, PlatformType)>, key: string)
    requires forall j :: 0 <= j < |types| ==> types[j].0 != key
    ensures key in m ==> key in MergeTypes(m, types) && MergeTypes(m, types)[key] == m[key]
    decreases |types|
  {
    if types != [] {
      var init := types[..|types| - 1];
      assert forall j :: 0 <= j < |init| ==> init[j].0 != key by {
        forall j | 0 <= j < |init| ensures init[j].0 != key {
          assert init[j] == types[j];
        }
      }
      MergeTypesUntouched(m, init, key);
    }
  }

  lemma {:induction false} MergeTypesLastWins(m: map<string, PlatformType>, types: seq<(string, PlatformType)>, key: string, j: nat)
    requires j < |types| && types[j].0 == key
    requires forall l :: j < l < |types| ==> types[l].0 != key
    ensures key in MergeTypes(m, types) && MergeTypes(m, types)[key] == types[j].1
    decreases |types|
  {
    if j < |types| - 1 {
      var init := types[..|types| - 1];
      assert init[j] == types[j];
      assert forall l :: j < l < |init| ==> init[l].0 != key by {
        forall l | j < l < |init| ensures init[l].0 != key {
          assert init[l] == types[l];
        }
      }
      MergeTypesLastWins(m, init, key, j);
    }
  }

  /** Every platform's entries, concatenated in file order. */
  function FlatTypes(platforms: seq<PlatformEntry>): seq<(string, PlatformType)>
    decreases |platforms|
  {
    if platforms == [] then []
    else FlatTypes(platforms[..|platforms| - 1]) + platforms[|platforms| - 1].types
  }

  /** Storing two runs of entries one after the other is storing their concatenation. */
  lemma {:induction false} MergeTypesAppend(m: map<string, PlatformType>, a: seq<(string, PlatformType)>, b: seq<(string, PlatformType)>)
    ensures MergeTypes(m, a + b) == MergeTypes(MergeTypes(m, a), b)
    decreases |b|
  {
    if b == [] {
      assert a + b == a;
    } else {
      var init := b[..|b| - 1];
      MergeTypesAppend(m, a, init);
      assert (a + b)[..|a + b| - 1] == a + init;
      assert (a + b)[|a + b| - 1] == b[|b| - 1];
    }
  }

  /** Merging platform after platform is storing all their entries as one run. */
  lemma {:induction false} MergeAllFlat(m: map<string, PlatformType>, platforms: seq<PlatformEntry>)
    ensures MergeAll(m, platforms) == MergeTypes(m, FlatTypes(platforms))
    decreases |platforms|
  {
    if platforms != [] {
      var init := platforms[..|platforms| - 1];
      MergeAllFlat(m, init);
      MergeTypesAppend(m, FlatTypes(init), platforms[|platforms| - 1].types);
    }
  }

  /** After every platform is merged, a key is present exactly when it was before or some platform names it. */
  lemma {:induction false} MergeAllKeys(m: map<string, PlatformType>, platforms: seq<PlatformEntry>, key: string)
    ensures key in MergeAll(m, platforms) <==>
      key in m || exists i, j :: 0 <= i < |platforms| && 0 <= j < |platforms[i].types| && platforms[i].types[j].0 == key
    decreases |platforms|
  {
    if platforms != [] {
      var init := platforms[..|platforms| - 1];
      var last := platforms[|platforms| - 1];
      MergeAllKeys(m, init, key);
      MergeTypesKeys(MergeAll(m, init), last.types, key);
      if exists i, j :: 0 <= i < |init| && 0 <= j < |init[i].types| && init[i].types[j].0 == key {
        var i, j :| 0 <= i < |init| && 0 <= j < |init[i].types| && init[i].types[j].0 == key;
        assert platforms[i] == init[i];
      }
      if exists j :: 0 <= j < |last.types| && last.types[j].0 == key {
        var j :| 0 <= j < |last.types| && last.types[j].0 == key;
        assert platforms[|platforms| - 1].types[j].0 == key;
      }
      if exists i, j :: 0 <= i < |platforms| && 0 <= j < |platforms[i].types| && platforms[i].types[j].0 == key {
        var i, j :| 0 <= i < |platforms| && 0 <= j < |platforms[i].types| && platforms[i].types[j].0 == key;
        if i < |init| {
          assert init[i] == platforms[i];
        }
      }
    }
  }

  /** A key no platform names keeps its old value. */
  lemma {:induction false} MergeAllUntouched(m: map<string, PlatformType>, platforms: seq<PlatformEntry>, key: string)
    requires forall i, j :: 0 <= i < |platforms| && 0 <= j < |platforms[i].types| ==> platforms[i].types[j].0 != key
    ensures key in m ==> key in MergeAll(m, platforms) && MergeAll(m, platforms)[key] == m[key]
    decreases |platforms|
  {
    if platforms != [] {
      var init := platforms[..|platforms| - 1];
      assert forall i, j :: 0 <= i < |init| && 0 <= j < |init[i].types| ==> init[i].types[j].0 != key by {
        forall i, j | 0 <= i < |init| && 0 <= j < |init[i].types| ensures init[i].types[j].0 != key {
          assert init[i] == platforms[i];
        }
      }
      MergeAllUntouched(m, init, key);
      MergeTypesUntouched(MergeAll(m, init), platforms[|platforms| - 1].types, key);
    }
  }

  /**
   * A later platform overwrites an earlier one: the value of a key is the
   * one from the last entry that names it, in the last platform that names it.
   */
  lemma {:induction false} MergeAllLastWins(m: map<string, PlatformType>, platforms: seq<PlatformEntry>, key: string, i: nat, j: nat)
    requires i < |platforms| && j < |platforms[i].types| && platforms[i].types[j].0 == key
    requires forall l :: j < l < |platforms[i].types| ==> platforms[i].types[l].0 != key
    requires forall p, l :: i < p < |platforms| && 0 <= l < |platforms[p].types| ==> platforms[p].types[l].0 != key
    ensures key in MergeAll(m, platforms) && MergeAll(m, platforms)[key] == platforms[i].types[j].1
    decreases |platforms|
  {
    var init := platforms[..|platforms| - 1];
    var last := platforms[|platforms| - 1];
    if i == |platforms| - 1 {
      MergeTypesLastWins(MergeAll(m, init), last.types, key, j);
    } else {
      assert init[i] == platforms[i];
      assert forall p, l :: i < p < |init| && 0 <= l < |init[p].types| ==> init[p].types[l].0 != key by {
        forall p, l | i < p < |init| && 0 <= l < |init[p].types| ensures init[p].types[l].0 != key {
          assert init[p] == platforms[p];
        }
      }
      MergeAllLastWins(m, init, key, i, j);
      assert forall l :: 0 <= l < |last.types| ==> last.types[l].0 != key by {
        forall l | 0 <= l < |last.types| ensures last.types[l].0 != key {
          assert platforms[|platforms| - 1] == last;
        }
      }
      MergeTypesUntouched(MergeAll(m, init), last.types, key);
    }
  }

  /** A struct is a platform struct exactly when some platform lists it. */
  lemma {:induction false} AllStructsMembers(platforms: seq<PlatformEntry>, s: string)
    ensures s in AllStructs(platforms) <==> exists i :: 0 <= i < |platforms| && s in platforms[i].structs
    decreases |platforms|
  {
    if platforms != [] {
      var init := platforms[..|platforms| - 1];
      AllStructsMembers(init, s);
      if exists i :: 0 <= i < |init| && s in init[i].structs {
        var i :| 0 <= i < |init| && s in init[i].structs;
        assert platforms[i] == init[i];
      }
      if exists i :: 0 <= i < |platforms| && s in platforms[i].structs {
        var i :| 0 <= i < |platforms| && s in platforms[i].structs;
        if i < |init| {
          assert init[i] == platforms[i];
        }
      }
    }
  }

  /** The structs of two runs of platforms are the first run's followed by the second's. */
  lemma {:induction false} AllStructsAppend(a: seq<PlatformEntry>, b: seq<PlatformEntry>)
    ensures AllStructs(a + b) == AllStructs(a) + AllStructs(b)
    decreases |b|
  {
    if b == [] {
      assert a + b == a;
    } else {
      var init := b[..|b| - 1];
      AllStructsAppend(a, init);
      assert (a + b)[..|a + b| - 1] == a + init;
      assert (a + b)[|a + b| - 1] == b[|b| - 1];
      Assoc3(AllStructs(a), AllStructs(init), b[|b| - 1].structs);
    }
  }

  // ------------------------------------------------------------ the generator

  class BaseGenerator {
    /** Commands and structs that need hand-written code and are never recorded. */
    var apicallBlacklist: seq<string>
    var structBlacklist: seq<string>
    /** Platform types and their trace-format replacement, and the platform-defined structs. */
    var platformTypes: map<string, PlatformType>
    var platformStructs: seq<string>
    /** Type names collected while the registry is walked. */
    var structNames: set<string>
    var handleNames: set<string>
    var flagsNames: set<string>
    var enumNames: set<string>
    /** Per-feature tables: struct members and command parameters. */
    var featureStructMembers: map<string, seq<ValueInfo>>
    var featureCmdParams: map<string, CmdInfo>
    /** The preprocessor guard of the current feature. */
    var featureExtraProtect: Option<string>
    /** The options of the current file, once one has been started. */
    var genOpts: Option<GenOptions>

    /**
     * The recorded tables hold no blacklisted name, and every recorded struct
     * is a known struct type.
     */
    predicate Valid()
      reads this
    {
      (forall s :: s in featureStructMembers ==> s !in structBlacklist && s in structNames)
      && (forall c :: c in featureCmdParams ==> c !in apicallBlacklist)
    }

    /** The type-name sets the classifiers consult. */
    function Registry(): TypeRegistry
      reads this
    {
      TypeRegistry(structNames, handleNames, flagsNames, enumNames, platformStructs)
    }

    constructor ()
      ensures Valid()
      ensures apicallBlacklist == [] && structBlacklist == [] && platformTypes == map[] && platformStructs == []
      ensures structNames == {} && handleNames == {} && flagsNames == {} && enumNames == {}
      ensures featureStructMembers == map[] && featureCmdParams == map[]
      ensures featureExtraProtect == None && genOpts == None
    {
      apicallBlacklist := [];
      structBlacklist := [];
      platformTypes := map[];
      platformStructs := [];
      structNames := {};
      handleNames := {};
      flagsNames := {};
      enumNames := {};
      featureStructMembers := map[];
      featureCmdParams := map[];
      featureExtraProtect := None;
      genOpts := None;
    }

    /** The descriptor of one declaration among its siblings: one pass of the loop below. */
    method DescribeParam(param: Decl, params: seq<Decl>) returns (value: ValueInfo)
      ensures value == Describe(platformTypes, param, params)
    {
      var name := param.nameText;
      var baseType := param.typeText;
      var fullType := Strip(param.leadingText + baseType + param.typeTail);
      var platformBaseType: Option<string> := None;
      var platformFullType: Option<string> := None;
      if baseType in platformTypes {
        var typeInfo := platformTypes[baseType];
        platformBaseType := Some(baseType);
        platformFullType := Some(fullType);
        fullType := Replace(fullType, baseType, typeInfo.replaceWith);
        baseType := typeInfo.baseType;
      }
      var arrayLength := GetArrayLen(param);
      var arrayCapacity: Option<string> := None;
      if IsStaticArray(param) {
        arrayCapacity := arrayLength;
        arrayLength := GetStaticArrayLen(name, params, arrayCapacity);
      }
      value := ValueInfo(name, baseType, fullType, GetPointerCount(fullType),
                         arrayLength, arrayCapacity, platformBaseType, platformFullType);
    }

    /** The descriptors of a parameter or member list, built one declaration at a time. */
    method MakeValueInfo(params: seq<Decl>) returns (values: seq<ValueInfo>)
      ensures values == DescribeAll(platformTypes, params)
    {
      ghost var expected := DescribeAll(platformTypes, params);
      values := [];
      var i := 0;
      while i < |params|
        invariant 0 <= i <= |params|
        invariant values == expected[..i]
      {
        var value := DescribeParam(params[i], params);
        assert value == expected[i];
        TakeSnoc(expected, i);
        values := values + [value];
        i := i + 1;
      }
      assert expected[..i] == expected;
    }

    /** Appends the blacklists file's functions and structures to the blacklists. */
    method LoadBlacklists(lists: Blacklists)
      modifies this
      ensures apicallBlacklist == old(apicallBlacklist) + lists.functions
      ensures structBlacklist == old(structBlacklist) + lists.structures
      ensures platformTypes == old(platformTypes) && platformStructs == old(platformStructs)
      ensures Registry() == old(Registry())
      ensures featureStructMembers == old(featureStructMembers) && featureCmdParams == old(featureCmdParams)
      ensures featureExtraProtect == old(featureExtraProtect) && genOpts == old(genOpts)
    {
      apicallBlacklist := apicallBlacklist + lists.functions;
      structBlacklist := structBlacklist + lists.structures;
    }

    /** Stores one platform's types, in order: a later entry for a key wins. */
    method StoreTypes(types: seq<(string, PlatformType)>)
      modifies this
      ensures platformTypes == MergeTypes(old(platformTypes), types)
      ensures platformStructs == old(platformStructs)
      ensures apicallBlacklist == old(apicallBlacklist) && structBlacklist == old(structBlacklist)
      ensures structNames == old(structNames) && handleNames == old(handleNames)
      ensures flagsNames == old(flagsNames) && enumNames == old(enumNames)
      ensures featureStructMembers == old(featureStructMembers) && featureCmdParams == old(featureCmdParams)
      ensures featureExtraProtect == old(featureExtraProtect) && genOpts == old(genOpts)
    {
      var j := 0;
      while j < |types|
        invariant 0 <= j <= |types|
        invariant platformTypes == MergeTypes(old(platformTypes), types[..j])
        invariant platformStructs == old(platformStructs)
        invariant apicallBlacklist == old(apicallBlacklist) && structBlacklist == old(structBlacklist)
        invariant structNames == old(structNames) && handleNames == old(handleNames)
        invariant flagsNames == old(flagsNames) && enumNames == old(enumNames)
        invariant featureStructMembers == old(featureStructMembers) && featureCmdParams == old(featureCmdParams)
        invariant featureExtraProtect == old(featureExtraProtect) && genOpts == old(genOpts)
      {
        platformTypes := platformTypes[types[j].0 := types[j].1];
        assert types[..j + 1][..j] == types[..j];
        j := j + 1;
      }
      assert types[..j] == types;
    }

    /** Stores every platform's types (later entries win) and appends its structs. */
    method LoadPlatformTypes(platforms: seq<PlatformEntry>)
      modifies this
      ensures platformTypes == MergeAll(old(platformTypes), platforms)
      ensures platformStructs == old(platformStructs) + AllStructs(platforms)
      ensures apicallBlacklist == old(apicallBlacklist) && structBlacklist == old(structBlacklist)
      ensures structNames == old(structNames) && handleNames == old(handleNames)
      ensures flagsNames == old(flagsNames) && enumNames == old(enumNames)
      ensures featureStructMembers == old(featureStructMembers) && featureCmdParams == old(featureCmdParams)
      ensures featureExtraProtect == old(featureExtraProtect) && genOpts == old(genOpts)
    {
      var i := 0;
      while i < |platforms|
        invariant 0 <= i <= |platforms|
        invariant platformTypes == MergeAll(old(platformTypes), platforms[..i])
        invariant platformStructs == old(platformStructs) + AllStructs(platforms[..i])
        invariant apicallBlacklist == old(apicallBlacklist) && structBlacklist == old(structBlacklist)
        invariant structNames == old(structNames) && handleNames == old(handleNames)
        invariant flagsNames == old(flagsNames) && enumNames == old(enumNames)
        invariant featureStructMembers == old(featureStructMembers) && featureCmdParams == old(featureCmdParams)
        invariant featureExtraProtect == old(featureExtraProtect) && genOpts == old(genOpts)
      {
        StoreTypes(platforms[i].types);
        if |platforms[i].structs| > 0 {
          platformStructs := platformStructs + platforms[i].structs;
        }
        assert platforms[..i + 1][..i] == platforms[..i];
        i := i + 1;
      }
      assert platforms[..i] == platforms;
    }

    /**
     * Starts a file: loads the configured blacklists and platform types, and
     * blacklists every platform struct, whose code is written by hand.
     */
    method BeginFile(opts: GenOptions)
      modifies this
      ensures genOpts == Some(opts)
      ensures apicallBlacklist == old(apicallBlacklist) + (if opts.blacklists.Some? then opts.blacklists.value.functions else [])
      ensures platformTypes == (if opts.platformTypes.Some? then MergeAll(old(platformTypes), opts.platformTypes.value) else old(platformTypes))
      ensures platformStructs == old(platformStructs) + (if opts.platformTypes.Some? then AllStructs(opts.platformTypes.value) else [])
      ensures structBlacklist == old(structBlacklist)
        + (if opts.blacklists.Some? then opts.blacklists.value.structures else [])
        + (if opts.platformTypes.Some? then platformStructs else [])
      ensures structNames == old(structNames) && handleNames == old(handleNames)
      ensures flagsNames == old(flagsNames) && enumNames == old(enumNames)
      ensures featureStructMembers == old(featureStructMembers) && featureCmdParams == old(featureCmdParams)
      ensures featureExtraProtect == old(featureExtraProtect)
      ensures old(Valid()) && old(featureStructMembers) == map[] && old(featureCmdParams) == map[] ==> Valid()
    {
      genOpts := Some(opts);
      if opts.blacklists.Some? {
        LoadBlacklists(opts.blacklists.value);
      }
      if opts.platformTypes.Some? {
        LoadPlatformTypes(opts.platformTypes.value);
        structBlacklist := structBlacklist + platformStructs;
      }
    }

    /** Starts a feature: its tables start empty, and its guard is taken from its platform when protection is on. */
    method BeginFeature(platform: Option<string>)
      requires genOpts.Some?
      modifies this
      ensures genOpts == old(genOpts)
      ensures featureStructMembers == map[] && featureCmdParams == map[]
      ensures featureExtraProtect == if genOpts.value.protectFeature then FeatureProtect(platform) else old(featureExtraProtect)
      ensures apicallBlacklist == old(apicallBlacklist) && structBlacklist == old(structBlacklist)
      ensures platformTypes == old(platformTypes) && platformStructs == old(platformStructs)
      ensures Registry() == old(Registry())
      ensures Valid()
    {
      featureStructMembers := map[];
      featureCmdParams := map[];
      if genOpts.value.protectFeature {
        featureExtraProtect := FeatureProtect(platform);
      }
    }

    /** Records a struct's member descriptors unless it is blacklisted or an alias. */
    method GenStruct(typename: string, alias: Option<string>, members: seq<Decl>)
      modifies this
      ensures featureStructMembers ==
        if typename !in structBlacklist && !Truthy(alias)
        then old(featureStructMembers)[typename := DescribeAll(platformTypes, members)]
        else old(featureStructMembers)
      ensures apicallBlacklist == old(apicallBlacklist) && structBlacklist == old(structBlacklist)
      ensures platformTypes == old(platformTypes) && platformStructs == old(platformStructs)
      ensures Registry() == old(Registry()) && featureCmdParams == old(featureCmdParams)
      ensures featureExtraProtect == old(featureExtraProtect) && genOpts == old(genOpts)
      ensures old(Valid()) && typename in structNames ==> Valid()
    {
      if typename !in structBlacklist && !Truthy(alias) {
        var values := MakeValueInfo(members);
        featureStructMembers := featureStructMembers[typename := values];
      }
    }

    /**
     * Registers a type by its category: structs and unions (whose members are
     * then recorded), handles and bitmasks; any other category only passes.
     */
    method GenType(category: Option<string>, name: string, alias: Option<string>, members: seq<Decl>)
      modifies this
      ensures var isStruct := category == Some("struct") || category == Some("union");
        structNames == old(structNames) + (if isStruct then {name} else {})
        && handleNames == old(handleNames) + (if category == Some("handle") then {name} else {})
        && flagsNames == old(flagsNames) + (if category == Some("bitmask") then {name} else {})
        && featureStructMembers ==
          (if isStruct && name !in structBlacklist && !Truthy(alias)
           then old(featureStructMembers)[name := DescribeAll(platformTypes, members)]
           else old(featureStructMembers))
      ensures enumNames == old(enumNames) && platformStructs == old(platformStructs)
      ensures apicallBlacklist == old(apicallBlacklist) && structBlacklist == old(structBlacklist)
      ensures platformTypes == old(platformTypes) && featureCmdParams == old(featureCmdParams)
      ensures featureExtraProtect == old(featureExtraProtect) && genOpts == old(genOpts)
      ensures old(Valid()) ==> Valid()
    {
      if category == Some("struct") || category == Some("union") {
        structNames := structNames + {name};
        GenStruct(name, alias, members);
      } else if category == Some("handle") {
        handleNames := handleNames + {name};
      } else if category == Some("bitmask") {
        flagsNames := flagsNames + {name};
      }
    }

    /** Registers an enumeration type. */
    method GenGroup(groupName: string)
      modifies this
      ensures enumNames == old(enumNames) + {groupName}
      ensures structNames == old(structNames) && handleNames == old(handleNames) && flagsNames == old(flagsNames)
      ensures platformStructs == old(platformStructs)
      ensures apicallBlacklist == old(apicallBlacklist) && structBlacklist == old(structBlacklist)
      ensures platformTypes == old(platformTypes)
      ensures featureStructMembers == old(featureStructMembers) && featureCmdParams == old(featureCmdParams)
      ensures featureExtraProtect == old(featureExtraProtect) && genOpts == old(genOpts)
      ensures old(Valid()) ==> Valid()
    {
      enumNames := enumNames + {groupName};
    }

    /**
     * Records a command unless it is blacklisted: its return type, its
     * prototype text and its parameter descriptors. A prototype without a
     * `<type>` child cannot be recorded (`ok` is false, nothing changes).
     */
    method GenCmd(name: string, proto: Proto, params: seq<Decl>, makeProtoName: (string, string) -> string)
      returns (ok: bool)
      requires genOpts.Some?
      modifies this
      ensures genOpts == old(genOpts)
      ensures ok <==> name in apicallBlacklist || ReturnType(proto).Some?
      ensures featureCmdParams ==
        if name !in apicallBlacklist && ReturnType(proto).Some?
        then old(featureCmdParams)[name := CmdInfo(ReturnType(proto).value,
                                                   ProtoDecl(genOpts.value.apicall, proto, makeProtoName),
                                                   DescribeAll(platformTypes, params))]
        else old(featureCmdParams)
      ensures apicallBlacklist == old(apicallBlacklist) && structBlacklist == old(structBlacklist)
      ensures platformTypes == old(platformTypes) && platformStructs == old(platformStructs)
      ensures Registry() == old(Registry()) && featureStructMembers == old(featureStructMembers)
      ensures featureExtraProtect == old(featureExtraProtect)
      ensures old(Valid()) ==> Valid()
    {
      if name in apicallBlacklist {
        return true;
      }
      var protoDecl := MakeProtoDecl(genOpts.value.apicall, proto, makeProtoName);
      var typeElem := FirstTagged(proto.elems, "type");
      if typeElem.None? {
        return false;
      }
      var returnType := proto.text + typeElem.value.text;
      var values := MakeValueInfo(params);
      featureCmdParams := featureCmdParams[name := CmdInfo(returnType, protoDecl, values)];
      return true;
    }
  }
}
