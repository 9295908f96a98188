# GFXReconstruct code generator metadata and replay application, in Dafny

This project models two parts of GFXReconstruct, the Vulkan API capture and
replay tool.

The first part is the metadata layer of its Python code generator
(`BaseGenerator`). The generator walks the Vulkan XML registry. For every
`<param>` or `<member>` it builds a `ValueInfo` descriptor: the name, the base
and full type, the pointer depth, the array length and capacity, and the
platform-type substitution. It keeps sets of struct, handle, flags and enum
type names. It records, per feature, the members of each struct and the
parameters of each command, with blacklists keeping out the ones that need
hand-written code. From these it derives the names used in generated C++:
the encoder/decoder type token, the decoder wrapper type, aligned parameter
declarations and consumer function declarations.

The second part is the replay `Application`: the list of registered windows,
the running and paused flags driven by frame playback, and the measurement
range whose frame rate is reported at the end of replay.

Layout, one module per file:

- `wrappers.dfy` (`Wrappers`): `Option`, `Result` and Python truthiness of an optional string.
- `pystr.dfy` (`PyStr`): the Python string operations the generator relies on, as Python defines them. These are slicing with negative bounds, `in`, `count`, `replace` (every occurrence, left to right), `strip` (Python's whitespace set), `split` on one character, `join`, `ljust`, `' ' * n`, and ASCII `upper`/`lower`/`islower`/`title`.
- `value_info.dfy` (`ValueInfos`): the declaration record, `ValueInfo`, array-length resolution and one step of descriptor construction.
- `type_names.dfy` (`TypeNames`): the type registry, the `is*` classifiers, `makeInvocationTypeName` and `makeDecodedParamType`.
- `declarations.dfy` (`Declarations`): `indent`, `makeArgList`, `makeAlignedParamDecl`, `makeConsumerFuncDecl`, `_makeREstring` and the platform guard table.
- `base_generator.dfy` (`Generator`): the `BaseGenerator` class with its mutable tables, and the configuration loaders.
- `application.dfy` (`Replay`): the `Application` class.

An XML element is a plain record. A `<param>` or `<member>` is a `Decl`. A
text the generator always passes through `noneStr` is a string, where a
missing text is `""`. The name tail, the `len` attribute and the `<enum>`
child stay optional, because the code tests whether they exist. A `<proto>`
is its text plus its children (tag, text, tail). The JSON configuration files
arrive already parsed, as `Blacklists` and a sequence of `PlatformEntry`
values in file order. The file processor of the replay application is seen
only through what it reports: the current frame number, whether the next
frame was processed, and whether it is in an error state. The operations
take these as parameters. Clock readings are parameters too.

## Model

| member | source | states |
|---|---|---|
| ValueInfos.ExplicitLenRules | generated/framework_generators/base_generator.py:445-459 | A non-empty `len` that is exactly `null-terminated` names no length. Another `len` holding `null-terminated` names the part before its first comma. Any other `len` is the length itself. In every case `::` becomes `->`, and no named length holds `::`. |
| ValueInfos.EmptyLenIsAbsent | generated/framework_generators/base_generator.py:447-448 | An empty `len` attribute gives the same result as a missing one (Python truthiness). |
| ValueInfos.StringArrayLen | generated/framework_generators/base_generator.py:450-457 | `count,null-terminated` (with a plain count) resolves to `count`. |
| ValueInfos.GetStaticArrayLen | generated/framework_generators/base_generator.py:481-491 | The sibling search returns `name[:-1] + 'Count'` exactly when some sibling's name text equals it, and otherwise the capacity. |
| ValueInfos.DescribeArray | generated/framework_generators/base_generator.py:361-366 | A declaration that is not a static array keeps the length `getArrayLen` names and has no capacity. A static array's capacity is that length. Without a `len` attribute it is the `<enum>` text if there is one, else `tail[1:-1]`. With a `len` attribute it comes from `len`. Its logical length is the count sibling if one exists, else the capacity. |
| ValueInfos.DescribePlatform | generated/framework_generators/base_generator.py:352-359 | Both original-type fields are absent exactly when the base type is not a platform type. Otherwise they hold the types before substitution, the base type is the entry's, and every occurrence of the platform type in the full type is replaced. |
| ValueInfos.DescribePointerCount | generated/framework_generators/base_generator.py:349-359 | The pointer count is the number of `*` in the substituted full type. It is the raw declaration's count, changed by the replacement's count for each occurrence of the platform type. A value is a pointer exactly when its full type holds a `*`. |
| ValueInfos.DescribeAllOrder | generated/framework_generators/base_generator.py:339-378 | One descriptor per declaration, in input order, each described among all its siblings and carrying its name. |
| ValueInfos.NonArrayIsDynamic | generated/framework_generators/base_generator.py:80-82 | A value that is not an array is dynamic. |
| ValueInfos.NullTerminatedIsNoArray | generated/framework_generators/base_generator.py:451-456 | A plain string (`len="null-terminated"`) is not an array and is dynamic. |
| ValueInfos.StaticArrayScenario | generated/framework_generators/base_generator.py:361-366 | `values[4]` next to `valueCount` has capacity `4` and length `valueCount`, and is not dynamic. |
| ValueInfos.PointerCountScenario | generated/framework_generators/base_generator.py:417-418 | `const void* const*` has pointer count 2. |
| Generator.BaseGenerator.DescribeParam | generated/framework_generators/base_generator.py:341-376 | The descriptor built for one declaration is the one `Describe` specifies for it among its siblings. |
| Generator.BaseGenerator.MakeValueInfo | generated/framework_generators/base_generator.py:339-378 | The loop's result is exactly the list of descriptors `DescribeAll` specifies for the declarations. |
| TypeNames.FunctionPtrIsPrefix | generated/framework_generators/base_generator.py:410-413 | `baseType[:4] == 'PFN_'` holds exactly when the name starts with `PFN_`. |
| TypeNames.SubstitutedOpaqueIsInput | generated/framework_generators/base_generator.py:422-432 | A platform type declared without any `*` (an opaque handle) is treated as an input, whatever it was replaced with. |
| TypeNames.IsArrayLenSpec | generated/framework_generators/base_generator.py:437-441 | A name is an array length exactly when some value's `arrayLength` equals it. |
| TypeNames.ClassifyOrder | generated/framework_generators/base_generator.py:524-541 | A registered struct keeps its own name, then come handle `HandleId`, flags `Flags` and enum `Enum`. The name patterns apply only to types in none of these sets. For those, `char` gives `String`, then a `PFN_` name `FunctionPtr`, then `size_t` `SizeT` and `int` `Int32`, ahead of the `_t` and lower-case rules. |
| TypeNames.InvocationTypeNameTotal | generated/framework_generators/base_generator.py:524-551 | The naming rule fails (Python's `IndexError`) only on the empty name when no registry set holds it. |
| TypeNames.InvocationTypeNameShape | generated/framework_generators/base_generator.py:542-551 | `u…_t` gets its first two characters upper-cased and loses `_t`. Another `…_t` loses `_t` and is title-cased. A lower-case first letter means title case. Anything else is returned unchanged. |
| TypeNames.UnsignedClassify | generated/framework_generators/base_generator.py:524-545 | With nothing registered, `uint32_t` falls to the unsigned `_t` rule. |
| TypeNames.SignedClassify | generated/framework_generators/base_generator.py:524-547 | With nothing registered, `int32_t` falls to the other `_t` rule. |
| TypeNames.LowerCaseClassify | generated/framework_generators/base_generator.py:524-549 | With nothing registered, `float` falls to the lower-case rule. |
| TypeNames.UnsignedExample | generated/framework_generators/base_generator.py:542-545 | `uint32_t` becomes `UInt32`. |
| TypeNames.SignedExample | generated/framework_generators/base_generator.py:542-547 | `int32_t` becomes `Int32`. |
| TypeNames.LowerCaseExample | generated/framework_generators/base_generator.py:548-549 | `float` becomes `Float`. |
| TypeNames.DecodedPointerTable | generated/framework_generators/base_generator.py:559-586 | For a pointer or array the wrapper is, in order: struct → `StructPointerDecoder<Decoded_T>`; `char` → `StringArrayDecoder` or `StringDecoder` by pointer count; `void` → `PointerDecoder<uint8_t>` for an array, `PointerDecoder<uint64_t>` for a pointer to pointer, else `uint64_t`; handle → `PointerDecoder<HandleId>`; otherwise `PointerDecoder<T>`. |
| TypeNames.DecodedScalarTable | generated/framework_generators/base_generator.py:587-595 | A value that is neither a pointer nor an array is decoded, in order: a `PFN_` type as `uint64_t`, a struct as `Decoded_T`, a handle as `HandleId`, anything else as itself. No warning fires. |
| TypeNames.DecodedWarning | generated/framework_generators/base_generator.py:562-564 | The multi-dimensional warning fires exactly when the pointer count is above 1 and the type is neither `char` nor an external object type. |
| TypeNames.DecodedDependsOnShape | generated/framework_generators/base_generator.py:555-597 | Only the base type, the pointer count and whether the value is an array decide the decoded type. |
| TypeNames.WrapperInjective | generated/framework_generators/base_generator.py:566-586 | Two wrappers with the same prefix, such as `PointerDecoder<T>` or `StructPointerDecoder<Decoded_T>`, are equal only for the same `T`. |
| Declarations.IndentLines | generated/framework_generators/base_generator.py:497-499 | Splitting the indented text at newlines gives the original lines, each behind the prefix. |
| Declarations.IndentUndone | generated/framework_generators/base_generator.py:497-499 | Every indented line starts with the blanks, and taking them off and joining gives the text back. |
| Declarations.IndentZero | generated/framework_generators/base_generator.py:497-499 | An indent of zero or less changes nothing. |
| Declarations.ArgListSplit | generated/framework_generators/base_generator.py:504-505 | The list of no values is empty. Otherwise splitting at commas gives the first name and every later name behind a blank, in order. |
| Declarations.AlignedParamDeclSpec | generated/framework_generators/base_generator.py:510-520 | The declaration is the indentation, the type, blanks only, then the name. The name starts at index `alignColumn` unless alignment is off or the type reaches the column, when a single blank separates them. |
| Declarations.PointerWrappersByReference | generated/framework_generators/base_generator.py:609-614 | A pointer or array parameter is passed as `const Wrapper&` exactly unless it is a single untyped pointer, which is decoded as a plain 64-bit address. |
| Declarations.StructByReference | generated/framework_generators/base_generator.py:609-614 | A struct passed by value becomes `const Decoded_T&`. |
| Declarations.ConsumerScalarsByValue | generated/framework_generators/base_generator.py:609-614 | The 64-bit address and the handle id are passed by value. |
| Declarations.MakeConsumerParamType | generated/framework_generators/base_generator.py:609-614 | The computed parameter type is the one `ConsumerParamType` specifies: the decoded type, passed by `const` reference when it is a decoder wrapper or a decoded struct. |
| Declarations.MakeParamDecls | generated/framework_generators/base_generator.py:603-617 | The loop's lines are the return-value line, if any, then one aligned line per value, in order, as `ParamDecls` specifies. |
| Declarations.MakeConsumerFuncDecl | generated/framework_generators/base_generator.py:601-622 | The loop's result is the declaration `ConsumerFuncDecl` specifies. |
| Declarations.ConsumerFuncDeclShape | generated/framework_generators/base_generator.py:601-622 | There is one parameter line per value, plus one for a non-void return type. The declaration is `void name()` exactly when the return type is void and there are no values. |
| Declarations.ReturnValueDecl | generated/framework_generators/base_generator.py:605-607 | A non-void return value comes first, typed as declared, indented, and named `returnValue`. |
| Declarations.ValueDecl | generated/framework_generators/base_generator.py:609-617 | Value k has its own line, after the return value if any. The line is indented and holds the consumer parameter type and then the value's name. |
| Declarations.MakeREstringSpec | generated/framework_generators/base_generator.py:26-30 | With names, the pattern is `^(…)$` and its alternatives are the names, in order. With no names it is the default, or `^()$` when there is none. |
| Declarations.DefaultPatterns | generated/framework_generators/base_generator.py:33-43 | By default no extension is added or removed (`^()$`), and every extension and feature is emitted (`.*`). |
| Declarations.FeatureProtectSpec | generated/framework_generators/base_generator.py:627-645 | A feature gets a guard exactly when its `platform` is one of the ten table keys. |
| Declarations.FeatureProtectPrefix | generated/framework_generators/base_generator.py:627-645 | Every guard is a `VK_USE_PLATFORM_` symbol. |
| Declarations.FeatureProtectInjective | generated/framework_generators/base_generator.py:627-645 | Different platforms get different guards. |
| Generator.StripVkSpec | generated/framework_generators/base_generator.py:324-325 | A command name loses exactly its leading `vk`, and a name without it is unchanged. |
| Generator.ProtoTextVerbatim | generated/framework_generators/base_generator.py:320-329 | For every child list, the prototype text is the prefix followed by one piece per child, in order. A `<name>` child's piece is `makeProtoName` of the name without its `vk` and of the tail. Every other child is copied as its text followed by its tail. |
| Generator.DefaultOptionsPrototype | generated/framework_generators/base_generator.py:122-123 | Under the default options feature protection is on, and every prototype starts with `VKAPI_ATTR ` followed by the proto's own text. |
| Generator.MakeProtoPiece | generated/framework_generators/base_generator.py:322-329 | The text one child adds is the one `ProtoPiece` specifies. A `<name>` child loses its `vk` prefix and is passed through `makeProtoName`. |
| Generator.JoinSnocSep | generated/framework_generators/base_generator.py:320-329 | Joining at least two pieces puts the separator and the last piece after the join of the others. |
| Generator.MakeProtoDecl | generated/framework_generators/base_generator.py:319-329 | The loop builds the prototype text `ProtoDecl` specifies: the API-call prefix, the proto's text, then each child's piece. |
| Generator.FirstTaggedSpec | generated/framework_generators/base_generator.py:331 | The `<type>` lookup finds nothing exactly when no child is a type. Otherwise it finds the first one. |
| Generator.MergeTypesSpec | generated/framework_generators/base_generator.py:658-659 | After storing a platform's types in order, a key is present exactly when it was before or some entry names it. The last entry for a key decides its value, and keys no entry names keep their values. |
| Generator.MergeTypesKeys | generated/framework_generators/base_generator.py:658-659 | After the merge, a key is present exactly when it was before or some stored entry names it. |
| Generator.MergeTypesUntouched | generated/framework_generators/base_generator.py:658-659 | A key no entry names keeps its old value. |
| Generator.MergeTypesLastWins | generated/framework_generators/base_generator.py:658-659 | A key's value is the one from the last entry that names it. |
| Generator.BaseGenerator.StoreTypes | generated/framework_generators/base_generator.py:658-659 | The inner loop leaves the platform-types map equal to `MergeTypes` of the old map and the entries, and nothing else changes. |
| Generator.MergeTypesAppend | generated/framework_generators/base_generator.py:654-659 | Storing two runs of entries one after the other is the same as storing their concatenation. |
| Generator.MergeAllFlat | generated/framework_generators/base_generator.py:654-659 | Merging platform after platform is the same as storing every platform's entries as one run, in file order. |
| Generator.MergeAllKeys | generated/framework_generators/base_generator.py:654-659 | After all platforms are merged, a key is present exactly when it was before or some platform names it. |
| Generator.MergeAllUntouched | generated/framework_generators/base_generator.py:654-659 | A key that no platform names keeps its old value. |
| Generator.MergeAllLastWins | generated/framework_generators/base_generator.py:654-659 | A later platform overwrites an earlier one. A key's value comes from the last entry naming it, in the last platform that names it. |
| Generator.AllStructsMembers | generated/framework_generators/base_generator.py:654-663 | A struct is a platform struct exactly when some platform lists it. |
| Generator.AllStructsAppend | generated/framework_generators/base_generator.py:654-663 | The platform structs are appended platform by platform, in file order. |
| Generator.BaseGenerator.constructor | generated/framework_generators/base_generator.py:178-192 | A new generator has empty type sets, empty feature tables and no blacklists or platform types. |
| Generator.BaseGenerator.LoadBlacklists | generated/framework_generators/base_generator.py:647-650 | Both blacklists are extended by the file's lists, and nothing else changes. |
| Generator.BaseGenerator.LoadPlatformTypes | generated/framework_generators/base_generator.py:652-663 | The platform-types map becomes `MergeAll` of the old map and every platform's types, in file order. The `MergeAll*` lemmas cover presence, untouched keys and later platforms overwriting earlier ones. Every platform's structs are appended, as `AllStructs*` describe. |
| Generator.BaseGenerator.BeginFile | generated/framework_generators/base_generator.py:210-217 | Configured blacklists and platform types are loaded. The platform structs join the struct blacklist only when platform types are configured. |
| Generator.BaseGenerator.BeginFeature | generated/framework_generators/base_generator.py:242-252 | Both feature tables become empty. When feature protection is on, the guard comes from the feature's platform. |
| Generator.BaseGenerator.GenType | generated/framework_generators/base_generator.py:273-285 | Structs and unions join the struct set even when blacklisted, and their members are recorded unless blacklisted or aliased. Handles and bitmasks join their sets. The tables stay free of blacklisted names. |
| Generator.BaseGenerator.GenStruct | generated/framework_generators/base_generator.py:293-298 | A struct's descriptors are recorded exactly when it is neither blacklisted nor an alias. |
| Generator.BaseGenerator.GenGroup | generated/framework_generators/base_generator.py:303-305 | The group name joins the enum set, and nothing else changes. |
| Generator.BaseGenerator.GenCmd | generated/framework_generators/base_generator.py:315-334 | A command that is not blacklisted is recorded with its return type, prototype text and parameter descriptors. A blacklisted command changes nothing. A prototype without `<type>` fails and changes nothing. |
| Replay.WrapSub | framework/application/application.cpp:242 | `uint32_t` subtraction: exact when no underflow, wrapped by 2^32 otherwise. |
| Replay.RemoveFirstSpec | framework/application/application.cpp:152-161 | Erasing the first occurrence removes exactly one copy of a present element and keeps an absent one's list. From a duplicate-free list it removes the element altogether and keeps the list duplicate-free. |
| Replay.RegisterUnregisterRoundTrip | framework/application/application.cpp:133-164 | Registering a new window and unregistering it restores the list. |
| Replay.AppendFreshNoDuplicates | framework/application/application.cpp:137-143 | Appending a window that is not yet registered keeps the list duplicate-free. |
| Replay.DefaultsNeverQuit | framework/application/application.h:52-55 | With the default `Run` arguments the frame check never stops replay. |
| Replay.MeasuredSpec | framework/application/application.cpp:199-242 | The frame rate is measured exactly when no guard fires. The clipped range then lies inside the requested one, and the frame count is its exact length with no underflow. |
| Replay.RefusalOrder | framework/application/application.cpp:199-229 | The guards are tried in order: error state, still running before the end frame, empty range, range never started. |
| Replay.DefaultRangeReport | framework/application/application.h:52-55 | After a default run that stopped cleanly, the report covers every frame played. |
| Replay.Application.constructor | framework/application/application.cpp:34-36 | A new application is not running, not paused, has no file processor and no windows, and has the given name. |
| Replay.Application.SetPaused | framework/application/application.cpp:86-99 | The paused flag becomes the argument, and nothing else changes. |
| Replay.Application.SetPauseFrame | framework/application/application.h:61 | The pause frame becomes the argument, and nothing else changes. |
| Replay.Application.StopRunning | framework/application/application.h:72 | Replay stops running, and nothing else changes. |
| Replay.Application.SetFileProcessor | framework/application/application.cpp:52-55 | The file processor becomes the argument, and nothing else changes. |
| Replay.Application.PlaySingleFrame | framework/application/application.cpp:101-131 | Without a file processor it fails and changes nothing. A failed frame stops replay. A played frame pauses replay when it is the pause frame and never resumes it. |
| Replay.Application.RegisterWindow | framework/application/application.cpp:133-146 | A window already present is refused and the list is unchanged. Otherwise it is appended. The list stays duplicate-free. |
| Replay.Application.UnregisterWindow | framework/application/application.cpp:148-164 | An absent window is refused with no change. Otherwise that one entry is erased, the others keep their order, and the window is gone. |
| Replay.Application.HandleMeasurementRange | framework/application/application.cpp:166-195 | Replay stops only at the end frame when it is not also the start frame and quitting was asked for. The start or end time is taken at the matching frame, and decoders are drained only when flushing. |
| Replay.Application.WriteMeasurementRangeFps | framework/application/application.cpp:197-242 | The outcome is the guard cascade `MeasurementOutcome`, and the end time is retaken only when the range is clipped. |

## Left out

- Reading the blacklist and platform-types JSON files is file I/O. The model takes their parsed contents.
- Output is not modelled. That covers header guards and prefix text in `beginFile`, `endFile`, the `#ifdef`/`#endif` writes in `endFeature`, `write`/`newline`, and the calls into the `OutputGenerator` superclass. `generator.py` is not part of this model.
- `makeProtoName` is defined outside the modelled files. `GenCmd` takes it as a function parameter.
- XML ElementTree navigation (`find`/`findall`) is replaced by the records described above.
- `BaseGeneratorOptions` is reduced to the fields the core reads (`blacklists`, `platformTypes`, `protectFeature`, `apicall`, `alignFuncParam`), with the constructor's defaults.
- `Declarations.MakeConsumerFuncDecl`: the registry and `genOpts.alignFuncParam` are explicit arguments instead of generator state. `INDENT_SIZE` is the module constant `Declarations.IndentSize`.
- `TypeNames.DecodedParamType`: the `print` warning is a boolean in the result.
- Generator.BaseGenerator: `APICALL_BLACKLIST`, `STRUCT_BLACKLIST`, `PLATFORM_TYPES` and `PLATFORM_STRUCTS` are class attributes shared by all generator instances. The model keeps them per instance.
- Generator.BaseGenerator.BeginFile makes `Valid()` hold again only when both feature tables were empty. If a struct was recorded before a later file blacklists it, the code would keep it.
- PyStr: `title`, `upper`, `lower` and `islower` are modelled for ASCII only. Python also maps non-ASCII letters.
- `needFeatureGeneration`, `generateFeature` and `genEnum` are empty hooks or superclass calls, so they are not modelled.
- `ValueInfo` description: the claim that a substituted base type is never itself a platform-type key is not enforced by the code, so it is not a property here.
- `Run` (application.cpp:57-84) is not modelled. Its loop is driven by the pure-virtual `ProcessEvents` and may never end. Its default arguments are the constant `Replay.DefaultRunOptions`.
- `Replay.Application.HandleMeasurementRange` takes `Run`'s four measurement arguments as one `RunOptions` value.
- Logging is left out. That includes the pause message in `SetPaused` and `PlaySingleFrame` and the refusal messages of the frame-rate report.
- Timestamps come in as parameters. The `double` seconds and FPS computation (application.cpp:239-243) is floating point and is not modelled. In `Replay.Application.HandleMeasurementRange`, the `WaitDecodersIdle` call is reported as a boolean. In `Replay.Application.WriteMeasurementRangeFps` it is not reported separately: the call happens exactly when the outcome is a clipped `Measured` range, the same case in which the end time is retaken.
- The destructor's `delete` of remaining windows, `Initialize` and `ProcessEvents` (pure virtual), and all `FileProcessor` internals are left out.
- Replay.Application.HandleMeasurementRange and Replay.Application.WriteMeasurementRangeFps require a file processor. The source dereferences `file_processor_` without a null check (application.cpp:170, 199), so a call without one would crash. The model does not describe that crash.
- Generator.BaseGenerator.constructor sets `featureExtraProtect` to `None`. `__init__` never assigns it: it exists only after a `beginFeature` with feature protection on, and reading it before then would raise `AttributeError`.
- Replay.Application.RegisterWindow and Replay.Application.UnregisterWindow take a non-null `Window`. This stands in for `assert(window != nullptr)` (application.cpp:135, 150). A release build compiles that assert out, and then a null window would be appended or searched for like any other. The model excludes a null window by its type.
- `pause_frame_` and the measurement times are never initialised by the constructor. The model leaves them unconstrained.
