# gir parameter lowering, in Dafny

This project models the parameter-lowering pass of gir, the generator of
Rust bindings for GObject libraries. The pass is `analyze` in
`src/analysis/function_parameters.rs`. It takes the parameter descriptors of
one native function and builds three ordered lists:

- the **native list** (`c_parameters`): one entry per descriptor, as the
  foreign call needs it;
- the **surface list** (`rust_parameters`): the parameters a caller of the
  binding sees, each pointing back at its native entry;
- the **conversion steps** (`transformations`): one primary to-glib step per
  descriptor, preceded by a `Length` step when the parameter is the length
  of an array and gets folded into it.

`Parameters::analyze_return` is also modelled. It is the post-pass that adds
a `Length` step for the array length of the return value.

The project also models the length heuristics (`detect_length`,
`is_length`, `has_length`), the async slot rule (`async_param_to_remove`)
and the two variant helpers (`is_to_glib`, `set_to_glib_extra`).

The pass uses collaborators whose code is not part of this model. They
become function-typed fields of `Environment.Env`, so every property holds
for every choice of them:

- the conversion category (`ConversionType::of`);
- the reference mode (`RefMode::without_unneeded_mut`);
- keyword mangling;
- `can_as_return`;
- the string-type override;
- `rust_type`;
- the interface, class and final-type tests.

The configuration lookup `matched_parameters` is a function from a
(mangled) name to its matching configuration entries. The type table that
`has_length` reads is a `map`.

The model has two layers:

- `FunctionParameters.LoweredAt` states every per-descriptor decision.
- `FunctionParameters.Assemble` is the loop, written as a left fold that
  appends each descriptor's entries.

`AnalyzeProperties` proves the loop's bookkeeping once, for any sequence of
decisions, and then reads the results back in terms of the descriptors.
`Scenarios` works out, by proof, the result of the pass on concrete
signatures.

Files:

| file | contents |
|---|---|
| `wrappers.dfy` | `Option`; "the first `Some`" |
| `library.dfy` | type ids, library types, parameter descriptors |
| `environment.dfy` | the collaborators, configuration entries |
| `strings.dfy` | suffix test and substring search |
| `transformations.dfy` | output records, conversion-step variants, `is_to_glib`, `set_to_glib_extra`, well-indexedness |
| `length_detection.dfy` | back-link map, `get_length_type`, `is_length`, `has_length`, `detect_length` |
| `function_parameters.dfy` | per-descriptor decisions, the fold, `analyze`, `analyze_return` |
| `analyze_properties.dfy` | the structural guarantees of `analyze` |
| `scenarios.dfy` | worked signatures |

The code pushes a primary step even for a length parameter that is folded
into its array (line 324, after the `Length` step pushed at lines 204-209).
The model does the same: a folded parameter gets both steps.

## Model

| member | source | states |
|---|---|---|
| FunctionParameters.AsyncParamToRemove | src/analysis/function_parameters.rs:405-407 | the async slot rule (`== "user_data"` or ends in "data") holds exactly for names that end in "data" |
| Transformations.TransformationType.IsToGlib | src/analysis/function_parameters.rs:76-88 | `is_to_glib` is false for exactly the `Length` variant |
| Transformations.SetToGlibExtraLastWins | src/analysis/function_parameters.rs:90-98 | setting the extra twice keeps the second value, and `is_to_glib` is unchanged |
| Transformations.TransformationType.SetToGlibExtra | src/analysis/function_parameters.rs:90-98 | a pointer step takes the new extra and nothing else changes; every other variant is returned unchanged |
| Wrappers.FirstSome | src/analysis/function_parameters.rs:190-193 | `None` iff every element is `None`; otherwise the value of the first `Some` |
| Strings.Find | src/analysis/function_parameters.rs:373 | finds a position iff the pattern occurs somewhere; the position is an occurrence and no earlier one exists |
| Strings.MismatchAt | src/analysis/function_parameters.rs:373 | one mismatching character rules out an occurrence at that offset |
| LengthDetection.GetLengthType | src/analysis/function_parameters.rs:330-342 | always a `Length` step, so never a to-glib one; it carries the array and length names it is given and the Rust type of the length's type |
| LengthDetection.BackLinks | src/analysis/function_parameters.rs:159-163 | the map `analyze` consults: its keys are exactly the positions some descriptor names as its array length, and each maps to the last such descriptor's name |
| LengthDetection.BackLinksPrefixKeys | src/analysis/function_parameters.rs:159-163 | a position is a key of the back-link map iff some descriptor names it as its array length |
| LengthDetection.BackLinksPrefixLastWins | src/analysis/function_parameters.rs:159-163 | when several descriptors name the same length position, the map holds the name of the last one |
| LengthDetection.IsLength | src/analysis/function_parameters.rs:364-378 | a parameter looks like a length iff it is an input whose name ends in "len" or contains "length" |
| LengthDetection.HasLength | src/analysis/function_parameters.rs:380-403 | `has_length` holds iff the type reached by following the alias chain, as far as the type table has entries, is length-bearing |
| LengthDetection.HasLengthResolvesAliases | src/analysis/function_parameters.rs:380-403 | `has_length` holds iff the type the alias chain resolves to is Utf8, Filename, OsString, a C array, fixed array, array, pointer array, list, singly linked list or hash table |
| LengthDetection.HasLengthFuelStable | src/analysis/function_parameters.rs:400 | once an alias chain has ended, following more links does not change the answer |
| LengthDetection.AcyclicChainFitsTable | src/analysis/function_parameters.rs:400 | a chain of distinct aliases has no more links than the type table has entries |
| LengthDetection.HasLengthAcyclic | src/analysis/function_parameters.rs:380-403 | when the alias chain ends after distinct aliases, `has_length` is decided by the type it ends at, so the bound never cuts off an acyclic chain |
| LengthDetection.DetectLength | src/analysis/function_parameters.rs:344-362 | an array is found iff the parameter looks like a length, is not the first one, and the preceding parameter's type bears a length; the array is that preceding parameter |
| LengthDetection.DetectLengthDebug | src/analysis/function_parameters.rs:354-356 | the `pos - 1` underflows exactly when the first parameter looks like a length; otherwise the result agrees with `DetectLength` |
| FunctionParameters.SurfaceByDirection | src/analysis/function_parameters.rs:180-188 | before length folding, a parameter is on the surface iff its direction is In or InOut, or Out when it is neither returnable nor in an async function; in an async function, not when its name ends in "data" |
| FunctionParameters.ArrayNameAt | src/analysis/function_parameters.rs:190-199 | the array name is the first configured `length_of`; failing that, the last back-link to this position; failing that, the heuristic when detection is enabled, else none |
| FunctionParameters.LengthStepAt | src/analysis/function_parameters.rs:200-209 | the `Length` step of a folded parameter names the keyword-mangled array, the parameter's own unmangled name, and the Rust type of its working type |
| FunctionParameters.ResolveNullable | src/analysis/function_parameters.rs:225-229 | the first configured nullability wins; with none, the declared one |
| FunctionParameters.CParamAt | src/analysis/function_parameters.rs:165-246 | the name is kept for the instance parameter and mangled otherwise; Direct and Scalar categories drop caller-allocates and transfer, other categories keep them; nullability comes from `ResolveNullable`; the reference mode is the collaborator's, asked with "any configured entry is constant" and "instance parameter in a trait"; the other fields are copied |
| FunctionParameters.ToGlibType | src/analysis/function_parameters.rs:263-296 | a pointer step iff the category is Pointer; its nullable flag is set iff the parameter is not the receiver, is nullable and its declared type is an interface or class; the extra is `.as_ref()` iff in addition the type is not final, else empty |
| FunctionParameters.ToGlibTypeByCategory | src/analysis/function_parameters.rs:277-296 | Direct, Scalar, Pointer, Borrow and Unknown categories each give exactly their own step kind, and a pointer step carries the native entry's reference mode |
| FunctionParameters.AsyncSubstitute | src/analysis/function_parameters.rs:298-323 | only in async functions: a Direct or Unknown step named "callback" becomes `ToSome`, a pointer step named "user_data" becomes `IntoRaw`; every other step is unchanged |
| FunctionParameters.PushParameter | src/analysis/function_parameters.rs:177-324 | one iteration adds exactly one native entry, a surface entry iff the descriptor is included, and one or two steps |
| FunctionParameters.Assemble | src/analysis/function_parameters.rs:165-325 | after n descriptors the native list has n entries, the surface list at most n, and there are between n and 2n steps |
| FunctionParameters.Analyze | src/analysis/function_parameters.rs:149-328 | `analyze` returns one native entry per descriptor, at most that many surface entries, and between one and two steps per descriptor |
| FunctionParameters.AnalyzeReturn | src/analysis/function_parameters.rs:124-145 | a no-op without a return array length or with an index outside the native list; otherwise exactly one `Length` step with an empty array name is appended; the parameter lists never change and well-indexedness is kept |
| AnalyzeProperties.PushParameterExtends | src/analysis/function_parameters.rs:177-324 | an iteration only appends: earlier entries of all three lists are kept, the new surface entry points at the new native entry, the last step is the primary one, and well-indexedness is preserved |
| AnalyzeProperties.AssembleNativeList | src/analysis/function_parameters.rs:177-246 | the loop pushes one native entry per descriptor, in order |
| AnalyzeProperties.AssembleSurfaceEntries | src/analysis/function_parameters.rs:251-261 | each surface entry repeats the name and type of the native entry it points at, and the entries are in native order |
| AnalyzeProperties.AssembleSurfaceMembership | src/analysis/function_parameters.rs:251-261 | a native entry has a surface entry iff its descriptor was included |
| AnalyzeProperties.AssembleIndices | src/analysis/function_parameters.rs:177-178 | every step's native index is in range, and every surface index is in range and points back to the same native entry |
| AnalyzeProperties.AssemblePrimariesPlaced | src/analysis/function_parameters.rs:298-324 | a primary step carries its descriptor's conversion and names a surface entry iff that descriptor is included |
| AnalyzeProperties.AssemblePrimariesCover | src/analysis/function_parameters.rs:298-324 | every descriptor gets a primary step |
| AnalyzeProperties.AssemblePrimariesOrdered | src/analysis/function_parameters.rs:298-324 | primary steps come in strictly increasing native order |
| AnalyzeProperties.AssembleLengthStepsPlaced | src/analysis/function_parameters.rs:200-210 | a `Length` step is the one decided for its parameter, names no surface entry, and is followed at once by that parameter's primary step |
| AnalyzeProperties.AssembleLengthStepsCover | src/analysis/function_parameters.rs:200-210 | every parameter with a decided `Length` step gets one |
| AnalyzeProperties.AssembleLengthStepsOrdered | src/analysis/function_parameters.rs:200-210 | `Length` steps come in strictly increasing native order |
| AnalyzeProperties.AnalyzeNativeList | src/analysis/function_parameters.rs:165-246 | the native list has one entry per descriptor, entry i is lowered from descriptor i, and its name is kept for the instance parameter and mangled otherwise |
| AnalyzeProperties.AnalyzeSurfaceList | src/analysis/function_parameters.rs:180-202 | a descriptor is on the surface iff its direction is In or InOut, or Out and neither returnable nor async; it is not an async "...data" slot; and no array name was resolved for it. Each surface entry has the name and type of its native entry, and the entries are in native order |
| AnalyzeProperties.AnalyzeWellIndexed | src/analysis/function_parameters.rs:177-178 | every native and surface index that `analyze` stores is valid, and each surface index points back to the step's native entry |
| AnalyzeProperties.AnalyzePrimarySteps | src/analysis/function_parameters.rs:263-324 | each primary step is the conversion of its category after the async substitution, and names a surface entry iff the descriptor is on the surface |
| AnalyzeProperties.AnalyzePrimaryStepPerParameter | src/analysis/function_parameters.rs:298-324 | every descriptor has exactly one primary step, and the primary steps are in descriptor order |
| AnalyzeProperties.AnalyzeLengthSteps | src/analysis/function_parameters.rs:200-210 | each `Length` step belongs to a parameter with a resolved array. It links the mangled array name to the unmangled parameter name, names no surface entry, and directly precedes that parameter's primary step |
| AnalyzeProperties.AnalyzeLengthStepsPerArray | src/analysis/function_parameters.rs:200-210 | every parameter with a resolved array gets a `Length` step, and the `Length` steps are in descriptor order |
| AnalyzeProperties.AnalyzeThenReturnWellIndexed | src/analysis/function_parameters.rs:124-145 | `analyze_return` after `analyze` keeps the result well indexed and the native list 1:1 |
| Scenarios.LengthHeuristicFolds | src/analysis/function_parameters.rs:190-210 | `(data: bytes, len: size)` lowers to surface `[data]`, with steps pointer(data), `Length(data, len, usize)`, scalar(len) |
| Scenarios.NoDetectKeepsLength | src/analysis/function_parameters.rs:197-199 | with detection switched off, `len` stays on the surface and gets no `Length` step |
| Scenarios.AsyncSlotsSubstituted | src/analysis/function_parameters.rs:186-188 | the async `(callback, user_data)` lowers to surface `[callback]`, with steps `ToSome(callback)`, `IntoRaw(user_data)` |
| Scenarios.ScalarFlagsErased | src/analysis/function_parameters.rs:212-219 | a scalar declared with full transfer and caller allocation reaches the native list with neither |
| Scenarios.NullableObjectSuffix | src/analysis/function_parameters.rs:263-293 | a nullable, non-final class parameter gets a nullable pointer step with extra `.as_ref()` |
| Scenarios.FirstLengthUnderflows | src/analysis/function_parameters.rs:354-355 | a first parameter named `len` makes the as-written lookup underflow, while the corrected one answers "no array" |

## Left out

- `src/codegen/special_functions.rs` only writes source text through `io::Write` behind version guards, and is not part of this model.
- The collaborators' own logic is not modelled. Each is an arbitrary deterministic function in `Environment.Env`: conversion category, reference mode, keyword mangling, `can_as_return`, the string-type override, `rust_type` (an opaque string), configuration matching, and the interface, class and final tests. The reference mode is passed through and has no further properties.
- `Vec::with_capacity` in `Parameters::new` only preallocates, so the lists start empty.
- `HashMap` hashing is not modelled. The back-link map is a `map` built left to right, and later entries win, as `collect` does.
- LengthDetection.IsLength: names are sequences of characters, not UTF-8 bytes. The slice of the last three bytes at line 370 would panic when it splits a multi-byte character; that case is not modelled.
- LengthDetection.HasLength: follows at most as many alias links as the type table has entries. `HasLengthAcyclic` proves that an acyclic chain is never cut off. On a cyclic alias chain the source recurses forever, and the model answers false.
- Environment.TypeOf: reads a type id missing from the table as a type without a length. The source's table always holds every id it is asked about.
- `array_length` is a `u32` in the source, and descriptor positions are cast to `u32` for the back-link lookup. The model uses unbounded naturals, so positions of 2^32 and more are not truncated.
- LengthDetection.DetectLength: is the release-build reading of line 355: `pos - 1` wraps to the largest `usize`, `get` finds nothing and there is no array. The debug-build panic is modelled separately (see Findings).

## Findings

| source | as written | input that shows it | evidently intended | confidence | as-written member | corrected member |
|---|---|---|---|---|---|---|
| src/analysis/function_parameters.rs:354-355 | `parameters.get(pos - 1)` on an unsigned `pos`, reached whenever the parameter looks like a length | the first parameter is an input named `len` and length detection is on: `pos - 1` underflows, so a debug build panics (Scenarios.FirstLengthUnderflows) | with no preceding parameter, there is no array and the parameter stays on the surface | not executed; a release build wraps the subtraction and `get` returns `None`, which is the intended answer | LengthDetection.DetectLengthDebug | LengthDetection.DetectLength |
