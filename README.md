# fakereplace bytecode manipulation helpers, modelled in Dafny

fakereplace hot-swaps classes in a running JVM. When a class changes, it
rewrites method bodies and generates small helper methods with javassist.
`ManipulationUtils` holds the helpers that synthesise this bytecode:

- **MethodReturnRewriter.rewriteFakeMethod** makes every return of a method
  yield a reference. Before each `return` of a void method it inserts
  `aconst_null; areturn`. Before each `ireturn`/`lreturn`/`freturn`/`dreturn`
  of a primitive method it inserts the boxing of the result and `areturn`.
  Reference results are left alone.
- **MethodReturnRewriter.addReturnProxyMethod** appends the tail of a proxy
  method. That is `checkcast; areturn`, `return`, or an unboxing followed by
  the typed return.
- **addBogusConstructorCall** appends a call to the class's first `<init>`,
  with a zero or null per parameter, so that a generated constructor passes
  the verifier.
- **add16bit** appends a big-endian 16-bit operand.
- **addDelegatingMethod** adds a method that loads `this` and its
  parameters, calls the superclass method of the same name and descriptor
  with `invokespecial`, and returns the result. It sets `max_locals`.
- **pushParametersIntoArray** replaces the parameters on the operand stack
  by one `Object[]` holding them, boxed where primitive.

The Dafny modules:

- `Descriptors`: the type tokens of method descriptors. These are the
  field-type grammar of section 4.3.2 and the method descriptors of section
  4.3.3 of the Java Virtual Machine Specification (SE 8).
- `Instructions`: the instructions the core emits, as a datatype. Any other
  instruction of an existing body is `Other`, whose opcode is never one of
  the returns 0xac-0xb1, so every return is visible to the rewriter.
- `Machine`: an abstract JVM frame. It has an operand stack of category-1
  and category-2 values (section 2.11.1), local-variable slots where long
  and double take two (section 2.6.1), and a heap of arrays. A step
  function gives the section 6.5 stack effects of the emitted instructions.
- `Javassist`: the javassist objects the core works through. `Bytecode` is
  an append-only buffer. `CodeIterator` is a body with a cursor, and
  `insertAt` moves the cursor past inserted code. `ClassFile` holds the
  method table.
- `Opcodes`: the per-type opcode choices, written once.
- `MethodReturnRewriter` and `ManipulationUtils`: the six routines.

Each routine is an imperative method on these objects. Its `ensures`
relates the new buffer or class contents to a specification function:
`Rewritten`, `ProxyReturnTail`, `BogusConstructorCall`, `Encode16`,
`DelegatesToSuper` or `PackCode`. `Add16Bit` also states the meaning of
its two bytes directly: their big-endian reading `Decode16` is the value
modulo 65536. Lemmas then prove what the emitted code
means. Original instructions keep their order and every patched return is
shadowed by its fragment. The bogus call and the delegating body push
exactly the arguments the called method expects. The packing code builds
the array of boxed arguments. The 16-bit encoding is exact modulo 65536,
for negative values too.

## Model

All source paths below are `core/src/main/java/org/fakereplace/manip/util/ManipulationUtils.java`.

| member | source | states |
|---|---|---|
| Descriptors.Token | core/src/main/java/org/fakereplace/manip/util/ManipulationUtils.java:54-58 | The token of a well-formed type is one character exactly when the type is not a reference or array. So `ret.length() != 1` is the test `ret.Ref?`. |
| Descriptors.Classify | core/src/main/java/org/fakereplace/manip/util/ManipulationUtils.java:255-279 | The string tests on a token (each one-letter base type, `V`, else a reference) lose nothing: the type's token is the string that was classified. |
| Descriptors.ClassifyToken | core/src/main/java/org/fakereplace/manip/util/ManipulationUtils.java:255-279 | Round trip: classifying the token of a well-formed type gives the type back. |
| Opcodes.KindOf | core/src/main/java/org/fakereplace/manip/util/ManipulationUtils.java:223-251 | The load prefix chosen for a type holds every value of that type. The prefixes are i for I/C/S/Z/B, l for J, d for D, f for F and a otherwise. |
| Opcodes.ReturnOpcode | core/src/main/java/org/fakereplace/manip/util/ManipulationUtils.java:255-279 | `return` is chosen exactly for V. Every other chosen return accepts every value of the return type. |
| Opcodes.Placeholder | core/src/main/java/org/fakereplace/manip/util/ManipulationUtils.java:171-190 | The zero or null pushed for a parameter (iconst_0 for I/C/S/Z/B, lconst_0 for J, dconst_0 for D, fconst_0 for F, aconst_null otherwise) always executes and pushes exactly `DefaultValue(t)`. |
| Opcodes.DefaultValue | core/src/main/java/org/fakereplace/manip/util/ManipulationUtils.java:169-191 | The value the placeholder pushes has the parameter's type and takes as many slots as the parameter. |
| Opcodes.LoadOpReads | core/src/main/java/org/fakereplace/manip/util/ManipulationUtils.java:225-250 | The load chosen for a parameter (iload, lload, dload, fload or aload of the given slot; `LoadOp`) executes on any frame whose local at that slot has the parameter's type, and pushes that local. |
| Javassist.Bytecode.Add | core/src/main/java/org/fakereplace/manip/util/ManipulationUtils.java:166 | `add` appends one instruction to the buffer and changes nothing else. |
| Javassist.CodeIterator.HasNext | core/src/main/java/org/fakereplace/manip/util/ManipulationUtils.java:64 | True while the cursor is before the end of the body (a definition, no contract). |
| Javassist.CodeIterator.Next | core/src/main/java/org/fakereplace/manip/util/ManipulationUtils.java:64-67 | Returns the cursor's index and advances the cursor by one. The code is unchanged. |
| Javassist.CodeIterator.ByteAt | core/src/main/java/org/fakereplace/manip/util/ManipulationUtils.java:67 | The instruction at an index of the body (a definition, no contract). |
| Javassist.CodeIterator.InsertAt | core/src/main/java/org/fakereplace/manip/util/ManipulationUtils.java:76 | Splices the fragment in before the index. A cursor at or after the index moves past the inserted code. |
| Javassist.ClassFile.AddMethod | core/src/main/java/org/fakereplace/manip/util/ManipulationUtils.java:284 | Appends the method exactly when no method of the same name and descriptor is declared. Otherwise the table is unchanged, standing in for DuplicateMemberException. |
| MethodReturnRewriter.IsRewrittenReturn | core/src/main/java/org/fakereplace/manip/util/ManipulationUtils.java:89-93 | Which returns are patched: `return` for V (line 72); for any primitive result all four of ireturn, lreturn, dreturn and freturn, whatever the result type; never areturn (a definition; `PatchedReturns` states it against the opcodes). |
| MethodReturnRewriter.PatchedReturns | core/src/main/java/org/fakereplace/manip/util/ManipulationUtils.java:72-93 | A return is patched exactly when it is `return` in a void method, or one of ireturn, lreturn, dreturn, freturn in a method with any primitive result. |
| MethodReturnRewriter.CoercionFragment | core/src/main/java/org/fakereplace/manip/util/ManipulationUtils.java:73-98 | The inserted fragment is two instructions ending in areturn, and none of them is itself a return the rewriter patches. |
| MethodReturnRewriter.Rewritten | core/src/main/java/org/fakereplace/manip/util/ManipulationUtils.java:72-77 | The rewritten body is longer by exactly two instructions per patched return. |
| MethodReturnRewriter.RewriteFakeMethod | core/src/main/java/org/fakereplace/manip/util/ManipulationUtils.java:52-107 | The code before the cursor is kept. The code from the cursor on becomes `Rewritten(rest, ret)`. The cursor stays put for a reference result and ends at the end of the body otherwise. |
| MethodReturnRewriter.CoerceReturns | core/src/main/java/org/fakereplace/manip/util/ManipulationUtils.java:64-105 | The `while (hasNext())` loop terminates with the cursor at the end. The body from the cursor on is rewritten chunk by chunk, and inserted code is never rescanned. |
| MethodReturnRewriter.VisitNext | core/src/main/java/org/fakereplace/manip/util/ManipulationUtils.java:86-99 | One iteration: it steps over the instruction and, if it is a return to patch, puts the fragment before it. The cursor ends past both. |
| MethodReturnRewriter.InsertCoercion | core/src/main/java/org/fakereplace/manip/util/ManipulationUtils.java:73-76 | Inserts `aconst_null; areturn` (void) or the boxing and `areturn` (primitive) before the index. A cursor at or after the index moves by two. |
| MethodReturnRewriter.RewrittenReferenceIsIdentity | core/src/main/java/org/fakereplace/manip/util/ManipulationUtils.java:54-58 | For a reference or array result the body is unchanged. |
| MethodReturnRewriter.RewrittenPlacement | core/src/main/java/org/fakereplace/manip/util/ManipulationUtils.java:64-105 | Every original instruction survives at its computed place. A patched return is immediately preceded by its fragment: `aconst_null, areturn` for void, the boxing and `areturn` otherwise. |
| MethodReturnRewriter.RewrittenTiling | core/src/main/java/org/fakereplace/manip/util/ManipulationUtils.java:64-105 | Consecutive original instructions are separated by exactly the code inserted before the second one, and the last one ends the body. Nothing else is inserted. |
| MethodReturnRewriter.RewrittenKeepsOrder | core/src/main/java/org/fakereplace/manip/util/ManipulationUtils.java:64-105 | Original instructions keep their relative order. |
| MethodReturnRewriter.RewrittenReturnShadowed | core/src/main/java/org/fakereplace/manip/util/ManipulationUtils.java:72-99 | Any return of the patched kind at any index of the rewritten body comes right after the fragment. |
| MethodReturnRewriter.RewrittenShadowsEveryReturn | core/src/main/java/org/fakereplace/manip/util/ManipulationUtils.java:72-99 | Every return of the patched kind in the rewritten body is preceded by a fragment ending in areturn, so it is never reached. |
| MethodReturnRewriter.CoercionFragmentPushesReference | core/src/main/java/org/fakereplace/manip/util/ManipulationUtils.java:68-99 | Run on the frame, the fragment leaves null (void) or the boxed result (primitive) on the stack, and its areturn accepts that reference. |
| MethodReturnRewriter.ProxyReturnTail | core/src/main/java/org/fakereplace/manip/util/ManipulationUtils.java:115-144 | The proxy tail ends in the return opcode for the declared return type. |
| MethodReturnRewriter.AddReturnProxyMethod | core/src/main/java/org/fakereplace/manip/util/ManipulationUtils.java:115-144 | Only appends to `b`. For a reference it appends `checkcast; areturn`, for V `return`, and otherwise the unboxing then freturn, dreturn or lreturn for F, D or J, or ireturn for anything else. |
| MethodReturnRewriter.BoxThenProxyUnboxRoundTrip | core/src/main/java/org/fakereplace/manip/util/ManipulationUtils.java:129-141 | Boxing a primitive result and then running the proxy tail's unboxing gives the original value back, and the tail's typed return accepts it. |
| ManipulationUtils.FirstConstructor | core/src/main/java/org/fakereplace/manip/util/ManipulationUtils.java:154-164 | Finds nothing exactly when no method is named `<init>`. Otherwise it finds the first one in declaration order. |
| ManipulationUtils.AddBogusConstructorCall | core/src/main/java/org/fakereplace/manip/util/ManipulationUtils.java:153-196 | Returns true exactly when the class declares an `<init>`. On false the code is unchanged. On true it appends `aload_0`, one placeholder per parameter, `invokespecial` of the class's first `<init>` with that constructor's descriptor, and `return`. |
| ManipulationUtils.AddPlaceholders | core/src/main/java/org/fakereplace/manip/util/ManipulationUtils.java:169-191 | The parameter loop appends exactly one placeholder per parameter, in declaration order. |
| ManipulationUtils.DefaultsFillParameterSlots | core/src/main/java/org/fakereplace/manip/util/ManipulationUtils.java:169-191 | The placeholders pushed take exactly the slot width of the constructor's parameters. |
| ManipulationUtils.ExecPlaceholders | core/src/main/java/org/fakereplace/manip/util/ManipulationUtils.java:169-191 | The placeholder sequence always executes and pushes one default value per parameter, in order. |
| ManipulationUtils.BogusCallPushesArguments | core/src/main/java/org/fakereplace/manip/util/ManipulationUtils.java:165-195 | The call is `|params| + 3` instructions. Up to the invokespecial it pushes `this` and one value of each parameter's type, then it calls the constructor and returns. |
| ManipulationUtils.JavaRem | core/src/main/java/org/fakereplace/manip/util/ManipulationUtils.java:205-207 | Java's `%` on int: the remainder is smaller than the divisor in magnitude, takes the sign of the dividend, and its magnitude is the remainder of the dividend's magnitude. |
| ManipulationUtils.ToByte | core/src/main/java/org/fakereplace/manip/util/ManipulationUtils.java:206-207 | The `(byte)` cast in `Bytecode.add`, read back unsigned: 0..255 are kept, and -256..-1 become their two's-complement bytes. |
| ManipulationUtils.JavaRemCongruent | core/src/main/java/org/fakereplace/manip/util/ManipulationUtils.java:205-207 | Java's truncating `%` by 256 or 65536 agrees with the mathematical remainder modulo that divisor. |
| ManipulationUtils.SplitBytes | core/src/main/java/org/fakereplace/manip/util/ManipulationUtils.java:206-207 | For -65536 < v < 65536, the bytes `(byte)(v >> 8)` and `(byte)(v % 256)` read big-endian give v modulo 65536. |
| ManipulationUtils.Encode16 | core/src/main/java/org/fakereplace/manip/util/ManipulationUtils.java:204-208 | Exactly two bytes, which read big-endian give the value modulo 65536, for every int including negative ones. |
| ManipulationUtils.Encode16Decode16 | core/src/main/java/org/fakereplace/manip/util/ManipulationUtils.java:204-208 | Round trip: encoding the unsigned value of two bytes gives those bytes back. |
| ManipulationUtils.Add16BitExamples | core/src/main/java/org/fakereplace/manip/util/ManipulationUtils.java:204-208 | 0 gives 00 00, 65535 gives FF FF, and 65536 wraps to 00 00. |
| ManipulationUtils.Add16Bit | core/src/main/java/org/fakereplace/manip/util/ManipulationUtils.java:204-208 | Appends exactly the two bytes `Encode16(value)` and keeps the old code. The bytes decode to the value modulo 65536. |
| ManipulationUtils.ParamLoadsAt | core/src/main/java/org/fakereplace/manip/util/ManipulationUtils.java:223-253 | There is one load per parameter. Load k uses the opcode of parameter k's category and reads slot 1 + the widths of the parameters before it. |
| ManipulationUtils.AddParameterLoad | core/src/main/java/org/fakereplace/manip/util/ManipulationUtils.java:224-252 | One loop turn appends the typed load of slot `count`. `count` and `maxLocals` both grow by the parameter's width: 2 for J and D, 1 otherwise. |
| ManipulationUtils.AddParameterLoads | core/src/main/java/org/fakereplace/manip/util/ManipulationUtils.java:219-253 | The loop appends the loads of all parameters. Its invariant is `count == maxLocals == 1 + widths so far`, and it returns `maxLocals == 1 + SlotSum(params)`. |
| ManipulationUtils.DelegatingBody | core/src/main/java/org/fakereplace/manip/util/ManipulationUtils.java:217-282 | The body is `aload_0`, then the parameter loads, then `invokespecial` of the superclass method with the same name and descriptor, then the return opcode of the return type. Its max_locals is 1 + the parameter widths. |
| ManipulationUtils.AddDelegatingMethod | core/src/main/java/org/fakereplace/manip/util/ManipulationUtils.java:214-285 | When no method of that name and descriptor exists, exactly one method is appended. It has the given name, types and access flags and a delegating body. Otherwise the class is unchanged. |
| ManipulationUtils.LayoutLength | core/src/main/java/org/fakereplace/manip/util/ManipulationUtils.java:221-252 | Typed arguments laid out in local slots take SlotSum(params) slots, so max_locals covers `this` and every argument. |
| ManipulationUtils.LayoutAt | core/src/main/java/org/fakereplace/manip/util/ManipulationUtils.java:221-252 | Argument k sits at local slot SlotSum(params[..k]), one less than the slot the delegating body loads from, because slot 0 holds `this`. |
| ManipulationUtils.ParamLoadStep | core/src/main/java/org/fakereplace/manip/util/ManipulationUtils.java:225-251 | The load emitted for parameter j executes and pushes argument j. |
| ManipulationUtils.ExecParamLoads | core/src/main/java/org/fakereplace/manip/util/ManipulationUtils.java:223-253 | The loads of the first k parameters push the first k arguments, in order. |
| ManipulationUtils.DelegatingBodyPassesArguments | core/src/main/java/org/fakereplace/manip/util/ManipulationUtils.java:219-282 | Entered with `this` and typed arguments in their slots, the body fits its max_locals. Before the invokespecial its stack holds exactly `this` and the arguments, in order. |
| ManipulationUtils.Rotation | core/src/main/java/org/fakereplace/manip/util/ManipulationUtils.java:297-309 | The rotation code: dup_x2, dup_x2, pop for J and D, dup_x1, swap otherwise (a definition; `RotationStep` states its effect). |
| ManipulationUtils.PackCode | core/src/main/java/org/fakereplace/manip/util/ManipulationUtils.java:290-318 | All that pushParametersIntoArray emits: iconst n, anewarray java.lang.Object, then the steps for parameters n-1 down to 0 (a definition; `PackCodeBuildsArray` states its effect). |
| ManipulationUtils.AddRotation | core/src/main/java/org/fakereplace/manip/util/ManipulationUtils.java:297-309 | Appends `dup_x2, dup_x2, pop` for a wide parameter, and `dup_x1, swap` otherwise. |
| ManipulationUtils.AddStore | core/src/main/java/org/fakereplace/manip/util/ManipulationUtils.java:316-318 | Appends `iconst i, swap, aastore`. |
| ManipulationUtils.AddPackStep | core/src/main/java/org/fakereplace/manip/util/ManipulationUtils.java:297-318 | Appends one loop turn: the rotation, the boxing when the parameter is primitive, and the store at index i. |
| ManipulationUtils.AddPackSteps | core/src/main/java/org/fakereplace/manip/util/ManipulationUtils.java:295-321 | The count-down loop appends the steps for parameters n-1 down to 0. |
| ManipulationUtils.PushParametersIntoArray | core/src/main/java/org/fakereplace/manip/util/ManipulationUtils.java:287-322 | Appends `iconst n; anewarray java.lang.Object` and then the steps. |
| ManipulationUtils.BoxIfPrimitive | core/src/main/java/org/fakereplace/manip/util/ManipulationUtils.java:312-314 | What is stored for an argument of its declared type is always a reference, which aastore accepts. |
| ManipulationUtils.DupX2Wide | core/src/main/java/org/fakereplace/manip/util/ManipulationUtils.java:298-301 | dup_x2 over a category-2 value and a category-1 value on top (form 2) puts a copy of the top below the wide value. |
| ManipulationUtils.RotationStep | core/src/main/java/org/fakereplace/manip/util/ManipulationUtils.java:297-309 | Both rotations turn "parameter, array" into "array, array, parameter", for wide and narrow parameters alike. |
| ManipulationUtils.BoxingStep | core/src/main/java/org/fakereplace/manip/util/ManipulationUtils.java:312-314 | The boxing replaces a primitive parameter on top by its boxed value and leaves a reference alone. |
| ManipulationUtils.StoreStep | core/src/main/java/org/fakereplace/manip/util/ManipulationUtils.java:316-318 | The store writes the value on top into index i of the array and leaves one array reference on top. |
| ManipulationUtils.PackStepStores | core/src/main/java/org/fakereplace/manip/util/ManipulationUtils.java:297-320 | One loop turn consumes the parameter below the array, stores it (boxed if primitive) at index i, and keeps the array on top. |
| ManipulationUtils.PackStepsStore | core/src/main/java/org/fakereplace/manip/util/ManipulationUtils.java:295-321 | After handling parameter i, the stack is the parameters before i followed by the array. The array holds the boxed parameters from i on and null below i. |
| ManipulationUtils.PackCodeBuildsArray | core/src/main/java/org/fakereplace/manip/util/ManipulationUtils.java:287-322 | On a stack ending with typed arguments, the code leaves a reference to a new array of length n instead. Element i is argument i, boxed when its type is primitive. Nothing below the arguments changes. |

## Left out

- Byte-level code: instructions are whole elements of a sequence. Byte offsets, the branch-offset and exception-table rebasing inside `insertAt`, and the constant pool are not modelled.
- The `BadBytecode` to `RuntimeException` wrapping in the rewriter (lines 79-80 and 102-103). It can only arise from decoding bytes, which the model does not do.
- `toCodeAttribute` and `computeMaxStack` (lines 280-281). The code attribute carries the code and `max_locals` only.
- Descriptor parsing: `DescriptorUtils` is not part of this model. Methods and `MethodData` carry their parameter and return types as type sequences, and descriptor strings are built from them.
- `Boxing.box` and `Boxing.unbox` are not part of this model. Each is one abstract instruction that turns a primitive into its wrapper, or a wrapper of the right type back into the primitive.
- The run-time behaviour of `checkcast`: the proxy tail's `checkcast` is emitted but has no meaning on the abstract frame.
- Floating-point values are never computed; float and double matter only as opcode choices and operand categories.
- Javassist.ClassFile.AddMethod: the `DuplicateMemberException` is a `false` result that leaves the class unchanged, not an exception.
- ManipulationUtils.AddDelegatingMethod: inherits that duplicate outcome as its `false` result.
- MethodReturnRewriter.RewriteFakeMethod: the two scanning loops (lines 64-82 and 84-105) are one loop. The fragment and the patched returns are chosen by the return type, and each source loop is the case for its return type.
- MethodReturnRewriter.RewriteFakeMethod: the descriptor's return token is given as a type, and `ret.length() != 1` is the test for a reference or array type. `Descriptors.Token` proves the two agree for well-formed tokens.
- The comment at line 94 speaks of writing a NOP over the old return. The code does not do that: it inserts the fragment before the return and keeps it. The model follows the code.
- The semantics of `Machine` covers only the straight-line instructions the core emits. The `invokespecial` and return instructions are not executed. The lemmas state what the stack holds when they are reached, and which return opcode accepts the result.
