/**
 * ManipulationUtils: bytecode synthesis helpers. Each routine appends to a code
 * buffer or adds a method to a class; the lemmas run the emitted code on the
 * abstract frame of module Machine.
 */
module ManipulationUtils {
  import opened Options
  import opened Descriptors
  import opened Instructions
  import opened Machine
  import opened Javassist
  import opened Opcodes

  // ---------------------------------------------------------------------------
  // addBogusConstructorCall

  /** `i` is the first method named `<init>` in declaration order. */
  predicate IsFirstConstructor(methods: seq<MethodInfo>, i: nat) {
    i < |methods| && methods[i].name == "<init>" && forall j :: 0 <= j < i ==> methods[j].name != "<init>"
  }

  /** The search loop: the first `<init>`, or None when the class declares no constructor. */
  method FirstConstructor(methods: seq<MethodInfo>) returns (r: Option<nat>)
    ensures r.None? <==> forall j :: 0 <= j < |methods| ==> methods[j].name != "<init>"
    ensures r.Some? ==> IsFirstConstructor(methods, r.value)
  {
    for i := 0 to |methods|
      invariant forall j :: 0 <= j < i ==> methods[j].name != "<init>"
    {
      if methods[i].name == "<init>" {
        return Some(i);
      }
    }
    return None;
  }

  function Placeholders(ps: seq<JType>): seq<Instr> {
    seq(|ps|, k requires 0 <= k < |ps| => Placeholder(ps[k]))
  }

  function Defaults(ps: seq<JType>): seq<Value> {
    seq(|ps|, k requires 0 <= k < |ps| => DefaultValue(ps[k]))
  }

  /** The bogus call: `aload_0`, a zero or null per parameter, `invokespecial` of the constructor, `return`. */
  function BogusConstructorCall(owner: string, ctor: MethodInfo): seq<Instr> {
    [Load(A, 0)] + Placeholders(ctor.params) + [InvokeSpecial(owner, "<init>", Descriptor(ctor)), Return]
  }

  /**
   * addBogusConstructorCall: when the class declares a constructor, append a
   * call to the first one with placeholder arguments and report true;
   * otherwise leave `code` alone and report false.
   */
  method AddBogusConstructorCall(file: ClassFile, code: Bytecode) returns (called: bool)
    modifies code
    ensures called <==> exists i :: 0 <= i < |file.methods| && file.methods[i].name == "<init>"
    ensures !called ==> code.code == old(code.code)
    ensures called ==> exists i: nat ::
      IsFirstConstructor(file.methods, i) && code.code == old(code.code) + BogusConstructorCall(file.name, file.methods[i])
  {
    var found := FirstConstructor(file.methods);
    if found.None? {
      return false;
    }
    var ctor := file.methods[found.value];
    ghost var before := code.code;
    code.Add(Load(A, 0));  // push this
    AddPlaceholders(code, ctor.params);
    code.Add(InvokeSpecial(file.name, "<init>", Descriptor(ctor)));
    code.Add(Return);
    BogusCallParts(before, file.name, ctor);
    assert IsFirstConstructor(file.methods, found.value);
    return true;
  }

  lemma BogusCallParts(before: seq<Instr>, owner: string, ctor: MethodInfo)
    ensures before + [Load(A, 0)] + Placeholders(ctor.params) + [InvokeSpecial(owner, "<init>", Descriptor(ctor))] + [Return]
         == before + BogusConstructorCall(owner, ctor)
  {
  }

  /** The parameter loop: a zero or null per parameter, in order. */
  method AddPlaceholders(code: Bytecode, params: seq<JType>)
    modifies code
    ensures code.code == old(code.code) + Placeholders(params)
  {
    for k := 0 to |params|
      invariant code.code == old(code.code) + Placeholders(params[..k])
    {
      assert Placeholders(params[..k + 1]) == Placeholders(params[..k]) + [Placeholder(params[k])];
      code.Add(Placeholder(params[k]));
    }
    assert params[..|params|] == params;
  }

  /** Stack slots a sequence of values occupies. */
  function StackSlots(vs: seq<Value>): nat {
    if vs == [] then 0 else StackSlots(vs[..|vs| - 1]) + Category(vs[|vs| - 1])
  }

  /** The placeholders take exactly the slots of the parameters they stand for. */
  lemma {:induction false} DefaultsFillParameterSlots(ps: seq<JType>)
    requires forall k :: 0 <= k < |ps| ==> ps[k] != Void
    ensures StackSlots(Defaults(ps)) == SlotSum(ps)
  {
    if ps != [] {
      var n := |ps| - 1;
      DefaultsFillParameterSlots(ps[..n]);
      assert Defaults(ps)[..n] == Defaults(ps[..n]);
    }
  }

  lemma {:induction false} ExecPlaceholders(ps: seq<JType>, st: State)
    ensures Exec(Placeholders(ps), st) == Some(st.(stack := st.stack + Defaults(ps)))
    decreases |ps|
  {
    if ps == [] {
      assert st.stack + Defaults(ps) == st.stack;
    } else {
      var next := Push(st, DefaultValue(ps[0]));
      assert Placeholders(ps)[1..] == Placeholders(ps[1..]);
      ExecPlaceholders(ps[1..], next);
      assert next.stack + Defaults(ps[1..]) == st.stack + Defaults(ps);
    }
  }

  /**
   * Run up to the invokespecial, the bogus call pushes the receiver and one
   * value of each parameter's type, in order: the arguments the constructor's
   * descriptor asks for.
   */
  lemma BogusCallPushesArguments(owner: string, ctor: MethodInfo, st: State)
    requires |st.locals| > 0 && IsRef(st.locals[0])
    requires forall k :: 0 <= k < |ctor.params| ==> ctor.params[k] != Void
    ensures var r := BogusConstructorCall(owner, ctor);
      var args := Defaults(ctor.params);
      |r| == |ctor.params| + 3
      && Exec(r[..|r| - 2], st) == Some(st.(stack := st.stack + [st.locals[0]] + args))
      && (forall k :: 0 <= k < |args| ==> HasType(args[k], ctor.params[k]))
      && r[|r| - 2] == InvokeSpecial(owner, "<init>", Descriptor(ctor))
      && r[|r| - 1] == Return
  {
    var r := BogusConstructorCall(owner, ctor);
    var next := Push(st, st.locals[0]);
    assert r[..|r| - 2] == [Load(A, 0)] + Placeholders(ctor.params);
    assert Step(Load(A, 0), st) == Some(next);
    ExecPlaceholders(ctor.params, next);
    assert ([Load(A, 0)] + Placeholders(ctor.params))[1..] == Placeholders(ctor.params);
  }

  // ---------------------------------------------------------------------------
  // add16bit

  type int32 = x: int | -0x8000_0000 <= x < 0x8000_0000

  /** Java's `%` on int: truncating division, so the remainder takes the sign of the dividend. */
  function JavaRem(a: int, b: int): (r: int)
    requires b > 0
    ensures -b < r < b
    ensures (a > 0 ==> r >= 0) && (a < 0 ==> r <= 0)
    ensures (if r < 0 then -r else r) == (if a < 0 then -a else a) % b
  {
    if a >= 0 then a % b else -((-a) % b)
  }

  /** `(byte) x` as stored in the code array, read back as an unsigned byte. */
  function ToByte(x: int): (r: byte)
    ensures 0 <= x < 256 ==> r == x
    ensures -256 <= x < 0 ==> r == x + 256
  {
    x % 256
  }

  /** The remainder modulo b is the r with x == b * k + r and 0 <= r < b (for the divisors add16bit uses). */
  lemma ModUnique(x: int, k: int, r: int, b: int)
    requires (b == 256 || b == 65536) && 0 <= r < b && x == b * k + r
    ensures x % b == r
  {
    if b == 256 {
      assert x == 256 * (x / 256) + x % 256;
      assert 256 * (k - x / 256) == x % 256 - r;
    } else {
      assert x == 65536 * (x / 65536) + x % 65536;
      assert 65536 * (k - x / 65536) == x % 65536 - r;
    }
  }

  /**
   * The Java remainder differs from the mathematical one by a multiple of the
   * divisor (stated for the two divisors add16bit uses).
   */
  lemma JavaRemCongruent(a: int, b: int)
    requires b == 256 || b == 65536
    ensures JavaRem(a, b) % b == a % b
  {
    if a < 0 {
      var q, m := (-a) / b, (-a) % b;
      assert -a == b * q + m && 0 <= m < b by {
        if b == 256 {
          assert -a == 256 * ((-a) / 256) + (-a) % 256;
        } else {
          assert -a == 65536 * ((-a) / 65536) + (-a) % 65536;
        }
      }
      if m == 0 {
        ModUnique(a, -q, 0, b);
        ModUnique(0, 0, 0, b);
      } else {
        ModUnique(a, -q - 1, b - m, b);
        ModUnique(-m, -1, b - m, b);
      }
    }
  }

  /** High byte times 256 plus low byte recovers any v in (-65536, 65536) modulo 65536. */
  lemma SplitBytes(v: int)
    requires -65536 < v < 65536
    ensures ToByte(v / 256) as int * 256 + ToByte(JavaRem(v, 256)) as int == v % 65536
  {
    JavaRemCongruent(v, 256);
    if v < 0 {
      assert -256 <= v / 256 < 0;
    }
  }

  /**
   * The two bytes add16bit appends: with v == value % 65536 (Java), the bytes
   * (byte)(v >> 8) and (byte)(v % 256). Read big-endian they give the value
   * modulo 65536, for negative values too.
   */
  function Encode16(value: int32): (r: seq<byte>)
    ensures |r| == 2 && r[0] as int * 256 + r[1] as int == value % 65536
  {
    var v := JavaRem(value, 65536);
    JavaRemCongruent(value, 65536);
    SplitBytes(v);
    // v >> 8: an arithmetic shift right is a floor division
    [ToByte(v / 256), ToByte(JavaRem(v, 256))]
  }

  /** The big-endian reading of two operand bytes. */
  function Decode16(hi: byte, lo: byte): (v: int)
    ensures 0 <= v < 65536
  {
    hi as int * 256 + lo as int
  }

  /** Encoding an unsigned 16-bit value gives back its two bytes. */
  lemma Encode16Decode16(hi: byte, lo: byte)
    ensures Encode16(Decode16(hi, lo)) == [hi, lo]
  {
    var r := Encode16(Decode16(hi, lo));
    assert r[0] as int * 256 + r[1] as int == hi as int * 256 + lo as int;
  }

  /** 0, 65535 and 65536 encode as 00 00, FF FF and 00 00. */
  lemma Add16BitExamples()
    ensures Encode16(0) == [0, 0]
    ensures Encode16(65535) == [255, 255]
    ensures Encode16(65536) == [0, 0]
  {
  }

  /** add16bit: append the two bytes of `value` modulo 65536, high byte first. */
  method Add16Bit(b: Bytecode, value: int32)
    modifies b
    ensures |b.code| == |old(b.code)| + 2 && b.code[..|old(b.code)|] == old(b.code)
    ensures b.code[|b.code| - 2].Operand? && b.code[|b.code| - 1].Operand?
    ensures Decode16(b.code[|b.code| - 2].b, b.code[|b.code| - 1].b) == value % 65536
    ensures b.code == old(b.code) + [Operand(Encode16(value)[0]), Operand(Encode16(value)[1])]
  {
    var bytes := Encode16(value);
    b.Add(Operand(bytes[0]));
    b.Add(Operand(bytes[1]));
  }

  // ---------------------------------------------------------------------------
  // addDelegatingMethod

  /** The name, parameter and return types, and access flags of the method to delegate. */
  datatype MethodData = MethodData(name: string, params: seq<JType>, ret: JType, accessFlags: int)

  /**
   * The parameter loads of a delegating body: parameter k is loaded, with the
   * load instruction of its type, from local slot 1 + SlotSum(ps[..k]) (slot 0
   * is `this`, a long or double takes two).
   */
  function ParamLoads(ps: seq<JType>): seq<Instr> {
    if ps == [] then []
    else
      var n := |ps| - 1;
      ParamLoads(ps[..n]) + [LoadOp(ps[n], 1 + SlotSum(ps[..n]))]
  }

  /** Load k reads parameter k, with the load instruction of its type, from slot 1 + SlotSum(ps[..k]). */
  lemma {:induction false} ParamLoadsAt(ps: seq<JType>, k: nat)
    requires k < |ps|
    ensures |ParamLoads(ps)| == |ps|
    ensures ParamLoads(ps)[k] == LoadOp(ps[k], 1 + SlotSum(ps[..k]))
  {
    var n := |ps| - 1;
    if k < n {
      ParamLoadsAt(ps[..n], k);
      assert ps[..n][..k] == ps[..k];
    } else if n > 0 {
      ParamLoadsAt(ps[..n], n - 1);
    }
  }

  /**
   * `code` delegates to the superclass: it loads `this` and every parameter,
   * calls the superclass's method of the same name and descriptor, and
   * returns its result with the return instruction of the return type;
   * `maxLocals` counts `this` and the parameter slots.
   */
  ghost predicate DelegatesToSuper(superclass: string, data: MethodData, code: seq<Instr>, maxLocals: nat) {
    code == [Load(A, 0)] + ParamLoads(data.params)
            + [InvokeSpecial(superclass, data.name, MethodDescriptor(data.params, data.ret)), ReturnOpcode(data.ret)]
    && maxLocals == 1 + SlotSum(data.params)
  }

  /** One turn of the parameter loop: the typed load of slot `count`, which then moves past the parameter. */
  method AddParameterLoad(b: Bytecode, p: JType, count: nat, maxLocals: nat) returns (count': nat, maxLocals': nat)
    modifies b
    ensures b.code == old(b.code) + [LoadOp(p, count)]
    ensures count' == count + Width(p) && maxLocals' == maxLocals + Width(p)
  {
    count', maxLocals' := count, maxLocals;
    if p == Int || p == Char || p == Short || p == Boolean || p == Byte {
      b.Add(Load(I, count));
      maxLocals' := maxLocals' + 1;
    } else if p == Long {
      b.Add(Load(L, count));
      maxLocals' := maxLocals' + 2;
      count' := count' + 1;
    } else if p == Double {
      b.Add(Load(D, count));
      maxLocals' := maxLocals' + 2;
      count' := count' + 1;
    } else if p == Float {
      b.Add(Load(F, count));
      maxLocals' := maxLocals' + 1;
    } else {
      b.Add(Load(A, count));
      maxLocals' := maxLocals' + 1;
    }
    count' := count' + 1;
  }

  /** The parameter loop: loads every parameter, counting slots from 1 (slot 0 holds this). */
  method AddParameterLoads(b: Bytecode, params: seq<JType>) returns (maxLocals: nat)
    modifies b
    ensures b.code == old(b.code) + ParamLoads(params)
    ensures maxLocals == 1 + SlotSum(params)
  {
    var count := 1;
    maxLocals := 1;
    for k := 0 to |params|
      invariant b.code == old(b.code) + ParamLoads(params[..k])
      invariant count == maxLocals == 1 + SlotSum(params[..k])
    {
      assert params[..k + 1][..k] == params[..k];
      count, maxLocals := AddParameterLoad(b, params[k], count, maxLocals);
    }
    assert params[..|params|] == params;
  }

  /** The body addDelegatingMethod builds, with its max-locals count. */
  method DelegatingBody(superclass: string, data: MethodData) returns (code: seq<Instr>, maxLocals: nat)
    ensures DelegatesToSuper(superclass, data, code, maxLocals)
  {
    var b := new Bytecode();
    b.Add(Load(A, 0));  // push this
    maxLocals := AddParameterLoads(b, data.params);
    b.Add(InvokeSpecial(superclass, data.name, MethodDescriptor(data.params, data.ret)));
    b.Add(ReturnOpcode(data.ret));
    code := b.code;
    DelegatingParts(superclass, data);
  }

  lemma DelegatingParts(superclass: string, data: MethodData)
    ensures [] + [Load(A, 0)] + ParamLoads(data.params) + [InvokeSpecial(superclass, data.name, MethodDescriptor(data.params, data.ret))]
            + [ReturnOpcode(data.ret)]
         == [Load(A, 0)] + ParamLoads(data.params)
            + [InvokeSpecial(superclass, data.name, MethodDescriptor(data.params, data.ret)), ReturnOpcode(data.ret)]
  {
  }

  /**
   * addDelegatingMethod: add to `file` a method with the given name,
   * descriptor and access flags whose body delegates to the superclass.
   * A method of the same name and descriptor already declared makes it fail
   * and leaves the class as it was.
   */
  method AddDelegatingMethod(file: ClassFile, data: MethodData) returns (added: bool)
    modifies file
    ensures added == !Declares(old(file.methods), data.name, MethodDescriptor(data.params, data.ret))
    ensures !added ==> file.methods == old(file.methods)
    ensures added ==> |file.methods| == |old(file.methods)| + 1 && file.methods[..|old(file.methods)|] == old(file.methods)
    ensures added ==>
      var m := file.methods[|old(file.methods)|];
      m.name == data.name && m.params == data.params && m.ret == data.ret && m.accessFlags == data.accessFlags
      && m.code.Some? && DelegatesToSuper(file.superclass, data, m.code.value.code, m.code.value.maxLocals)
  {
    var code, maxLocals := DelegatingBody(file.superclass, data);
    var m := MethodInfo(data.name, data.params, data.ret, data.accessFlags, Some(CodeAttribute(code, maxLocals)));
    added := file.AddMethod(m);
  }

  /** Every argument has its parameter's type. */
  predicate Typed(args: seq<Value>, ps: seq<JType>) {
    |args| == |ps| && forall k :: 0 <= k < |ps| ==> HasType(args[k], ps[k])
  }

  /**
   * The local variables a call sets up from its arguments: each in turn, a
   * category-2 value followed by the unusable upper half of its slot pair.
   */
  function Layout(args: seq<Value>): seq<Value> {
    if args == [] then []
    else
      var v := args[|args| - 1];
      Layout(args[..|args| - 1]) + (if Category(v) == 2 then [v, Top] else [v])
  }

  lemma TypedPrefix(args: seq<Value>, ps: seq<JType>, n: nat)
    requires Typed(args, ps) && n <= |ps|
    ensures Typed(args[..n], ps[..n])
  {
  }

  /** The layout of typed arguments is SlotSum(ps) slots long. */
  lemma {:induction false} LayoutLength(args: seq<Value>, ps: seq<JType>)
    requires Typed(args, ps)
    ensures |Layout(args)| == SlotSum(ps)
  {
    if ps != [] {
      var n := |ps| - 1;
      TypedPrefix(args, ps, n);
      LayoutLength(args[..n], ps[..n]);
    }
  }

  /** Argument k sits at local slot SlotSum(ps[..k]) of the layout. */
  lemma {:induction false} LayoutAt(args: seq<Value>, ps: seq<JType>, k: nat)
    requires Typed(args, ps) && k < |ps|
    ensures SlotSum(ps[..k]) < |Layout(args)| && Layout(args)[SlotSum(ps[..k])] == args[k]
  {
    var n := |ps| - 1;
    TypedPrefix(args, ps, n);
    LayoutLength(args[..n], ps[..n]);
    if k < n {
      LayoutAt(args[..n], ps[..n], k);
      assert ps[..n][..k] == ps[..k];
    }
  }

  /** The load of parameter j pushes argument j. */
  lemma ParamLoadStep(ps: seq<JType>, args: seq<Value>, receiver: Value, st: State, j: nat)
    requires Typed(args, ps) && j < |ps| && st.locals == [receiver] + Layout(args)
    ensures Step(LoadOp(ps[j], 1 + SlotSum(ps[..j])), st) == Some(Push(st, args[j]))
  {
    LayoutAt(args, ps, j);
    assert st.locals[1 + SlotSum(ps[..j])] == args[j];
    LoadOpReads(ps[j], 1 + SlotSum(ps[..j]), st);
  }

  /**
   * With the locals laid out from typed arguments, the loads of the first k
   * parameters push the first k arguments.
   */
  lemma {:induction false} ExecParamLoads(ps: seq<JType>, args: seq<Value>, receiver: Value, st: State, k: nat)
    requires Typed(args, ps) && k <= |ps| && st.locals == [receiver] + Layout(args)
    ensures Exec(ParamLoads(ps[..k]), st) == Some(st.(stack := st.stack + args[..k]))
  {
    if k == 0 {
      assert st.stack + args[..0] == st.stack;
    } else {
      var j := k - 1;
      var prefix := ps[..j];
      var mid := st.(stack := st.stack + args[..j]);
      var last := st.(stack := st.stack + args[..k]);
      ExecParamLoads(ps, args, receiver, st, j);
      ParamLoadStep(ps, args, receiver, mid, j);
      TakeOneMore(st.stack, args, j);
      ExecOne(LoadOp(ps[j], 1 + SlotSum(prefix)), mid, last);
      ExecThen(ParamLoads(prefix), [LoadOp(ps[j], 1 + SlotSum(prefix))], st, mid, last);
      ParamLoadsSnoc(ps, k);
    }
  }

  lemma ParamLoadsSnoc(ps: seq<JType>, k: nat)
    requires 0 < k <= |ps|
    ensures ParamLoads(ps[..k]) == ParamLoads(ps[..k - 1]) + [LoadOp(ps[k - 1], 1 + SlotSum(ps[..k - 1]))]
  {
    assert ps[..k][..k - 1] == ps[..k - 1];
  }

  /** Taking one more element of `x` after `s`. */
  lemma TakeOneMore<T>(s: seq<T>, x: seq<T>, k: nat)
    requires k < |x|
    ensures s + x[..k] + [x[k]] == s + x[..k + 1]
  {
    assert x[..k + 1] == x[..k] + [x[k]];
  }

  /**
   * Entered with `this` and typed arguments in their slots, the delegating
   * body fits in its max-locals and hands the superclass method exactly
   * `this` followed by the arguments, in order.
   */
  lemma DelegatingBodyPassesArguments(superclass: string, data: MethodData, code: seq<Instr>, maxLocals: nat,
                                      receiver: Value, args: seq<Value>, heap: seq<seq<Value>>)
    requires DelegatesToSuper(superclass, data, code, maxLocals)
    requires IsRef(receiver) && Typed(args, data.params)
    ensures var locals := [receiver] + Layout(args);
      |locals| == maxLocals
      && Exec(code[..|code| - 2], State([], locals, heap)) == Some(State([receiver] + args, locals, heap))
  {
    var ps := data.params;
    var locals := [receiver] + Layout(args);
    var s0 := State([], locals, heap);
    var s1 := State([receiver], locals, heap);
    var s2 := State([receiver] + args, locals, heap);
    LayoutLength(args, ps);
    assert [] + [receiver] == s1.stack;
    ExecOne(Load(A, 0), s0, s1);
    ExecAllParamLoads(ps, args, receiver, s1);
    ExecThen([Load(A, 0)], ParamLoads(ps), s0, s1, s2);
    DelegatingPrefix(superclass, data, code, maxLocals);
  }

  /** All the parameter loads push all the arguments. */
  lemma ExecAllParamLoads(ps: seq<JType>, args: seq<Value>, receiver: Value, st: State)
    requires Typed(args, ps) && st.locals == [receiver] + Layout(args)
    ensures Exec(ParamLoads(ps), st) == Some(st.(stack := st.stack + args))
  {
    ExecParamLoads(ps, args, receiver, st, |ps|);
    assert ps[..|ps|] == ps && args[..|args|] == args;
  }

  /** Everything before the invokespecial and the return. */
  lemma DelegatingPrefix(superclass: string, data: MethodData, code: seq<Instr>, maxLocals: nat)
    requires DelegatesToSuper(superclass, data, code, maxLocals)
    ensures |code| >= 2 && code[..|code| - 2] == [Load(A, 0)] + ParamLoads(data.params)
  {
    assert code[..|code| - 2] == [Load(A, 0)] + ParamLoads(data.params);
  }

  // ---------------------------------------------------------------------------
  // pushParametersIntoArray

  /** Brings the array below the parameter on top of the stack: array, array, parameter. */
  function Rotation(t: JType): seq<Instr> {
    if IsWide(t) then [Stack(DupX2), Stack(DupX2), Stack(Pop)] else [Stack(DupX1), Stack(Swap)]
  }

  /** Boxes a primitive parameter; a reference goes into the array as it is. */
  function BoxingOf(t: JType): seq<Instr> {
    if IsPrimitive(t) then [Box(t)] else []
  }

  /** Stores the value on top of the stack at index i of the array below it. */
  function StoreAt(i: nat): seq<Instr> {
    [IConst(i), Stack(Swap), AAStore]
  }

  /** The code for parameter i, which lies just below the array on the stack. */
  function PackStep(t: JType, i: nat): seq<Instr> {
    Rotation(t) + BoxingOf(t) + StoreAt(i)
  }

  /** The steps for parameters |ps| - 1 down to i, the last parameter (top of the stack) first. */
  function PackSteps(ps: seq<JType>, i: nat): seq<Instr>
    requires i <= |ps|
    decreases |ps| - i
  {
    if i == |ps| then [] else PackSteps(ps, i + 1) + PackStep(ps[i], i)
  }

  /** All pushParametersIntoArray emits: a new Object[|ps|], then one step per parameter. */
  function PackCode(ps: seq<JType>): seq<Instr> {
    [IConst(|ps|), ANewArray("java.lang.Object")] + PackSteps(ps, 0)
  }

  /** A wide value needs dup_x2 twice and a pop; a narrow one dup_x1 and swap. */
  method AddRotation(bc: Bytecode, t: JType)
    modifies bc
    ensures bc.code == old(bc.code) + Rotation(t)
  {
    if IsWide(t) {
      bc.Add(Stack(DupX2));  // the array below the wide value
      bc.Add(Stack(DupX2));  // and a second copy
      bc.Add(Stack(Pop));    // leaves array, array, value
    } else {
      bc.Add(Stack(DupX1));
      bc.Add(Stack(Swap));
    }
  }

  /** The array index, a swap, and aastore. */
  method AddStore(bc: Bytecode, i: nat)
    modifies bc
    ensures bc.code == old(bc.code) + StoreAt(i)
  {
    bc.Add(IConst(i));
    bc.Add(Stack(Swap));
    bc.Add(AAStore);
  }

  lemma PackStepParts(start: seq<Instr>, t: JType, i: nat)
    ensures start + Rotation(t) + BoxingOf(t) + StoreAt(i) == start + PackStep(t, i)
  {
  }

  /** One turn of the loop: rotate, box a primitive, store at index i. */
  method AddPackStep(bc: Bytecode, t: JType, i: nat)
    modifies bc
    ensures bc.code == old(bc.code) + PackStep(t, i)
  {
    PackStepParts(bc.code, t, i);
    AddRotation(bc, t);
    if IsPrimitive(t) {
      bc.Add(Box(t));
    }
    AddStore(bc, i);
  }

  /** The loop, from the last parameter down to the first. */
  method AddPackSteps(bc: Bytecode, params: seq<JType>)
    modifies bc
    ensures bc.code == old(bc.code) + PackSteps(params, 0)
  {
    ghost var start := bc.code;
    for i := |params| downto 0
      invariant bc.code == start + PackSteps(params, i)
    {
      PackStepsGrow(start, params, i);
      AddPackStep(bc, params[i], i);
    }
  }

  lemma PackStepsGrow(start: seq<Instr>, ps: seq<JType>, i: nat)
    requires i < |ps|
    ensures start + PackSteps(ps, i + 1) + PackStep(ps[i], i) == start + PackSteps(ps, i)
  {
  }

  /**
   * pushParametersIntoArray: append code that replaces the parameters on the
   * operand stack by one Object[] holding them, working from the last
   * parameter (the top of the stack) down to the first.
   */
  method PushParametersIntoArray(bc: Bytecode, params: seq<JType>)
    modifies bc
    ensures bc.code == old(bc.code) + PackCode(params)
  {
    bc.Add(IConst(|params|));
    bc.Add(ANewArray("java.lang.Object"));
    AddPackSteps(bc, params);
  }

  /** What the array holds for an argument: primitives boxed, references as they are. */
  function BoxIfPrimitive(v: Value, t: JType): (w: Value)
    ensures HasType(v, t) ==> IsRef(w)
  {
    if IsPrimitive(t) && v.Prim? then Boxed(t, v.bits) else v
  }

  /** The array of boxed arguments the packing code builds. */
  function Packed(args: seq<Value>, ps: seq<JType>): seq<Value>
    requires |args| == |ps|
  {
    seq(|ps|, j requires 0 <= j < |ps| => BoxIfPrimitive(args[j], ps[j]))
  }

  /** The array once the parameters from index i on are stored: null below i. */
  function Filled(args: seq<Value>, ps: seq<JType>, i: nat): seq<Value>
    requires |args| == |ps|
  {
    seq(|ps|, j requires 0 <= j < |ps| => if j >= i then BoxIfPrimitive(args[j], ps[j]) else Null)
  }

  /** dup_x2, form 2: ..., wide, r -> ..., r, wide, r */
  lemma DupX2Wide(v: Value, r: Value, below: seq<Value>, st: State)
    requires Category(v) == 2 && Category(r) == 1 && st.stack == below + [v, r]
    ensures Step(Stack(DupX2), st) == Some(st.(stack := below + [r, v, r]))
  {
    assert st.stack[..|st.stack| - 2] == below;
  }

  /** The rotation turns value, array into array, array, value. */
  lemma RotationStep(t: JType, v: Value, a: nat, below: seq<Value>, st: State)
    requires HasType(v, t) && st.stack == below + [v, Arr(a)]
    ensures Exec(Rotation(t), st) == Some(st.(stack := below + [Arr(a), Arr(a), v]))
  {
    if IsWide(t) {
      RotateWide(v, a, below, st);
    } else {
      RotateNarrow(v, a, below, st);
    }
  }

  /** dup_x2, dup_x2, pop over a category-2 value. */
  lemma RotateWide(v: Value, a: nat, below: seq<Value>, st: State)
    requires Category(v) == 2 && st.stack == below + [v, Arr(a)]
    ensures Exec([Stack(DupX2), Stack(DupX2), Stack(Pop)], st) == Some(st.(stack := below + [Arr(a), Arr(a), v]))
  {
    var r := Arr(a);
    var s1 := st.(stack := below + [r, v, r]);
    var s2 := st.(stack := (below + [r, r, v]) + [r]);
    var s3 := st.(stack := below + [r, r, v]);
    DupX2Wide(v, r, below, st);
    assert s1.stack == (below + [r]) + [v, r];
    DupX2Wide(v, r, below + [r], s1);
    assert (below + [r]) + [r, v, r] == s2.stack;
    PopTop(below + [r, r, v], r, s2);
    ExecThree(Stack(DupX2), Stack(DupX2), Stack(Pop), st, s1, s2, s3);
  }

  /** dup_x1, swap over a category-1 value. */
  lemma RotateNarrow(v: Value, a: nat, below: seq<Value>, st: State)
    requires Category(v) == 1 && st.stack == below + [v, Arr(a)]
    ensures Exec([Stack(DupX1), Stack(Swap)], st) == Some(st.(stack := below + [Arr(a), Arr(a), v]))
  {
    var r := Arr(a);
    var s1 := st.(stack := (below + [r]) + [v, r]);
    var s2 := st.(stack := below + [r, r, v]);
    DupX1Top(below, v, r, st);
    assert below + [r, v, r] == s1.stack;
    SwapTop(below + [r], v, r, s1);
    assert (below + [r]) + [r, v] == s2.stack;
    ExecTwo(Stack(DupX1), Stack(Swap), st, s1, s2);
  }

  /** dup_x1 copies the category-1 value on top below the category-1 value under it. */
  lemma DupX1Top(p: seq<Value>, x: Value, y: Value, st: State)
    requires Category(x) == 1 && Category(y) == 1 && st.stack == p + [x, y]
    ensures Step(Stack(DupX1), st) == Some(st.(stack := p + [y, x, y]))
  {
    var n := |st.stack|;
    assert st.stack[n - 1] == y && st.stack[n - 2] == x;
    assert st.stack[..n - 2] == p;
  }

  /** pop drops the category-1 value on top. */
  lemma PopTop(p: seq<Value>, x: Value, st: State)
    requires Category(x) == 1 && st.stack == p + [x]
    ensures Step(Stack(Pop), st) == Some(st.(stack := p))
  {
    assert st.stack[|st.stack| - 1] == x;
    assert st.stack[..|st.stack| - 1] == p;
  }

  /** The store puts the value on top at index i of the array below it and pops both. */
  lemma StoreStep(i: nat, w: Value, a: nat, below: seq<Value>, st: State)
    requires IsRef(w) && a < |st.heap| && i < |st.heap[a]| && st.stack == below + [Arr(a), Arr(a), w]
    ensures Exec(StoreAt(i), st)
         == Some(State(below + [Arr(a)], st.locals, st.heap[a := st.heap[a][i := w]]))
  {
    var r := Arr(a);
    var s1 := Push(st, Prim(Int, i));
    var s2 := st.(stack := (below + [r]) + [r, Prim(Int, i), w]);
    var s3 := State(below + [r], st.locals, st.heap[a := st.heap[a][i := w]]);
    assert s1.stack == (below + [r, r]) + [w, Prim(Int, i)];
    assert (below + [r, r]) + [Prim(Int, i), w] == s2.stack;
    SwapTop(below + [r, r], w, Prim(Int, i), s1);
    StoreTop(below + [r], a, i, w, s2);
    ExecThree(IConst(i), Stack(Swap), AAStore, st, s1, s2, s3);
  }

  /** swap exchanges the two category-1 values on top. */
  lemma SwapTop(p: seq<Value>, x: Value, y: Value, st: State)
    requires Category(x) == 1 && Category(y) == 1 && st.stack == p + [x, y]
    ensures Step(Stack(Swap), st) == Some(st.(stack := p + [y, x]))
  {
    var n := |st.stack|;
    assert st.stack[n - 1] == y && st.stack[n - 2] == x;
    assert st.stack[..n - 2] == p;
  }

  /** aastore writes the reference on top into the array slot below it. */
  lemma StoreTop(p: seq<Value>, a: nat, i: nat, w: Value, st: State)
    requires IsRef(w) && a < |st.heap| && i < |st.heap[a]| && st.stack == p + [Arr(a), Prim(Int, i), w]
    ensures Step(AAStore, st) == Some(State(p, st.locals, st.heap[a := st.heap[a][i := w]]))
  {
    var n := |st.stack|;
    assert st.stack[n - 3] == Arr(a) && st.stack[n - 2] == Prim(Int, i) && st.stack[n - 1] == w;
    assert st.stack[..n - 3] == p;
  }

  /** The boxing leaves a reference in place of the parameter on top. */
  lemma BoxingStep(t: JType, v: Value, prefix: seq<Value>, st: State)
    requires HasType(v, t) && st.stack == prefix + [v]
    ensures Exec(BoxingOf(t), st) == Some(st.(stack := prefix + [BoxIfPrimitive(v, t)]))
  {
    if IsPrimitive(t) {
      assert BoxingOf(t) == [] + [Box(t)];
      ExecSnoc([], Box(t), st);
      assert st.stack[..|st.stack| - 1] == prefix;
    } else {
      assert st.stack == prefix + [BoxIfPrimitive(v, t)];
    }
  }

  /** One step stores the parameter on top, boxed if primitive, and leaves the array on top. */
  lemma PackStepStores(t: JType, i: nat, v: Value, a: nat, below: seq<Value>, st: State)
    requires HasType(v, t) && a < |st.heap| && i < |st.heap[a]| && st.stack == below + [v, Arr(a)]
    ensures Exec(PackStep(t, i), st)
         == Some(State(below + [Arr(a)], st.locals, st.heap[a := st.heap[a][i := BoxIfPrimitive(v, t)]]))
  {
    var r := Arr(a);
    var w := BoxIfPrimitive(v, t);
    var s1 := st.(stack := below + [r, r, v]);
    var s2 := st.(stack := below + [r, r, w]);
    var s3 := State(below + [r], st.locals, st.heap[a := st.heap[a][i := w]]);
    RotationStep(t, v, a, below, st);
    assert s1.stack == (below + [r, r]) + [v];
    BoxingStep(t, v, below + [r, r], s1);
    assert s2.stack == below + [r, r] + [w];
    ExecThen(Rotation(t), BoxingOf(t), st, s1, s2);
    StoreStep(i, w, a, below, s2);
    ExecThen(Rotation(t) + BoxingOf(t), StoreAt(i), st, s2, s3);
  }

  /**
   * Steps |ps| - 1 down to i consume the arguments from index i on and store
   * them, boxed where primitive, into the array.
   */
  lemma {:induction false} PackStepsStore(ps: seq<JType>, args: seq<Value>, i: nat, a: nat, below: seq<Value>, st: State)
    requires Typed(args, ps) && i <= |ps| && a < |st.heap| && st.heap[a] == Filled(args, ps, |ps|)
    requires st.stack == below + args + [Arr(a)]
    ensures Exec(PackSteps(ps, i), st)
         == Some(State(below + args[..i] + [Arr(a)], st.locals, st.heap[a := Filled(args, ps, i)]))
    decreases |ps| - i
  {
    if i == |ps| {
      assert args[..i] == args;
      assert st.heap[a := Filled(args, ps, i)] == st.heap;
    } else {
      var heap := st.heap[a := Filled(args, ps, i + 1)];
      var mid := State(below + args[..i] + [args[i], Arr(a)], st.locals, heap);
      var last := State(below + args[..i] + [Arr(a)], st.locals, st.heap[a := Filled(args, ps, i)]);
      PackStepsStore(ps, args, i + 1, a, below, st);
      TakeOneMore(below, args, i);
      assert below + args[..i + 1] + [Arr(a)] == mid.stack;
      PackStepStores(ps[i], i, args[i], a, below + args[..i], mid);
      FilledStep(args, ps, i);
      UpdateTwice(st.heap, a, Filled(args, ps, i + 1), Filled(args, ps, i));
      ExecThen(PackSteps(ps, i + 1), PackStep(ps[i], i), st, mid, last);
    }
  }

  /** Storing argument i turns the array filled from i + 1 into the array filled from i. */
  lemma FilledStep(args: seq<Value>, ps: seq<JType>, i: nat)
    requires |args| == |ps| && i < |ps|
    ensures Filled(args, ps, i + 1)[i := BoxIfPrimitive(args[i], ps[i])] == Filled(args, ps, i)
  {
  }

  lemma UpdateTwice<T>(h: seq<T>, a: nat, x: T, y: T)
    requires a < |h|
    ensures h[a := x][a := y] == h[a := y]
  {
  }

  /**
   * The packing code, run with the arguments on top of the stack, replaces
   * them by a reference to a new array whose element i is argument i, boxed
   * where its parameter type is primitive; nothing else changes.
   */
  lemma PackCodeBuildsArray(ps: seq<JType>, args: seq<Value>, below: seq<Value>, locals: seq<Value>, heap: seq<seq<Value>>)
    requires Typed(args, ps)
    ensures Exec(PackCode(ps), State(below + args, locals, heap))
         == Some(State(below + [Arr(|heap|)], locals, heap + [Packed(args, ps)]))
  {
    var a := |heap|;
    var nulls := Filled(args, ps, |ps|);
    var s0 := State(below + args, locals, heap);
    var s1 := Push(s0, Prim(Int, |ps|));
    var s2 := State(below + args + [Arr(a)], locals, heap + [nulls]);
    var s3 := State(below + [Arr(a)], locals, heap + [Packed(args, ps)]);
    assert Step(ANewArray("java.lang.Object"), s1) == Some(s2) by {
      var r := Step(ANewArray("java.lang.Object"), s1).value;
      assert s1.stack[..|s1.stack| - 1] == below + args;
      assert r.heap[a] == nulls;
    }
    ExecTwo(IConst(|ps|), ANewArray("java.lang.Object"), s0, s1, s2);
    PackStepsStore(ps, args, 0, a, below, s2);
    assert Filled(args, ps, 0) == Packed(args, ps);
    assert below + args[..0] + [Arr(a)] == s3.stack;
    assert (heap + [nulls])[a := Packed(args, ps)] == s3.heap;
    ExecThen([IConst(|ps|), ANewArray("java.lang.Object")], PackSteps(ps, 0), s0, s2, s3);
  }
}
