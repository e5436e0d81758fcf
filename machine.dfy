/**
 * A small abstract JVM frame: an operand stack whose entries are whole values of
 * computational category 1 or 2 (section 2.11.1 of the Java Virtual Machine
 * Specification, SE 8), a local-variable array in which a category-2 value takes
 * two slots (section 2.6.1), and a heap of arrays. Only the straight-line
 * instructions the core emits have a meaning here (their stack effects as in
 * section 6.5); everything else stops execution.
 */
module Machine {
  import opened Options
  import opened Descriptors
  import opened Instructions

  datatype Value =
    | Prim(kind: JType, bits: int)     // a primitive of computational type `kind` (Int, Long, Float or Double)
    | Null
    | Obj(id: int)                     // some object reference
    | Arr(addr: nat)                   // a reference to heap[addr]
    | Boxed(boxed: JType, bits: int)   // the wrapper object that boxing a primitive gives
    | Top                              // the upper half of a category-2 value in the local variables

  datatype State = State(stack: seq<Value>, locals: seq<Value>, heap: seq<seq<Value>>)

  predicate IsRef(v: Value) {
    v.Null? || v.Obj? || v.Arr? || v.Boxed?
  }

  function Category(v: Value): nat {
    if v.Prim? && IsWide(v.kind) then 2 else 1
  }

  /** `v` is a value of declared type `t`. No value has type `V`. */
  predicate HasType(v: Value, t: JType) {
    match t
    case Void => false
    case Ref(_) => IsRef(v)
    case _ => v.Prim? && v.kind == StackKind(t)
  }

  /** The computational type an opcode prefix stands for holds `v`. */
  predicate OfKind(k: Kind, v: Value) {
    match k
    case I => v.Prim? && v.kind == Int
    case L => v.Prim? && v.kind == Long
    case F => v.Prim? && v.kind == Float
    case D => v.Prim? && v.kind == Double
    case A => IsRef(v)
  }

  /** A return instruction `op` may return `v` from the top of the stack. */
  predicate Accepts(op: Instr, v: Value) {
    op.Ret? && OfKind(op.ret, v)
  }

  function Push(st: State, v: Value): State {
    st.(stack := st.stack + [v])
  }

  function Step(ins: Instr, st: State): Option<State> {
    var s := st.stack;
    var n := |s|;
    match ins
    case AConstNull => Some(Push(st, Null))
    case IConst(k) => Some(Push(st, Prim(Int, k)))
    case Zero(L) => Some(Push(st, Prim(Long, 0)))
    case Zero(F) => Some(Push(st, Prim(Float, 0)))
    case Zero(D) => Some(Push(st, Prim(Double, 0)))
    case Load(k, slot) =>
      // a typed load of local `slot`
      if slot < |st.locals| && OfKind(k, st.locals[slot]) then Some(Push(st, st.locals[slot])) else None
    case ANewArray(_) =>
      // ..., count -> ..., arrayref (a negative count throws)
      if n >= 1 && s[n - 1].Prim? && s[n - 1].kind == Int && s[n - 1].bits >= 0 then
        Some(State(s[..n - 1] + [Arr(|st.heap|)], st.locals, st.heap + [seq(s[n - 1].bits, _ => Null)]))
      else None
    case AAStore =>
      // ..., arrayref, index, value -> ...
      if n >= 3 && s[n - 3].Arr? && s[n - 3].addr < |st.heap| && s[n - 2].Prim? && s[n - 2].kind == Int
         && 0 <= s[n - 2].bits < |st.heap[s[n - 3].addr]| && IsRef(s[n - 1]) then
        var a := s[n - 3].addr;
        Some(State(s[..n - 3], st.locals, st.heap[a := st.heap[a][s[n - 2].bits := s[n - 1]]]))
      else None
    case Stack(DupX1) =>
      // ..., v2, v1 -> ..., v1, v2, v1 (both category 1)
      if n >= 2 && Category(s[n - 1]) == 1 && Category(s[n - 2]) == 1 then
        Some(st.(stack := s[..n - 2] + [s[n - 1], s[n - 2], s[n - 1]]))
      else None
    case Stack(DupX2) =>
      if n >= 2 && Category(s[n - 1]) == 1 && Category(s[n - 2]) == 2 then
        // form 2: ..., v2, v1 -> ..., v1, v2, v1 (v2 of category 2)
        Some(st.(stack := s[..n - 2] + [s[n - 1], s[n - 2], s[n - 1]]))
      else if n >= 3 && Category(s[n - 1]) == 1 && Category(s[n - 2]) == 1 && Category(s[n - 3]) == 1 then
        // form 1: ..., v3, v2, v1 -> ..., v1, v3, v2, v1
        Some(st.(stack := s[..n - 3] + [s[n - 1], s[n - 3], s[n - 2], s[n - 1]]))
      else None
    case Stack(Pop) =>
      if n >= 1 && Category(s[n - 1]) == 1 then Some(st.(stack := s[..n - 1])) else None
    case Stack(Swap) =>
      if n >= 2 && Category(s[n - 1]) == 1 && Category(s[n - 2]) == 1 then
        Some(st.(stack := s[..n - 2] + [s[n - 1], s[n - 2]]))
      else None
    case Box(t) =>
      if IsPrimitive(t) && n >= 1 && s[n - 1].Prim? && s[n - 1].kind == StackKind(t) then
        Some(st.(stack := s[..n - 1] + [Boxed(t, s[n - 1].bits)]))
      else None
    case Unbox(t) =>
      // a null or a wrapper of another type throws
      if IsPrimitive(t) && n >= 1 && s[n - 1].Boxed? && s[n - 1].boxed == t then
        Some(st.(stack := s[..n - 1] + [Prim(StackKind(t), s[n - 1].bits)]))
      else None
    case _ => None
  }

  /** Run straight-line code; None when some instruction cannot execute (or leaves the fragment). */
  function Exec(code: seq<Instr>, st: State): Option<State>
    decreases |code|
  {
    if code == [] then Some(st)
    else
      match Step(code[0], st)
      case None => None
      case Some(next) => Exec(code[1..], next)
  }

  lemma {:induction false} ExecAppend(a: seq<Instr>, b: seq<Instr>, st: State)
    ensures Exec(a + b, st) == if Exec(a, st).Some? then Exec(b, Exec(a, st).value) else None
    decreases |a|
  {
    if a == [] {
      assert a + b == b;
    } else {
      assert (a + b)[0] == a[0];
      assert (a + b)[1..] == a[1..] + b;
      match Step(a[0], st)
      case None =>
      case Some(next) => ExecAppend(a[1..], b, next);
    }
  }

  /** Running one more instruction after `a`. */
  lemma ExecSnoc(a: seq<Instr>, x: Instr, st: State)
    ensures Exec(a + [x], st) == if Exec(a, st).Some? then Step(x, Exec(a, st).value) else None
  {
    ExecAppend(a, [x], st);
    if Exec(a, st).Some? {
      assert [x][1..] == [];
    }
  }

  /** A single instruction that executes. */
  lemma ExecOne(x: Instr, s0: State, s1: State)
    requires Step(x, s0) == Some(s1)
    ensures Exec([x], s0) == Some(s1)
  {
    assert [x] == [] + [x];
    ExecSnoc([], x, s0);
  }

  /** Two instructions, each of which executes, run in sequence. */
  lemma ExecTwo(x: Instr, y: Instr, s0: State, s1: State, s2: State)
    requires Step(x, s0) == Some(s1) && Step(y, s1) == Some(s2)
    ensures Exec([x, y], s0) == Some(s2)
  {
    ExecOne(x, s0, s1);
    assert [x, y] == [x] + [y];
    ExecSnoc([x], y, s0);
  }

  /** Three instructions, each of which executes, run in sequence. */
  lemma ExecThree(x: Instr, y: Instr, z: Instr, s0: State, s1: State, s2: State, s3: State)
    requires Step(x, s0) == Some(s1) && Step(y, s1) == Some(s2) && Step(z, s2) == Some(s3)
    ensures Exec([x, y, z], s0) == Some(s3)
  {
    ExecTwo(x, y, s0, s1, s2);
    assert [x, y, z] == [x, y] + [z];
    ExecSnoc([x, y], z, s0);
  }

  /** Two fragments, each of which completes, run in sequence. */
  lemma ExecThen(x: seq<Instr>, y: seq<Instr>, s0: State, s1: State, s2: State)
    requires Exec(x, s0) == Some(s1) && Exec(y, s1) == Some(s2)
    ensures Exec(x + y, s0) == Some(s2)
  {
    ExecAppend(x, y, s0);
  }
}
