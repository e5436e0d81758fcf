/**
 * The per-type opcode choices the core makes with its if/else chains over
 * type tokens, each written once as a table on JType.
 */
module Opcodes {
  import opened Options
  import opened Descriptors
  import opened Instructions
  import opened Machine

  /** The opcode prefix for a type: i for I/C/S/Z/B, l for J, d for D, f for F, a for everything else. */
  function KindOf(t: JType): (k: Kind)
    ensures forall v :: HasType(v, t) ==> OfKind(k, v)
  {
    match t
    case Int | Char | Short | Boolean | Byte => I
    case Long => L
    case Double => D
    case Float => F
    case _ => A
  }

  /** The load of a parameter of type `t` from local `slot`. */
  function LoadOp(t: JType, slot: nat): Instr {
    Load(KindOf(t), slot)
  }

  /** The load of a slot holding a value of type `t` executes and pushes that value. */
  lemma LoadOpReads(t: JType, slot: nat, st: State)
    requires slot < |st.locals| && HasType(st.locals[slot], t)
    ensures Step(LoadOp(t, slot), st) == Some(Push(st, st.locals[slot]))
  {
  }

  /** The return for a declared return type: `return` for V, otherwise the typed return of its prefix. */
  function ReturnOpcode(t: JType): (r: Instr)
    ensures r == Return <==> t == Void
    ensures forall v :: HasType(v, t) ==> Accepts(r, v)
  {
    if t == Void then Return else Ret(KindOf(t))
  }

  /** The zero or null pushed in place of an argument of type `t`. */
  function Placeholder(t: JType): (ins: Instr)
    ensures forall st: State :: Step(ins, st) == Some(Push(st, DefaultValue(t)))
  {
    match t
    case Int | Char | Short | Boolean | Byte => IConst(0)
    case Long => Zero(L)
    case Double => Zero(D)
    case Float => Zero(F)
    case _ => AConstNull
  }

  /** The value `Placeholder(t)` pushes: of type `t`, so it takes the slots `t` takes. */
  function DefaultValue(t: JType): (v: Value)
    ensures t != Void ==> HasType(v, t) && Category(v) == Width(t)
  {
    match t
    case Int | Char | Short | Boolean | Byte => Prim(Int, 0)
    case Long => Prim(Long, 0)
    case Double => Prim(Double, 0)
    case Float => Prim(Float, 0)
    case _ => Null
  }
}
