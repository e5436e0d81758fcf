/**
 * The containers the core works through: the code buffer it appends to, the
 * cursor over an existing method body, and the class's method table. Their
 * byte-level work (encoding, offset and branch rebasing, the constant pool)
 * is not modelled; instructions are whole elements of a sequence.
 */
module Javassist {
  import opened Options
  import opened Descriptors
  import opened Instructions

  datatype CodeAttribute = CodeAttribute(code: seq<Instr>, maxLocals: nat)

  datatype MethodInfo = MethodInfo(
    name: string,
    params: seq<JType>,
    ret: JType,
    accessFlags: int,
    code: Option<CodeAttribute>)

  function Descriptor(m: MethodInfo): string {
    MethodDescriptor(m.params, m.ret)
  }

  /** Some method of `methods` has this name and descriptor. */
  predicate Declares(methods: seq<MethodInfo>, name: string, descriptor: string) {
    exists j :: 0 <= j < |methods| && methods[j].name == name && Descriptor(methods[j]) == descriptor
  }

  /** An append-only code buffer. */
  class Bytecode {
    var code: seq<Instr>

    constructor ()
      ensures code == []
    {
      code := [];
    }

    method Add(ins: Instr)
      modifies this
      ensures code == old(code) + [ins]
    {
      code := code + [ins];
    }
  }

  /** A cursor over one method body; `pos` is the index of the next instruction. */
  class CodeIterator {
    var code: seq<Instr>
    var pos: nat

    constructor (body: seq<Instr>)
      ensures code == body && pos == 0
    {
      code, pos := body, 0;
    }

    predicate HasNext()
      reads this
    {
      pos < |code|
    }

    method Next() returns (index: nat)
      requires HasNext()
      modifies this
      ensures index == old(pos) && pos == old(pos) + 1 && code == old(code)
    {
      index := pos;
      pos := pos + 1;
    }

    function ByteAt(index: nat): Instr
      reads this
      requires index < |code|
    {
      code[index]
    }

    /**
     * Insert `frag` before the instruction at `index`. A cursor at or after
     * `index` moves past the inserted code, so that code is never visited.
     */
    method InsertAt(index: nat, frag: seq<Instr>)
      requires index <= |code|
      modifies this
      ensures code == old(code[..index]) + frag + old(code[index..])
      ensures pos == if old(pos) >= index then old(pos) + |frag| else old(pos)
    {
      code := code[..index] + frag + code[index..];
      if pos >= index {
        pos := pos + |frag|;
      }
    }
  }

  /** The parts of a class file the core reads or extends. */
  class ClassFile {
    const name: string
    const superclass: string
    var methods: seq<MethodInfo>

    constructor (name: string, superclass: string, methods: seq<MethodInfo>)
      ensures this.name == name && this.superclass == superclass && this.methods == methods
    {
      this.name, this.superclass, this.methods := name, superclass, methods;
    }

    /** Register a method; refused (the source's DuplicateMemberException) when its name and descriptor are taken. */
    method AddMethod(m: MethodInfo) returns (added: bool)
      modifies this
      ensures added == !Declares(old(methods), m.name, Descriptor(m))
      ensures methods == if added then old(methods) + [m] else old(methods)
    {
      added := !Declares(methods, m.name, Descriptor(m));
      if added {
        methods := methods + [m];
      }
    }
  }
}
