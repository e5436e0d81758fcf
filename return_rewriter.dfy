/**
 * ManipulationUtils.MethodReturnRewriter: make every return point of a method
 * return a reference (a boxed primitive, or null for void), and choose the
 * instructions that end a proxy method.
 */
module MethodReturnRewriter {
  import opened Options
  import opened Descriptors
  import opened Instructions
  import opened Machine
  import opened Javassist
  import opened Opcodes

  /** The returns the rewriter patches: `return` for void, any typed primitive return otherwise, none for references. */
  predicate IsRewrittenReturn(ins: Instr, ret: JType) {
    match ret
    case Ref(_) => false
    case Void => ins == Return
    case _ => ins.Ret? && ins.ret != A   // ireturn, lreturn, dreturn or freturn
  }

  /**
   * The patched returns: `return` for a void method; for any primitive
   * result, all four of ireturn, lreturn, dreturn and freturn whatever the
   * result type; never areturn, and nothing for a reference result.
   */
  lemma PatchedReturns(ins: Instr, ret: JType)
    ensures IsRewrittenReturn(ins, ret) <==>
      (ret == Void && ins == Return) || (IsPrimitive(ret) && ins in [IReturn, LReturn, DReturn, FReturn])
  {
  }

  /** What is inserted before each patched return: null or the boxed value, then areturn. */
  function CoercionFragment(ret: JType): (r: seq<Instr>)
    ensures |r| == 2 && r[1] == AReturn
    ensures forall k :: 0 <= k < |r| ==> !IsRewrittenReturn(r[k], ret)
  {
    if ret == Void then [AConstNull, AReturn] else [Box(ret), AReturn]
  }

  /** What one original instruction becomes. */
  function Chunk(ins: Instr, ret: JType): seq<Instr> {
    if IsRewrittenReturn(ins, ret) then CoercionFragment(ret) + [ins] else [ins]
  }

  /** Number of instructions of `s` the rewriter patches. */
  function PatchCount(s: seq<Instr>, ret: JType): nat {
    if s == [] then 0
    else PatchCount(s[..|s| - 1], ret) + (if IsRewrittenReturn(s[|s| - 1], ret) then 1 else 0)
  }

  /** The rewritten body: each original instruction in turn, each patched one after its fragment. */
  function Rewritten(s: seq<Instr>, ret: JType): (r: seq<Instr>)
    ensures |r| == |s| + 2 * PatchCount(s, ret)
  {
    if s == [] then [] else Rewritten(s[..|s| - 1], ret) + Chunk(s[|s| - 1], ret)
  }

  /** Length of the code inserted before instruction `ins`. */
  function Inserted(ins: Instr, ret: JType): nat {
    if IsRewrittenReturn(ins, ret) then 2 else 0
  }

  /** Where original instruction `i` lands in the rewritten body. */
  function Placed(s: seq<Instr>, ret: JType, i: nat): nat
    requires i < |s|
  {
    i + 2 * PatchCount(s[..i + 1], ret)
  }

  /**
   * rewriteFakeMethod: walk the body from the cursor; before each patched
   * return insert its fragment. The cursor moves past inserted code, so
   * neither the fragment nor the original return is visited again.
   */
  method RewriteFakeMethod(body: CodeIterator, ret: JType)
    requires body.pos <= |body.code|
    modifies body
    ensures body.code == old(body.code[..body.pos]) + Rewritten(old(body.code[body.pos..]), ret)
    ensures body.pos == if ret.Ref? then old(body.pos) else |body.code|
  {
    if ret.Ref? {
      // a reference or array result needs no boxing
      RewrittenReferenceIsIdentity(body.code[body.pos..], ret.desc);
      assert body.code == body.code[..body.pos] + body.code[body.pos..];
      return;
    }
    CoerceReturns(body, ret);
  }

  /** The scanning loop of rewriteFakeMethod, for a void or primitive result. */
  method CoerceReturns(body: CodeIterator, ret: JType)
    requires body.pos <= |body.code|
    modifies body
    ensures body.code == old(body.code[..body.pos]) + Rewritten(old(body.code[body.pos..]), ret)
    ensures body.pos == |body.code|
  {
    ghost var done := body.code[..body.pos];
    ghost var todo := body.code[body.pos..];
    ghost var out: seq<Instr> := [];
    ghost var k := 0;
    assert body.code == done + out + todo[k..];
    while body.HasNext()
      invariant 0 <= k <= |todo|
      invariant body.code == done + out + todo[k..]
      invariant body.pos == |done| + |out|
      invariant out == Rewritten(todo[..k], ret)
      decreases |todo| - k
    {
      out := VisitAt(body, ret, done, todo, k, out);
      k := k + 1;
    }
    assert todo[..k] == todo;
  }

  /** One iteration, with the rewritten output extended by the chunk of instruction k. */
  method VisitAt(body: CodeIterator, ret: JType, ghost done: seq<Instr>, ghost todo: seq<Instr>, ghost k: nat,
                 ghost out: seq<Instr>) returns (ghost out': seq<Instr>)
    requires k < |todo| && body.code == done + out + todo[k..] && body.pos == |done| + |out|
    requires out == Rewritten(todo[..k], ret)
    modifies body
    ensures body.code == done + out' + todo[k + 1..] && body.pos == |done| + |out'|
    ensures out' == Rewritten(todo[..k + 1], ret)
  {
    ghost var rest := todo[k + 1..];
    assert todo[k..] == [todo[k]] + rest;
    VisitNext(body, ret, done + out, todo[k], rest);
    RewrittenStep(todo, k, ret);
    Associate(done, out, Chunk(todo[k], ret), rest);
    out' := out + Chunk(todo[k], ret);
  }

  /** One iteration: step over instruction `x` and patch it if it is a return to coerce. */
  method VisitNext(body: CodeIterator, ret: JType, ghost head: seq<Instr>, ghost x: Instr, ghost rest: seq<Instr>)
    requires body.code == head + [x] + rest && body.pos == |head|
    modifies body
    ensures body.code == head + Chunk(x, ret) + rest
    ensures body.pos == |head| + |Chunk(x, ret)|
  {
    var index := body.Next();
    var opcode := body.ByteAt(index);
    assert opcode == x;
    if IsRewrittenReturn(opcode, ret) {
      assert body.code[..index] == head && body.code[index..] == [x] + rest;
      InsertCoercion(body, index, ret);
      Associate(head, CoercionFragment(ret), [x], rest);
    }
  }

  /** Build the coercion fragment in a fresh buffer and insert it before `index`. */
  method InsertCoercion(body: CodeIterator, index: nat, ret: JType)
    requires index <= |body.code|
    modifies body
    ensures body.code == old(body.code[..index]) + CoercionFragment(ret) + old(body.code[index..])
    ensures body.pos == if old(body.pos) >= index then old(body.pos) + 2 else old(body.pos)
  {
    var code := new Bytecode();
    if ret == Void {
      code.Add(AConstNull);
      code.Add(AReturn);
    } else {
      code.Add(Box(ret));
      code.Add(AReturn);
    }
    body.InsertAt(index, code.code);
  }

  lemma Associate<T>(a: seq<T>, b: seq<T>, c: seq<T>, d: seq<T>)
    ensures a + b + c + d == a + (b + c) + d
  {
  }

  lemma RewrittenStep(s: seq<Instr>, k: nat, ret: JType)
    requires k < |s|
    ensures Rewritten(s[..k + 1], ret) == Rewritten(s[..k], ret) + Chunk(s[k], ret)
  {
    assert s[..k + 1][..k] == s[..k];
  }

  /** A method with a reference or array result is left as it is. */
  lemma {:induction false} RewrittenReferenceIsIdentity(s: seq<Instr>, desc: string)
    ensures Rewritten(s, Ref(desc)) == s
  {
    if s != [] {
      RewrittenReferenceIsIdentity(s[..|s| - 1], desc);
      assert s[..|s| - 1] + [s[|s| - 1]] == s;
    }
  }

  lemma {:induction false} PatchCountPrefix(s: seq<Instr>, ret: JType, i: nat)
    requires i < |s|
    ensures 2 * PatchCount(s[..i + 1], ret) == 2 * PatchCount(s[..i], ret) + Inserted(s[i], ret)
  {
    assert s[..i + 1][..i] == s[..i];
  }

  /**
   * Original instruction `i` lands at Placed(i); a patched one is immediately
   * preceded by its fragment (for void, `aconst_null; areturn`).
   */
  lemma {:induction false} RewrittenPlacement(s: seq<Instr>, ret: JType, i: nat)
    requires i < |s|
    ensures Placed(s, ret, i) < |Rewritten(s, ret)|
    ensures Rewritten(s, ret)[Placed(s, ret, i)] == s[i]
    ensures IsRewrittenReturn(s[i], ret) ==>
      2 <= Placed(s, ret, i) && Rewritten(s, ret)[Placed(s, ret, i) - 2 .. Placed(s, ret, i)] == CoercionFragment(ret)
  {
    PlacedHolds(s, ret, i);
    if IsRewrittenReturn(s[i], ret) {
      PlacedAfterFragment(s, ret, i);
    }
  }

  lemma PlacedHolds(s: seq<Instr>, ret: JType, i: nat)
    requires i < |s|
    ensures Placed(s, ret, i) < |Rewritten(s, ret)| && Rewritten(s, ret)[Placed(s, ret, i)] == s[i]
  {
    ChunkInRewritten(s, ret, i);
    ChunkHolds(s[i], ret);
    InPrefix(Rewritten(s[..i], ret), Chunk(s[i], ret), Rewritten(s, ret), Inserted(s[i], ret));
  }

  lemma PlacedAfterFragment(s: seq<Instr>, ret: JType, i: nat)
    requires i < |s| && IsRewrittenReturn(s[i], ret)
    ensures 2 <= Placed(s, ret, i) <= |Rewritten(s, ret)|
    ensures Rewritten(s, ret)[Placed(s, ret, i) - 2 .. Placed(s, ret, i)] == CoercionFragment(ret)
  {
    ChunkInRewritten(s, ret, i);
    ChunkHolds(s[i], ret);
    SliceInPrefix(Rewritten(s[..i], ret), Chunk(s[i], ret), Rewritten(s, ret), 0, 2);
  }

  /** A chunk ends in its original instruction, after the inserted fragment if any. */
  lemma ChunkHolds(ins: Instr, ret: JType)
    ensures Inserted(ins, ret) < |Chunk(ins, ret)| && Chunk(ins, ret)[Inserted(ins, ret)] == ins
    ensures IsRewrittenReturn(ins, ret) ==> Chunk(ins, ret)[..2] == CoercionFragment(ret)
  {
  }

  lemma InPrefix<T>(a: seq<T>, c: seq<T>, r: seq<T>, k: nat)
    requires a + c <= r && k < |c|
    ensures |a| + k < |r| && r[|a| + k] == c[k]
  {
    assert (a + c)[|a| + k] == c[k];
  }

  lemma SliceInPrefix<T>(a: seq<T>, c: seq<T>, r: seq<T>, lo: nat, hi: nat)
    requires a + c <= r && lo <= hi <= |c|
    ensures |a| + hi <= |r| && r[|a| + lo .. |a| + hi] == c[lo..hi]
  {
    assert (a + c)[|a| + lo .. |a| + hi] == c[lo..hi];
  }

  /** The chunk of instruction i follows the rewriting of the instructions before it. */
  lemma ChunkInRewritten(s: seq<Instr>, ret: JType, i: nat)
    requires i < |s|
    ensures Rewritten(s[..i], ret) + Chunk(s[i], ret) <= Rewritten(s, ret)
    ensures Placed(s, ret, i) == |Rewritten(s[..i], ret)| + Inserted(s[i], ret)
  {
    RewrittenStep(s, i, ret);
    RewrittenPrefix(s, ret, i + 1);
    PatchCountPrefix(s, ret, i);
  }

  /** The rewriting of a prefix of the body is a prefix of the rewriting of the body. */
  lemma {:induction false} RewrittenPrefix(s: seq<Instr>, ret: JType, m: nat)
    requires m <= |s|
    ensures Rewritten(s[..m], ret) <= Rewritten(s, ret)
    decreases |s| - m
  {
    if m < |s| {
      RewrittenPrefix(s, ret, m + 1);
      RewrittenStep(s, m, ret);
    } else {
      assert s[..m] == s;
    }
  }

  /**
   * The rewritten body is tiled by the original instructions, each preceded
   * by exactly its inserted code: nothing else is added and order is kept.
   */
  lemma {:induction false} RewrittenTiling(s: seq<Instr>, ret: JType)
    requires |s| > 0
    ensures Placed(s, ret, 0) == Inserted(s[0], ret)
    ensures forall i :: 0 <= i < |s| - 1 ==> Placed(s, ret, i + 1) == Placed(s, ret, i) + 1 + Inserted(s[i + 1], ret)
    ensures Placed(s, ret, |s| - 1) == |Rewritten(s, ret)| - 1
  {
    PatchCountPrefix(s, ret, 0);
    assert s[..0] == [];
    forall i | 0 <= i < |s| - 1
      ensures Placed(s, ret, i + 1) == Placed(s, ret, i) + 1 + Inserted(s[i + 1], ret)
    {
      PatchCountPrefix(s, ret, i + 1);
      assert s[..i + 2][..i + 1] == s[..i + 1];
    }
    assert s[..|s|] == s;
  }

  /** Original instructions keep their relative order. */
  lemma {:induction false} RewrittenKeepsOrder(s: seq<Instr>, ret: JType, i: nat, j: nat)
    requires i < j < |s|
    ensures Placed(s, ret, i) < Placed(s, ret, j)
    decreases j - i
  {
    RewrittenTiling(s, ret);
    if i + 1 < j {
      RewrittenKeepsOrder(s, ret, i + 1, j);
    }
  }

  /** A return of the patched kind at index j of the rewritten body follows its fragment. */
  lemma {:induction false} RewrittenReturnShadowed(s: seq<Instr>, ret: JType, j: nat)
    requires j < |Rewritten(s, ret)| && IsRewrittenReturn(Rewritten(s, ret)[j], ret)
    ensures 2 <= j && Rewritten(s, ret)[j - 2 .. j] == CoercionFragment(ret)
    decreases |s|
  {
    var front := s[..|s| - 1];
    var r := Rewritten(s, ret);
    var a := Rewritten(front, ret);
    var c := Chunk(s[|s| - 1], ret);
    assert r == a + c;
    if j < |a| {
      assert r[j] == a[j];
      RewrittenReturnShadowed(front, ret, j);
      assert r[j - 2 .. j] == a[j - 2 .. j];
    } else {
      ChunkShadowed(s[|s| - 1], ret, j - |a|);
      assert r[j - 2 .. j] == c[..2];
    }
  }

  /** Within one chunk, only the original instruction can be a patched return, and its fragment precedes it. */
  lemma ChunkShadowed(ins: Instr, ret: JType, k: nat)
    requires k < |Chunk(ins, ret)| && IsRewrittenReturn(Chunk(ins, ret)[k], ret)
    ensures k == 2 && Chunk(ins, ret)[..2] == CoercionFragment(ret)
  {
  }

  /**
   * Every return of the patched kind in the rewritten body is dead code:
   * its fragment, ending in areturn, comes right before it.
   */
  lemma RewrittenShadowsEveryReturn(s: seq<Instr>, ret: JType)
    ensures forall j :: 0 <= j < |Rewritten(s, ret)| && IsRewrittenReturn(Rewritten(s, ret)[j], ret) ==>
      2 <= j && Rewritten(s, ret)[j - 2 .. j] == CoercionFragment(ret)
  {
    forall j | 0 <= j < |Rewritten(s, ret)| && IsRewrittenReturn(Rewritten(s, ret)[j], ret) {
      RewrittenReturnShadowed(s, ret, j);
    }
  }

  /**
   * The fragment leaves on the stack the reference areturn will return:
   * null for void, the boxed value for a primitive.
   */
  lemma CoercionFragmentPushesReference(ret: JType, v: Value, st: State)
    requires ret == Void || (IsPrimitive(ret) && HasType(v, ret))
    ensures var below := if ret == Void then st.stack else st.stack + [v];
      var result := if ret == Void then Null else Boxed(ret, v.bits);
      Exec(CoercionFragment(ret)[..1], st.(stack := below)) == Some(st.(stack := st.stack + [result]))
      && Accepts(CoercionFragment(ret)[1], result)
  {
    var below := if ret == Void then st.stack else st.stack + [v];
    assert CoercionFragment(ret)[..1][1..] == [];
    if ret != Void {
      assert below[..|below| - 1] == st.stack;
    }
  }

  /** The tail of a proxy method, given the declared return type. */
  function ProxyReturnTail(ret: JType): (r: seq<Instr>)
    ensures |r| >= 1 && r[|r| - 1] == ReturnOpcode(ret)
  {
    match ret
    case Ref(_) => [CheckCast(ret), AReturn]
    case Void => [Return]
    case _ => [Unbox(ret), if ret == Float then FReturn else if ret == Double then DReturn else if ret == Long then LReturn else IReturn]
  }

  /** addReturnProxyMethod: only appends the proxy tail to `b`. */
  method AddReturnProxyMethod(ret: JType, b: Bytecode)
    modifies b
    ensures b.code == old(b.code) + ProxyReturnTail(ret)
  {
    if ret.Ref? {
      b.Add(CheckCast(ret));
      b.Add(AReturn);
      return;
    }
    if ret == Void {
      b.Add(Return);
      return;
    } else {
      b.Add(Unbox(ret));
      if ret == Float {
        b.Add(FReturn);
      } else if ret == Double {
        b.Add(DReturn);
      } else if ret == Long {
        b.Add(LReturn);
      } else {
        b.Add(IReturn);
      }
      return;
    }
  }

  /**
   * Boxing a primitive result (the rewriter's fragment) and then running the
   * proxy tail's unboxing gives back the original value, which the tail's
   * typed return accepts.
   */
  lemma BoxThenProxyUnboxRoundTrip(ret: JType, v: Value, st: State)
    requires IsPrimitive(ret) && HasType(v, ret)
    ensures var tail := ProxyReturnTail(ret);
      Exec(CoercionFragment(ret)[..1] + tail[..|tail| - 1], st.(stack := st.stack + [v])) == Some(st.(stack := st.stack + [v]))
      && Accepts(tail[|tail| - 1], v)
  {
    var tail := ProxyReturnTail(ret);
    var s0 := st.(stack := st.stack + [v]);
    var s1 := st.(stack := st.stack + [Boxed(ret, v.bits)]);
    CoercionFragmentPushesReference(ret, v, st);
    ExecAppend(CoercionFragment(ret)[..1], tail[..|tail| - 1], s0);
    assert tail[..|tail| - 1] == [Unbox(ret)];
    assert (st.stack + [Boxed(ret, v.bits)])[..|st.stack|] == st.stack;
    assert Step(Unbox(ret), s1) == Some(s0);
  }
}
