/** The affine-map compiler and its register machine (detail::CompiledAffineMap). */
module CompiledAffineMap {
  import opened Common
  import opened Arith
  import opened Affine
  import opened TwosComplement

  datatype Opcode = LoadDim | LoadConst | AddRegs | MulRegs | FloorDivRegs | ModRegs | CeilDivRegs | ShrImm | AndImm

  datatype Instruction = Instruction(op: Opcode, dst: nat, src1: nat, src2: nat, imm: int)

  const MAX_REGS: nat := 512

  // ----- Machine division: truncation toward zero, then a sign correction -----

  function Magnitude(a: int): nat { if a < 0 then -a else a }

  /** The machine's `a / b`. */
  function TruncQuot(a: int, b: int): int
    requires b != 0
  {
    if (a < 0) == (b < 0) then Magnitude(a) / Magnitude(b) else -(Magnitude(a) / Magnitude(b))
  }

  /** The machine's `a % b`. */
  function TruncRem(a: int, b: int): int
    requires b != 0
  {
    a - b * TruncQuot(a, b)
  }

  /** (x ^ y) < 0: the sign bits differ. */
  predicate XorNegative(x: int, y: int) { (x < 0) != (y < 0) }

  /** (x ^ y) > 0: equal sign bits, some other bit differs. */
  predicate XorPositive(x: int, y: int) { (x < 0) == (y < 0) && x != y }

  lemma TruncBasics(a: int, b: int)
    requires b != 0
    ensures Magnitude(TruncRem(a, b)) < Magnitude(b)
    ensures TruncRem(a, b) != 0 ==> (TruncRem(a, b) < 0) == (a < 0)
    ensures a == b * TruncQuot(a, b) + TruncRem(a, b)
  {
    var q, r := Magnitude(a) / Magnitude(b), Magnitude(a) % Magnitude(b);
    assert Magnitude(a) == Magnitude(b) * q + r;
    assert TruncRem(a, b) == (if a < 0 then -r else r);
  }

  lemma FloorUnique(a: int, b: int, q: int, r: int)
    requires b != 0 && a == b * q + r
    requires if 0 < b then 0 <= r < b else b < r <= 0
    ensures Floor(a, b) == q && Remainder(a, b) == r
  {
    if 0 < b {
      DivModUnique(a, b, q, r);
    } else {
      assert q * (-b) == -(b * q);
      DivModUnique(-a, -b, q, -r);
    }
  }

  /** The corrected quotient is the floor, the corrected remainder its remainder. */
  lemma CorrectedFloor(a: int, b: int)
    requires b != 0
    ensures Floor(a, b) ==
      if TruncRem(a, b) != 0 && XorNegative(TruncRem(a, b), b) then TruncQuot(a, b) - 1 else TruncQuot(a, b)
    ensures Remainder(a, b) ==
      if TruncRem(a, b) != 0 && XorNegative(TruncRem(a, b), b) then TruncRem(a, b) + b else TruncRem(a, b)
  {
    TruncBasics(a, b);
    var q, r := TruncQuot(a, b), TruncRem(a, b);
    if r != 0 && XorNegative(r, b) {
      assert b * (q - 1) == b * q - b;
      FloorUnique(a, b, q - 1, r + b);
    } else {
      FloorUnique(a, b, q, r);
    }
  }

  lemma CeilUnique(a: int, b: int, q: int, r: int)
    requires b != 0 && a == b * q + r
    requires if 0 < b then -b < r <= 0 else 0 <= r < -b
    ensures Ceil(a, b) == q
  {
    if 0 < b {
      assert (-q) * b == -(b * q);
      DivModUnique(-a, b, -q, -r);
    } else {
      assert (-q) * (-b) == b * q;
      DivModUnique(a, -b, -q, r);
    }
  }

  lemma CorrectedCeil(a: int, b: int)
    requires b != 0
    ensures Ceil(a, b) ==
      if TruncRem(a, b) != 0 && XorPositive(TruncRem(a, b), b) then TruncQuot(a, b) + 1 else TruncQuot(a, b)
  {
    TruncBasics(a, b);
    var q, r := TruncQuot(a, b), TruncRem(a, b);
    if r != 0 && XorPositive(r, b) {
      assert b * (q + 1) == b * q + b;
      CeilUnique(a, b, q + 1, r - b);
    } else {
      CeilUnique(a, b, q, r);
    }
  }

  // ----- What gets compiled -----

  /** Division by a constant power of two becomes a shift or a mask. */
  predicate Reduced(op: BinaryOp, rhs: Expr) {
    (op == FloorDiv || op == Mod) && rhs.Const? && InWord(rhs.value) && IsPowerOf2(rhs.value)
  }

  /** The subexpressions that get a register; the divisor of a reduced division gets none. */
  function Compiled(e: Expr): set<Expr> {
    match e
    case Dim(_) => {e}
    case Const(_) => {e}
    case Binary(op, l, r) => {e} + Compiled(l) + (if Reduced(op, r) then {} else Compiled(r))
  }

  function CompiledAll(m: AffineMap): set<Expr> {
    if m == [] then {} else CompiledAll(m[..|m| - 1]) + Compiled(m[|m| - 1])
  }

  /** Instruction `i` computes `e` from registers written before it. */
  predicate Encodes(code: seq<Instruction>, exprs: seq<Expr>, i: nat)
    requires i < |code| == |exprs|
  {
    var ins := code[i];
    && ins.dst == i
    && match exprs[i]
       case Dim(p) => ins.op == LoadDim && ins.imm == p
       case Const(v) => ins.op == LoadConst && ins.imm == v
       case Binary(op, l, r) =>
         && ins.src1 < i && exprs[ins.src1] == l
         && if Reduced(op, r) then
              if op == FloorDiv then ins.op == ShrImm && ins.imm == TrailingZeros(r.value)
              else ins.op == AndImm && ins.imm == r.value - 1
            else
              ins.src2 < i && exprs[ins.src2] == r && ins.op == RegOp(op)
  }

  function RegOp(op: BinaryOp): Opcode {
    match op
    case Add => AddRegs
    case Mul => MulRegs
    case Mod => ModRegs
    case FloorDiv => FloorDivRegs
    case CeilDiv => CeilDivRegs
  }

  /** A constant divisor becomes a shift or a mask exactly when it is a power of two. */
  lemma ReducedExactlyWhen(code: seq<Instruction>, exprs: seq<Expr>, i: nat, op: BinaryOp, l: Expr, v: int)
    requires i < |code| == |exprs| && Encodes(code, exprs, i)
    requires exprs[i] == Binary(op, l, Const(v)) && (op == FloorDiv || op == Mod) && InWord(v)
    ensures code[i].op == ShrImm || code[i].op == AndImm <==> exists k: nat :: v == Pow2(k)
    ensures code[i].op == ShrImm ==> op == FloorDiv && 0 <= code[i].imm && v == Pow2(code[i].imm)
    ensures code[i].op == AndImm ==> op == Mod && code[i].imm == v - 1
  {
    PowerTest(v);
  }

  // ----- When evaluation is defined -----

  /** No signed overflow, no out-of-range input, no division by zero. */
  predicate Defined(e: Expr, xs: seq<int>) {
    && InWord(Eval(e, xs))
    && match e
       case Dim(p) => p < |xs|
       case Const(_) => true
       case Binary(op, l, r) =>
         && Defined(l, xs) && Defined(r, xs)
         && (op in {FloorDiv, Mod, CeilDiv} ==>
               Eval(r, xs) != 0 && InWord(TruncQuot(Eval(l, xs), Eval(r, xs))))
  }

  lemma {:induction false} DefinedIsProper(e: Expr, xs: seq<int>)
    requires Defined(e, xs)
    ensures Proper(e, xs)
  {
    match e
    case Dim(_) =>
    case Const(_) =>
    case Binary(op, l, r) =>
      DefinedIsProper(l, xs);
      DefinedIsProper(r, xs);
  }

  /** What `Eval` gives is what the expression means by inequalities. */
  lemma AllMean(m: AffineMap, xs: seq<int>)
    requires forall i :: 0 <= i < |m| ==> Defined(m[i], xs)
    ensures forall i :: 0 <= i < |m| ==> Means(m[i], xs, Eval(m[i], xs))
  {
    forall i | 0 <= i < |m| ensures Means(m[i], xs, Eval(m[i], xs)) {
      DefinedIsProper(m[i], xs);
      EvalByInequalities(m[i], xs, Eval(m[i], xs));
    }
  }

  lemma {:induction false} CompiledAreDefined(e: Expr, xs: seq<int>)
    requires Defined(e, xs)
    ensures forall s :: s in Compiled(e) ==> Defined(s, xs)
  {
    match e
    case Dim(_) =>
    case Const(_) =>
    case Binary(op, l, r) =>
      CompiledAreDefined(l, xs);
      CompiledAreDefined(r, xs);
  }

  lemma {:induction false} AllCompiledAreDefined(m: AffineMap, xs: seq<int>)
    requires forall i :: 0 <= i < |m| ==> Defined(m[i], xs)
    ensures forall s :: s in CompiledAll(m) ==> Defined(s, xs)
  {
    if m != [] {
      AllCompiledAreDefined(m[..|m| - 1], xs);
      CompiledAreDefined(m[|m| - 1], xs);
    }
  }

  /** The machine can run the instruction without undefined behaviour. */
  predicate Runnable(ins: Instruction, regs: seq<int>, xs: seq<int>) {
    && ins.src1 < |regs| && ins.src2 < |regs|
    && (ins.op == LoadDim ==> 0 <= ins.imm < |xs|)
    && (ins.op in {FloorDivRegs, ModRegs, CeilDivRegs} ==> regs[ins.src2] != 0)
    && (ins.op == ShrImm ==> InWord(regs[ins.src1]) && 0 <= ins.imm < WORD)
    && (ins.op == AndImm ==> InWord(regs[ins.src1]) && InWord(ins.imm))
  }

  /** The value one instruction leaves in its destination, given the registers before it. */
  function Execute(ins: Instruction, regs: seq<int>, xs: seq<int>): int
    requires Runnable(ins, regs, xs)
  {
    var a, b := regs[ins.src1], regs[ins.src2];
    match ins.op
    case LoadDim => xs[ins.imm]
    case LoadConst => ins.imm
    case AddRegs => a + b
    case MulRegs => a * b
    case FloorDivRegs =>
      var q, rem := TruncQuot(a, b), TruncRem(a, b);
      if rem != 0 && XorNegative(rem, b) then q - 1 else q
    case ModRegs =>
      var rem := TruncRem(a, b);
      if rem != 0 && XorNegative(rem, b) then rem + b else rem
    case CeilDivRegs =>
      var q, rem := TruncQuot(a, b), TruncRem(a, b);
      if rem != 0 && XorPositive(rem, b) then q + 1 else q
    case ShrImm => ShiftRight(a, ins.imm)
    case AndImm => BitAnd(a, ins.imm)
  }

  /** Shift and mask stand in for the reduced divisions. */
  lemma ReductionIsRight(op: BinaryOp, a: int, v: int)
    requires (op == FloorDiv || op == Mod) && InWord(a) && InWord(v) && IsPowerOf2(v)
    ensures TrailingZeros(v) < WORD && InWord(v - 1)
    ensures op == FloorDiv ==> ShiftRight(a, TrailingZeros(v)) == Apply(FloorDiv, a, v)
    ensures op == Mod ==> BitAnd(a, v - 1) == Apply(Mod, a, v)
  {
    PowerTest(v);
    PositiveDivisor(a, v);
    ShiftIsFloorDivision(a, TrailingZeros(v));
    MaskIsRemainder(a, TrailingZeros(v));
  }

  /** One instruction, run on registers that hold their expressions' values, computes its own. */
  lemma StepIsRight(code: seq<Instruction>, exprs: seq<Expr>, i: nat, regs: seq<int>, xs: seq<int>)
    requires i < |code| == |exprs| && Encodes(code, exprs, i)
    requires |regs| > i && code[i].src1 < |regs| && code[i].src2 < |regs|
    requires forall j :: 0 <= j < i ==> regs[j] == Eval(exprs[j], xs)
    requires Defined(exprs[i], xs)
    ensures Runnable(code[i], regs, xs)
    ensures Execute(code[i], regs, xs) == Eval(exprs[i], xs)
  {
    match exprs[i]
    case Dim(_) =>
    case Const(_) =>
    case Binary(op, l, r) =>
      var a := Eval(l, xs);
      if Reduced(op, r) {
        ReductionIsRight(op, a, r.value);
      } else {
        RegisterStepIsRight(code[i], op, regs, xs);
      }
  }

  lemma RegisterStepIsRight(ins: Instruction, op: BinaryOp, regs: seq<int>, xs: seq<int>)
    requires ins.src1 < |regs| && ins.src2 < |regs| && ins.op == RegOp(op)
    requires op in {FloorDiv, Mod, CeilDiv} ==> regs[ins.src2] != 0
    ensures Runnable(ins, regs, xs)
    ensures Execute(ins, regs, xs) == Apply(op, regs[ins.src1], regs[ins.src2])
  {
    if regs[ins.src2] != 0 {
      CorrectedFloor(regs[ins.src1], regs[ins.src2]);
      CorrectedCeil(regs[ins.src1], regs[ins.src2]);
    }
  }

  /** The memo table and the registers describe each other. */
  ghost predicate ConsistentProgram(code: seq<Instruction>, exprs: seq<Expr>, memo: map<Expr, nat>) {
    && |exprs| == |code| == |memo| <= MAX_REGS
    && (forall i :: 0 <= i < |exprs| ==> exprs[i] in memo && memo[exprs[i]] == i)
    && (forall e :: e in memo ==> memo[e] < |exprs| && exprs[memo[e]] == e)
    && (forall i :: 0 <= i < |code| ==> Encodes(code, exprs, i))
    && (forall i :: 0 <= i < |code| ==> code[i].src1 < MAX_REGS && code[i].src2 < MAX_REGS)
  }

  lemma ProgramExtends(code: seq<Instruction>, exprs: seq<Expr>, memo: map<Expr, nat>, ins: Instruction, e: Expr)
    requires ConsistentProgram(code, exprs, memo) && |code| < MAX_REGS && e !in memo
    requires ins.src1 < MAX_REGS && ins.src2 < MAX_REGS
    requires Encodes(code + [ins], exprs + [e], |code|)
    ensures ConsistentProgram(code + [ins], exprs + [e], memo[e := |code|])
  {
    forall i | 0 <= i < |code| ensures Encodes(code + [ins], exprs + [e], i) {
      assert Encodes(code, exprs, i);
    }
  }

  /** Every register stands for its result. */
  ghost predicate Stand(regs: seq<nat>, exprs: seq<Expr>, results: AffineMap) {
    |regs| == |results| && forall i :: 0 <= i < |regs| ==> regs[i] < |exprs| && exprs[regs[i]] == results[i]
  }

  lemma StandExtends(regs: seq<nat>, exprs: seq<Expr>, more: seq<Expr>, results: AffineMap, reg: nat, expr: Expr)
    requires Stand(regs, exprs, results) && exprs <= more && reg < |more| && more[reg] == expr
    ensures Stand(regs + [reg], more, results + [expr])
  {
  }

  class Compiler {
    var code: seq<Instruction>
    var resultRegs: seq<nat>
    var exprToReg: map<Expr, nat>
    ghost var exprs: seq<Expr>   // exprs[i] is the expression register i stands for
    ghost var compiledResults: AffineMap

    ghost predicate Consistent()
      reads this`code, this`exprs, this`exprToReg
    {
      ConsistentProgram(code, exprs, exprToReg)
    }

    /** The program computes the map. */
    ghost predicate Valid()
      reads this
    {
      && Consistent()
      && exprToReg.Keys == CompiledAll(compiledResults)
      && Stand(resultRegs, exprs, compiledResults)
    }

    /** One instruction per distinct compiled subexpression. */
    constructor (m: AffineMap)
      requires |CompiledAll(m)| <= MAX_REGS
      ensures Valid() && compiledResults == m
      ensures |code| == |CompiledAll(m)|
    {
      code, resultRegs, exprToReg, exprs, compiledResults := [], [], map[], [], [];
      new;
      var i := 0;
      while i < |m|
        invariant 0 <= i <= |m|
        invariant Valid() && compiledResults == m[..i]
      {
        PrefixFits(m, i);
        CompileResult(m[i]);
        i := i + 1;
      }
      assert m[..|m|] == m;
    }

    method CompileResult(expr: Expr)
      requires Valid()
      requires |CompiledAll(compiledResults + [expr])| <= MAX_REGS
      modifies this
      ensures Valid() && compiledResults == old(compiledResults) + [expr]
    {
      assert (compiledResults + [expr])[..|compiledResults|] == compiledResults;
      ghost var before := exprs;
      var reg := CompileExpr(expr);
      StandExtends(resultRegs, before, exprs, compiledResults, reg, expr);
      resultRegs := resultRegs + [reg];
      compiledResults := compiledResults + [expr];
    }

    method EmitInstruction(expr: Expr, op: Opcode, src1: nat, src2: nat, imm: int) returns (reg: nat)
      requires Consistent() && |code| < MAX_REGS && expr !in exprToReg
      requires src1 < MAX_REGS && src2 < MAX_REGS
      requires Encodes(code + [Instruction(op, |code|, src1, src2, imm)], exprs + [expr], |code|)
      modifies this`code, this`exprs, this`exprToReg
      ensures Consistent()
      ensures code == old(code) + [Instruction(op, |old(code)|, src1, src2, imm)]
      ensures exprs == old(exprs) + [expr]
      ensures exprToReg.Keys == old(exprToReg.Keys) + {expr} && reg == |old(code)|
    {
      reg := |code|;
      var ins := Instruction(op, reg, src1, src2, imm);
      ProgramExtends(code, exprs, exprToReg, ins, expr);
      code := code + [ins];
      exprs := exprs + [expr];
      exprToReg := exprToReg[expr := reg];
    }

    /** Everything compiled on the way to a memoised expression is memoised. */
    lemma {:induction false} MemoClosed(e: Expr)
      requires Consistent() && e in exprToReg
      ensures Compiled(e) <= exprToReg.Keys
    {
      match e
      case Dim(_) =>
      case Const(_) =>
      case Binary(op, l, r) =>
        assert Encodes(code, exprs, exprToReg[e]);
        assert exprs[code[exprToReg[e]].src1] in exprToReg;
        MemoClosed(l);
        if !Reduced(op, r) {
          assert exprs[code[exprToReg[e]].src2] in exprToReg;
          MemoClosed(r);
        }
    }

    method CompileExpr(expr: Expr) returns (reg: nat)
      requires Consistent()
      requires |exprToReg.Keys + Compiled(expr)| <= MAX_REGS
      modifies this`code, this`exprs, this`exprToReg
      ensures Consistent()
      ensures exprToReg.Keys == old(exprToReg.Keys) + Compiled(expr)
      ensures old(exprs) <= exprs && old(code) <= code
      ensures reg < |exprs| && exprs[reg] == expr
      decreases expr, 2
    {
      if expr in exprToReg {
        MemoClosed(expr);
        assert exprToReg.Keys == exprToReg.Keys + Compiled(expr);
        return exprToReg[expr];
      }
      match expr
      case Dim(p) =>
        assert |exprToReg.Keys| + 1 == |exprToReg.Keys + Compiled(expr)|;
        reg := EmitInstruction(expr, LoadDim, 0, 0, p);
      case Const(v) =>
        assert |exprToReg.Keys| + 1 == |exprToReg.Keys + Compiled(expr)|;
        reg := EmitInstruction(expr, LoadConst, 0, 0, v);
      case Binary(op, l, r) =>
        reg := CompileBinary(expr, op, l, r);
    }

    method CompileBinary(expr: Expr, op: BinaryOp, l: Expr, r: Expr) returns (reg: nat)
      requires expr == Binary(op, l, r) && expr !in exprToReg
      requires Consistent()
      requires |exprToReg.Keys + Compiled(expr)| <= MAX_REGS
      modifies this`code, this`exprs, this`exprToReg
      ensures Consistent()
      ensures exprToReg.Keys == old(exprToReg.Keys) + Compiled(expr)
      ensures old(exprs) <= exprs && old(code) <= code
      ensures reg < |exprs| && exprs[reg] == expr
      decreases expr, 1
    {
      PartsFit(exprToReg.Keys, expr);
      var lhs := CompileExpr(l);
      if Reduced(op, r) {
        reg := EmitReduced(expr, op, l, r, lhs);
      } else {
        reg := EmitRegisters(expr, op, l, r, lhs);
      }
    }

    method EmitRegisters(expr: Expr, op: BinaryOp, l: Expr, r: Expr, lhs: nat) returns (reg: nat)
      requires expr == Binary(op, l, r) && !Reduced(op, r)
      requires Consistent() && expr !in exprToReg.Keys + Compiled(r)
      requires |exprToReg.Keys + Compiled(r)| < MAX_REGS
      requires lhs < |exprs| && exprs[lhs] == l
      modifies this`code, this`exprs, this`exprToReg
      ensures Consistent()
      ensures exprToReg.Keys == old(exprToReg.Keys) + Compiled(r) + {expr}
      ensures old(exprs) <= exprs && old(code) <= code
      ensures reg < |exprs| && exprs[reg] == expr
      decreases expr, 0
    {
      var rhs := CompileExpr(r);
      reg := EmitInstruction(expr, RegOp(op), lhs, rhs, 0);
    }

    method EmitReduced(expr: Expr, op: BinaryOp, l: Expr, r: Expr, lhs: nat) returns (reg: nat)
      requires expr == Binary(op, l, r) && Reduced(op, r) && expr !in exprToReg
      requires Consistent() && |code| < MAX_REGS
      requires lhs < |exprs| && exprs[lhs] == l
      modifies this`code, this`exprs, this`exprToReg
      ensures Consistent()
      ensures exprToReg.Keys == old(exprToReg.Keys) + {expr}
      ensures old(exprs) <= exprs && old(code) <= code
      ensures reg < |exprs| && exprs[reg] == expr
    {
      if op == FloorDiv {
        reg := EmitInstruction(expr, ShrImm, lhs, 0, TrailingZeros(r.value));
      } else {
        reg := EmitInstruction(expr, AndImm, lhs, 0, r.value - 1);
      }
    }

    lemma InstructionsDefined(xs: seq<int>)
      requires Valid()
      requires forall i :: 0 <= i < |compiledResults| ==> Defined(compiledResults[i], xs)
      ensures forall i :: 0 <= i < |code| ==> Encodes(code, exprs, i) && Defined(exprs[i], xs)
    {
      AllCompiledAreDefined(compiledResults, xs);
      forall i | 0 <= i < |code| ensures Defined(exprs[i], xs) {
        assert exprs[i] in exprToReg;
      }
    }

    /** Run the program on `inputs` and copy the result registers out. */
    method Evaluate(inputs: array<int>, results: array<int>)
      requires Valid() && inputs != results
      requires |compiledResults| <= results.Length
      requires forall i :: 0 <= i < |compiledResults| ==> Defined(compiledResults[i], inputs[..])
      modifies results
      ensures forall k :: 0 <= k < |compiledResults| ==> results[k] == Eval(compiledResults[k], inputs[..])
      ensures forall k :: 0 <= k < |compiledResults| ==> Means(compiledResults[k], inputs[..], results[k])
      ensures forall k :: |compiledResults| <= k < results.Length ==> results[k] == old(results[k])
    {
      ghost var xs := inputs[..];
      InstructionsDefined(xs);
      var regs := new int[MAX_REGS];
      RunProgram(code, exprs, inputs, regs);
      CopyOut(regs, resultRegs, results);
      AllMean(compiledResults, xs);
    }
  }

  method CopyOut(regs: array<int>, resultRegs: seq<nat>, results: array<int>)
    requires |resultRegs| <= results.Length && regs != results
    requires forall k :: 0 <= k < |resultRegs| ==> resultRegs[k] < regs.Length
    modifies results
    ensures forall k :: 0 <= k < |resultRegs| ==> results[k] == regs[resultRegs[k]]
    ensures forall k :: |resultRegs| <= k < results.Length ==> results[k] == old(results[k])
  {
    var i := 0;
    while i < |resultRegs|
      invariant 0 <= i <= |resultRegs|
      invariant forall k :: 0 <= k < i ==> results[k] == regs[resultRegs[k]]
      invariant forall k :: |resultRegs| <= k < results.Length ==> results[k] == old(results[k])
    {
      results[i] := regs[resultRegs[i]];
      i := i + 1;
    }
  }

  method RunProgram(code: seq<Instruction>, ghost exprs: seq<Expr>, inputs: array<int>, regs: array<int>)
    requires |exprs| == |code| <= regs.Length && regs != inputs
    requires forall i :: 0 <= i < |code| ==> Encodes(code, exprs, i) && Defined(exprs[i], inputs[..])
    requires forall i :: 0 <= i < |code| ==> code[i].src1 < regs.Length && code[i].src2 < regs.Length
    modifies regs
    ensures forall j :: 0 <= j < |code| ==> regs[j] == Eval(exprs[j], inputs[..])
  {
    ghost var xs := inputs[..];
    var pc := 0;
    while pc < |code|
      invariant 0 <= pc <= |code|
      invariant forall j :: 0 <= j < pc ==> regs[j] == Eval(exprs[j], xs)
    {
      StepIsRight(code, exprs, pc, regs[..], xs);
      assert Encodes(code, exprs, pc);
      var ins := code[pc];
      regs[ins.dst] := Execute(ins, regs[..], inputs[..]);
      pc := pc + 1;
    }
  }

  // ----- Helpers -----

  /** If registering `e` stays within the limit, so does each step towards it. */
  lemma PartsFit(before: set<Expr>, e: Expr)
    requires e.Binary? && e !in before && |before + Compiled(e)| <= MAX_REGS
    ensures
      var afterLhs := before + Compiled(e.lhs);
      var afterRhs := afterLhs + Compiled(e.rhs);
      && e !in afterLhs && |afterLhs| < MAX_REGS
      && if Reduced(e.op, e.rhs) then
           before + Compiled(e) == afterLhs + {e}
         else
           before + Compiled(e) == afterRhs + {e} && e !in afterRhs && |afterRhs| < MAX_REGS
  {
    ProperPartsOnly(e, e.lhs);
    ProperPartsOnly(e, e.rhs);
    var afterLhs := before + Compiled(e.lhs);
    var afterRhs := afterLhs + Compiled(e.rhs);
    SubsetSize(afterLhs + {e}, before + Compiled(e));
    if Reduced(e.op, e.rhs) {
      assert before + Compiled(e) == afterLhs + {e};
    } else {
      assert before + Compiled(e) == afterRhs + {e};
    }
  }

  lemma PrefixFits(m: AffineMap, i: nat)
    requires i < |m|
    ensures m[..i] + [m[i]] == m[..i + 1]
    ensures |CompiledAll(m[..i] + [m[i]])| <= |CompiledAll(m)|
  {
    assert m[..i + 1] == m[..i] + [m[i]];
    CompiledAllGrows(m, i + 1);
    SubsetSize(CompiledAll(m[..i + 1]), CompiledAll(m));
  }

  lemma {:induction false} CompiledAllGrows(m: AffineMap, i: nat)
    requires i <= |m|
    ensures CompiledAll(m[..i]) <= CompiledAll(m)
    decreases |m| - i
  {
    if i == |m| {
      assert m[..i] == m;
    } else {
      CompiledAllGrows(m, i + 1);
      assert m[..i + 1][..i] == m[..i];
    }
  }

  /** Compiling a part never registers the whole. */
  lemma ProperPartsOnly(whole: Expr, part: Expr)
    requires whole.Binary? && (part == whole.lhs || part == whole.rhs)
    ensures whole !in Compiled(part)
  {
    CompiledAreSmaller(part);
  }

  function Size(e: Expr): nat {
    match e
    case Dim(_) => 1
    case Const(_) => 1
    case Binary(_, l, r) => 1 + Size(l) + Size(r)
  }

  lemma {:induction false} CompiledAreSmaller(e: Expr)
    ensures forall s :: s in Compiled(e) ==> Size(s) <= Size(e)
  {
    match e
    case Dim(_) =>
    case Const(_) =>
    case Binary(_, l, r) =>
      CompiledAreSmaller(l);
      CompiledAreSmaller(r);
  }
}
