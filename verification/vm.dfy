/** The virtual machine of src/vm.rs: fetching from a call frame's
    instruction stream, the value stack, `binary_op`, `call`, and the
    dispatch loop of `run` as a single-step function and a driver.

    `run` takes a copy of the frame on top when it starts and fetches from
    that copy until it returns (src/vm.rs:103), so the driver `Loop` keeps
    one frame throughout, whatever `Return` does to the frame table. */
module Machine {
  import opened Faults
  import opened Values
  import opened Bytecode
  import TK = TokenKinds
  import Parser

  /** Which reading of two fetch and stack quirks: as written, the cursor
      after a `Constant` instruction skips one unit and `peek(d)` reads
      one slot above the value `d` places below the top; corrected, they
      read as evidently intended. */
  datatype Revision = AsWritten | Corrected

  /** A call frame. `run` fetches from a cursor of its own and never reads
      `instructionIndex`; `slots` is the base of the frame's stack window. */
  datatype CallFrame = CallFrame(callee: ObjFunction, instructionIndex: nat, slots: u8)

  /** The machine state the core touches: the value stack, the frame table
      and the count of live frames. */
  datatype VM = VM(stack: seq<Value>, frames: seq<CallFrame>, frameCount: nat)

  /** `VM::new`: no values, no frames. */
  function NewVM(): VM {
    VM([], [], 0)
  }

  function Codes(f: CallFrame): seq<BytecodeOp> {
    f.callee.chunk.codes
  }

  function Pool(f: CallFrame): seq<Value> {
    f.callee.chunk.constants
  }

  /** The frame table holds exactly the live frames. */
  predicate FramesBalanced(vm: VM) {
    |vm.frames| == vm.frameCount
  }

  /** `Vec::pop` whose result is dropped: the last element goes, and an
      empty vector stays empty. */
  function Discard<T>(s: seq<T>): (r: seq<T>)
    ensures |s| == 0 ==> r == s
    ensures 0 < |s| ==> r + [s[|s| - 1]] == s
  {
    if |s| == 0 then s else s[..|s| - 1]
  }

  // ---------------------------------------------------------------------
  // Fetching

  /** `read_byte`: the unit at the cursor and the cursor past it; a cursor
      past the end of the stream aborts. */
  function ReadByte(f: CallFrame, i: nat): (r: Result<(nat, BytecodeOp)>)
    ensures r.Ok? <==> i < |Codes(f)|
    ensures r.Ok? ==> r.value.0 == i + 1 && r.value.1 == Codes(f)[i]
    ensures r.Fail? ==> r.fault == InstructionOutOfRange
  {
    if i < |Codes(f)| then Ok((i + 1, Codes(f)[i])) else Fail(InstructionOutOfRange)
  }

  /** How far past the opcode's operand the cursor lands after
      `read_constant`. */
  function OperandStride(rev: Revision): (n: nat)
    ensures n == 1 <==> rev == Corrected
    ensures 1 <= n <= 2
  {
    match rev
    case AsWritten => 2
    case Corrected => 1
  }

  /** `read_constant`, called with the cursor on the operand after a
      `Constant` opcode: the operand must be a constant index that is in
      the pool. As written it returns the cursor it was given plus two,
      one past the unit after the operand. */
  function ReadConstant(rev: Revision, f: CallFrame, i: nat): (r: Result<(nat, Value)>)
    ensures r.Ok? <==> i < |Codes(f)| && Codes(f)[i].ConstantIndex? && (Codes(f)[i].index as nat) < |Pool(f)|
    ensures r.Ok? ==> r.value.1 == Pool(f)[Codes(f)[i].index] && r.value.0 == i + OperandStride(rev)
    ensures r.Fail? ==>
      r.fault == if |Codes(f)| <= i then InstructionOutOfRange
        else if !Codes(f)[i].ConstantIndex? then ExpectedConstantIndex
        else ConstantOutOfRange
  {
    var (_, unit) :- ReadByte(f, i);
    if !unit.ConstantIndex? then Fail(ExpectedConstantIndex)
    else if |Pool(f)| <= unit.index as nat then Fail(ConstantOutOfRange)
    else Ok((i + OperandStride(rev), Pool(f)[unit.index]))
  }

  // ---------------------------------------------------------------------
  // The stack

  /** `peek(distance)`. As written it reads slot `len - distance`, so
      `peek(0)` is one past the top and a distance beyond the length
      underflows; corrected, it reads the value `distance` places below
      the top. */
  function Peek(rev: Revision, stack: seq<Value>, distance: nat): (r: Result<Value>)
    ensures rev == Corrected ==> (r.Ok? <==> distance < |stack|)
    ensures rev == Corrected && r.Ok? ==> r.value == stack[|stack| - 1 - distance]
    ensures rev == AsWritten ==> (r.Ok? <==> 0 < distance <= |stack|)
    ensures rev == AsWritten && |stack| < distance ==> r == Fail(ArithmeticOverflow)
    ensures r.Fail? && distance <= |stack| ==> r.fault == StackOutOfRange
  {
    match rev
    case AsWritten =>
      if |stack| < distance then Fail(ArithmeticOverflow)
      else if |stack| - distance < |stack| then Ok(stack[|stack| - distance])
      else Fail(StackOutOfRange)
    case Corrected =>
      if distance < |stack| then Ok(stack[|stack| - 1 - distance]) else Fail(StackOutOfRange)
  }

  /** The two readings of `peek` are one place apart, and as written
      `peek(0)` always aborts. */
  lemma {:induction false} PeekOffByOne(stack: seq<Value>, distance: nat)
    ensures Peek(AsWritten, stack, distance + 1).Ok? <==> Peek(Corrected, stack, distance).Ok?
    ensures distance < |stack| ==> Peek(AsWritten, stack, distance + 1) == Peek(Corrected, stack, distance)
    ensures Peek(AsWritten, stack, 0) == Fail(StackOutOfRange)
  {
  }

  /** `binary_op`: both operands must be numbers (the top is checked
      first, and the second is only looked at when the top is a number);
      then the right operand is popped, then the left, and the operator's
      result on left and right is pushed. */
  function BinaryOp(rev: Revision, arith: Arith, op: TK.Operator, stack: seq<Value>): (r: Result<seq<Value>>)
    ensures rev == AsWritten ==> r == Fail(StackOutOfRange)
    ensures rev == Corrected ==>
      (r.Ok? <==> 2 <= |stack| && arith.isNumber(stack[|stack| - 1]) && arith.isNumber(stack[|stack| - 2]))
    ensures r.Ok? ==>
      |r.value| == |stack| - 1 && r.value[..|stack| - 2] == stack[..|stack| - 2] &&
      r.value[|stack| - 2] == arith.apply(op, stack[|stack| - 2], stack[|stack| - 1])
    ensures rev == Corrected && r.Fail? ==>
      r.fault == if |stack| == 0 || (|stack| == 1 && arith.isNumber(stack[0])) then StackOutOfRange
        else OperandsMustBeNumbers
  {
    var top :- Peek(rev, stack, 0);
    if !arith.isNumber(top) then Fail(OperandsMustBeNumbers)
    else
      var second :- Peek(rev, stack, 1);
      if !arith.isNumber(second) then Fail(OperandsMustBeNumbers)
      else
        // The two peeks succeeded, so both pops find a value.
        var b := stack[|stack| - 1];
        var a := stack[|stack| - 2];
        Ok(stack[..|stack| - 2] + [arith.apply(op, a, b)])
  }

  // ---------------------------------------------------------------------
  // Calls

  /** `call`: the argument count must match the arity, and the frame table
      must hold fewer than 255 frames; then a frame starting at instruction
      0, whose slot base is the stack length truncated to `u8` less the
      arguments and the callee, is inserted at the live-frame count. The
      `u8` subtraction aborts when it would go below zero. */
  function Call(vm: VM, callee: ObjFunction, numArgs: u8): (r: Result<VM>)
    ensures r.Ok? <==>
      numArgs == callee.arity && |vm.frames| != 255 &&
      numArgs as int + 1 <= |vm.stack| % 256 && vm.frameCount <= |vm.frames|
    ensures numArgs != callee.arity ==> r == Fail(WrongArity(numArgs as int, callee.arity as int))
    ensures numArgs == callee.arity && |vm.frames| == 255 ==> r == Fail(StackOverflow)
    ensures r.Ok? ==>
      var fc := vm.frameCount;
      var v := r.value;
      v.stack == vm.stack && v.frameCount == fc + 1 &&
      |v.frames| == |vm.frames| + 1 && v.frames[..fc] == vm.frames[..fc] && v.frames[fc + 1..] == vm.frames[fc..] &&
      v.frames[fc] == CallFrame(callee, 0, (|vm.stack| % 256 - numArgs as int - 1) as u8)
    ensures FramesBalanced(vm) && r.Ok? ==> FramesBalanced(r.value)
    ensures |vm.frames| <= 255 && r.Ok? ==> |r.value.frames| <= 255
  {
    if numArgs != callee.arity then Fail(WrongArity(numArgs as int, callee.arity as int))
    else if |vm.frames| == 255 then Fail(StackOverflow)
    else
      var length := (|vm.stack| % 256) as u8;
      if length < numArgs || length - numArgs < 1 then Fail(ArithmeticOverflow)
      else
        var frame := CallFrame(callee, 0, length - numArgs - 1);
        if |vm.frames| < vm.frameCount then Fail(FrameOutOfRange)
        else
          var frames := vm.frames[..vm.frameCount] + [frame] + vm.frames[vm.frameCount..];
          Ok(vm.(frames := frames, frameCount := vm.frameCount + 1))
  }

  // ---------------------------------------------------------------------
  // Dispatch

  /** The operator `binary_op` applies for an opcode, for the opcodes the
      dispatch sends there. */
  function BinaryOperator(op: Op): (r: Option<TK.Operator>)
    ensures r.Some? <==> op in {Add, Subtract, Multiply, Divide, IntDivide, Exponent,
                                ValueEqual, NotValueEqual, Greater, GreaterEqual, Less, LessEqual}
  {
    match op
    case ValueEqual => Some(TK.EqualEqual)
    case NotValueEqual => Some(TK.NotEqual)
    case Less => Some(TK.Less)
    case LessEqual => Some(TK.LessEqual)
    case Greater => Some(TK.Greater)
    case GreaterEqual => Some(TK.GreaterEqual)
    case Add => Some(TK.Plus)
    case Subtract => Some(TK.Minus)
    case Multiply => Some(TK.Star)
    case Exponent => Some(TK.StarStar)
    case Divide => Some(TK.Slash)
    case IntDivide => Some(TK.SlashSlash)
    case _ => None
  }

  /** The machine applies the operator the compiler compiled: every
      opcode `binary` emits, corrected, is dispatched back to the operator
      of its token. As written, `>=` comes back as `>`. */
  lemma {:induction false} OpcodesRoundTrip(o: TK.Operator)
    requires Parser.BinaryOpcode(Parser.Corrected, TK.Operator(o)).Ok?
    ensures BinaryOperator(Parser.BinaryOpcode(Parser.Corrected, TK.Operator(o)).value) == Some(o)
    ensures BinaryOperator(Parser.BinaryOpcode(Parser.AsWritten, TK.Operator(o)).value) ==
      if o == TK.GreaterEqual then Some(TK.Greater) else Some(o)
  {
  }

  /** What one step leaves: the machine and the cursor to fetch from
      next, or, after the outermost `Return`, the final machine. */
  datatype Outcome = Running(vm: VM, cursor: nat) | Finished(vm: VM)

  /** The `Return` arm, with the cursor already past the opcode: the live
      count drops by one; at zero two values are popped (each pop of an
      empty stack does nothing) and the run ends, otherwise the last frame
      of the table is dropped and the loop goes on. A count already at
      zero underflows. */
  function ReturnStep(vm: VM, cursor: nat): (r: Result<Outcome>)
    ensures r.Fail? <==> vm.frameCount == 0
    ensures r.Fail? ==> r.fault == ArithmeticOverflow
    ensures r.Ok? ==> r.value.vm.frameCount == vm.frameCount - 1
    ensures r.Ok? ==> (r.value.Finished? <==> vm.frameCount == 1)
    ensures r.Ok? && r.value.Finished? ==>
      r.value.vm.frames == vm.frames && |r.value.vm.stack| == if |vm.stack| < 2 then 0 else |vm.stack| - 2
    ensures r.Ok? && r.value.Running? ==>
      r.value.cursor == cursor && r.value.vm.stack == vm.stack && r.value.vm.frames == Discard(vm.frames)
    ensures r.Ok? && r.value.Finished? ==> r.value.vm.stack == vm.stack[..|r.value.vm.stack|]
    ensures FramesBalanced(vm) && r.Ok? && r.value.Running? ==> FramesBalanced(r.value.vm)
  {
    if vm.frameCount == 0 then Fail(ArithmeticOverflow)
    else if vm.frameCount - 1 == 0 then Ok(Finished(vm.(stack := Discard(Discard(vm.stack)), frameCount := 0)))
    else Ok(Running(vm.(frames := Discard(vm.frames), frameCount := vm.frameCount - 1), cursor))
  }

  /** The arm of `run`'s dispatch for opcode `op`, with the cursor
      `next` already past it. Opcodes without an arm abort, as the operand
      units do. */
  function Dispatch(rev: Revision, arith: Arith, f: CallFrame, vm: VM, op: Op, next: nat): (r: Result<Outcome>)
    ensures r.Ok? && r.value.Running? ==>
      r.value.vm.frameCount <= vm.frameCount &&
      if op == Constant then next < |Codes(f)| && r.value.cursor == next + OperandStride(rev)
      else r.value.cursor == next
    ensures r.Ok? && r.value.Finished? ==> op == Return && r.value.vm.frameCount == 0
    ensures FramesBalanced(vm) && r.Ok? && r.value.Running? ==> FramesBalanced(r.value.vm)
    ensures op in {True, False, Pop} ==> r.Ok? && r.value.Running?
    ensures op in {Not, Negative, Noop, Assert} ==> r == Fail(JumpOrConstantIndex)
    ensures r.Ok? && r.value.Finished? ==> vm.frameCount == 1 && r.value.vm.frames == vm.frames
    ensures FramesBalanced(vm) && 0 < vm.frameCount && r.Ok? && r.value.Running? ==>
      0 < r.value.vm.frameCount && r.value.vm.frames[..1] == vm.frames[..1]
  {
    if op == Constant then
      var (after, value) :- ReadConstant(rev, f, next);
      Ok(Running(vm.(stack := vm.stack + [value]), after))
    else if op == True then Ok(Running(vm.(stack := vm.stack + [Bool(true)]), next))
    else if op == False then Ok(Running(vm.(stack := vm.stack + [Bool(false)]), next))
    else if op == Pop then Ok(Running(vm.(stack := Discard(vm.stack)), next))
    else if op == Return then ReturnStep(vm, next)
    else if BinaryOperator(op).Some? then
      var stack :- BinaryOp(rev, arith, BinaryOperator(op).value, vm.stack);
      Ok(Running(vm.(stack := stack), next))
    else Fail(JumpOrConstantIndex)
  }

  /** One iteration of `run`'s loop, fetching from frame `f` at cursor
      `i`: it moves forward, by one unit past a `Constant`'s operand at
      most, and ends the run only through the outermost `Return`. */
  function Step(rev: Revision, arith: Arith, f: CallFrame, vm: VM, i: nat): (r: Result<Outcome>)
    ensures r.Ok? ==> i < |Codes(f)| && Codes(f)[i].Op?
    ensures r.Ok? && r.value.Running? ==>
      i < r.value.cursor <= |Codes(f)| + OperandStride(rev) - 1 && r.value.vm.frameCount <= vm.frameCount
    ensures r.Ok? && r.value.Finished? ==> Codes(f)[i] == Op(Return) && r.value.vm.frameCount == 0
    ensures FramesBalanced(vm) && r.Ok? && r.value.Running? ==> FramesBalanced(r.value.vm)
    ensures i < |Codes(f)| && !Codes(f)[i].Op? ==> r == Fail(JumpOrConstantIndex)
    ensures r.Ok? && r.value.Finished? ==> vm.frameCount == 1 && r.value.vm.frames == vm.frames
    ensures FramesBalanced(vm) && 0 < vm.frameCount && r.Ok? && r.value.Running? ==>
      0 < r.value.vm.frameCount && r.value.vm.frames[..1] == vm.frames[..1]
  {
    var (next, unit) :- ReadByte(f, i);
    if !unit.Op? then Fail(JumpOrConstantIndex) else Dispatch(rev, arith, f, vm, unit.op, next)
  }

  /** How many values an instruction that completes takes off a stack of
      the given height, and how many it puts back. */
  function StackEffect(op: Op, height: nat): (nat, nat) {
    match op
    case Constant => (0, 1)
    case True => (0, 1)
    case False => (0, 1)
    case Pop => (if height == 0 then 0 else 1, 0)
    case Return => (0, 0)
    case _ => (2, 1)
  }

  /** An arm that goes on changes the stack as its opcode's stack effect
      says, and leaves everything below the values it took alone. */
  lemma {:induction false} StackEffectHolds(rev: Revision, arith: Arith, f: CallFrame, vm: VM, op: Op, next: nat)
    requires Dispatch(rev, arith, f, vm, op, next).Ok? && Dispatch(rev, arith, f, vm, op, next).value.Running?
    ensures var s := vm.stack;
      var s' := Dispatch(rev, arith, f, vm, op, next).value.vm.stack;
      var pops := StackEffect(op, |s|).0;
      pops <= |s| && |s'| == |s| - pops + StackEffect(op, |s|).1 && s'[..|s| - pops] == s[..|s| - pops]
  {
    var s := vm.stack;
    var s' := Dispatch(rev, arith, f, vm, op, next).value.vm.stack;
    if op in {Constant, True, False} {
      assert StackEffect(op, |s|) == (0, 1);
      assert |s'| == |s| + 1 && s'[..|s|] == s;
    } else if op == Pop {
      assert s' == Discard(s);
      if 0 < |s| {
        assert StackEffect(op, |s|) == (1, 0);
        assert s'[..|s| - 1] == s[..|s| - 1];
      }
    } else if op == Return {
      assert StackEffect(op, |s|) == (0, 0);
      assert s' == s;
    } else {
      assert StackEffect(op, |s|) == (2, 1);
      var r := BinaryOp(rev, arith, BinaryOperator(op).value, s);
      assert s' == r.value;
      assert |s'| == |s| - 1 && s'[..|s| - 2] == s[..|s| - 2];
    }
  }

  /** A step that goes on changes the stack as its instruction's stack
      effect says, and leaves everything below the values it took alone. */
  lemma {:induction false} StepStackEffect(rev: Revision, arith: Arith, f: CallFrame, vm: VM, i: nat)
    requires Step(rev, arith, f, vm, i).Ok? && Step(rev, arith, f, vm, i).value.Running?
    ensures var s := vm.stack;
      var s' := Step(rev, arith, f, vm, i).value.vm.stack;
      var pops := StackEffect(Codes(f)[i].op, |s|).0;
      pops <= |s| && |s'| == |s| - pops + StackEffect(Codes(f)[i].op, |s|).1 && s'[..|s| - pops] == s[..|s| - pops]
  {
    assert Step(rev, arith, f, vm, i) == Dispatch(rev, arith, f, vm, Codes(f)[i].op, i + 1);
    StackEffectHolds(rev, arith, f, vm, Codes(f)[i].op, i + 1);
  }

  /** What the pushing instructions push: a `Constant` the pool entry its
      operand names, `True` and `False` the matching boolean. */
  lemma {:induction false} StepPushes(rev: Revision, arith: Arith, f: CallFrame, vm: VM, i: nat)
    requires Step(rev, arith, f, vm, i).Ok? && i < |Codes(f)| && Codes(f)[i].Op?
    requires Codes(f)[i].op in {Constant, True, False}
    ensures var s' := Step(rev, arith, f, vm, i).value.vm.stack;
      |s'| == |vm.stack| + 1 &&
      s'[|vm.stack|] == match Codes(f)[i].op
        case Constant => Pool(f)[Codes(f)[i + 1].index]
        case True => Bool(true)
        case _ => Bool(false)
  {
    var op := Codes(f)[i].op;
    assert Step(rev, arith, f, vm, i) == Dispatch(rev, arith, f, vm, op, i + 1);
    if op == Constant {
      assert Step(rev, arith, f, vm, i).value.vm.stack == vm.stack + [ReadConstant(rev, f, i + 1).value.1];
    }
  }

  /** A step that goes on leaves the cursor past its opcode and past the
      immediate operands the opcode takes, each operand counting the
      revision's stride. */
  lemma {:induction false} StepCursor(rev: Revision, arith: Arith, f: CallFrame, vm: VM, i: nat)
    requires Step(rev, arith, f, vm, i).Ok? && Step(rev, arith, f, vm, i).value.Running?
    ensures i < |Codes(f)| && Codes(f)[i].Op?
    ensures Step(rev, arith, f, vm, i).value.cursor == i + 1 + OperandCount(Codes(f)[i].op) * OperandStride(rev)
  {
    assert Step(rev, arith, f, vm, i) == Dispatch(rev, arith, f, vm, Codes(f)[i].op, i + 1);
  }

  /** As written a `Constant` instruction moves the cursor three units
      past its opcode, skipping the unit after its operand; corrected, two. */
  lemma {:induction false} ConstantStride(rev: Revision, arith: Arith, f: CallFrame, vm: VM, i: nat)
    requires i + 1 < |Codes(f)| && Codes(f)[i] == Op(Constant)
    requires Codes(f)[i + 1].ConstantIndex? && (Codes(f)[i + 1].index as nat) < |Pool(f)|
    ensures var r := Step(rev, arith, f, vm, i);
      r.Ok? && r.value.Running? && r.value.cursor == if rev == AsWritten then i + 3 else i + 2
  {
  }

  /** `run`'s loop from cursor `i`, fetching from frame `f` throughout. It
      can only end normally through `Return`. */
  function Loop(rev: Revision, arith: Arith, f: CallFrame, vm: VM, i: nat): (r: Result<VM>)
    requires i <= |Codes(f)| + 1
    decreases |Codes(f)| + 1 - i
    ensures r.Ok? ==> r.value.frameCount == 0
    ensures FramesBalanced(vm) && 0 < vm.frameCount && r.Ok? ==> r.value.frames == vm.frames[..1]
  {
    var o :- Step(rev, arith, f, vm, i);
    match o
    case Finished(v) => Ok(v)
    case Running(v, j) => Loop(rev, arith, f, v, j)
  }

  /** A run that ends normally has met a `Return` at or after where it
      started. */
  lemma {:induction false} LoopEndsAtReturn(rev: Revision, arith: Arith, f: CallFrame, vm: VM, i: nat)
    requires i <= |Codes(f)| + 1
    requires Loop(rev, arith, f, vm, i).Ok?
    decreases |Codes(f)| + 1 - i
    ensures exists k :: i <= k < |Codes(f)| && Codes(f)[k] == Op(Return)
  {
    var o := Step(rev, arith, f, vm, i).value;
    if o.Running? {
      LoopEndsAtReturn(rev, arith, f, o.vm, o.cursor);
    }
  }

  /** `run`: the frame below the live count is copied once, and the loop
      fetches from it starting at unit 0. A live count of zero underflows;
      one beyond the frame table finds no frame. */
  function Run(rev: Revision, arith: Arith, vm: VM): (r: Result<VM>)
    ensures vm.frameCount == 0 ==> r == Fail(ArithmeticOverflow)
    ensures 0 < vm.frameCount && |vm.frames| < vm.frameCount ==> r == Fail(FrameOutOfRange)
    ensures r.Ok? ==> r.value.frameCount == 0
    ensures FramesBalanced(vm) && r.Ok? ==> r.value.frames == vm.frames[..1]
  {
    if vm.frameCount == 0 then Fail(ArithmeticOverflow)
    else if |vm.frames| <= vm.frameCount - 1 then Fail(FrameOutOfRange)
    else Loop(rev, arith, vm.frames[vm.frameCount - 1], vm, 0)
  }

  // ---------------------------------------------------------------------
  // Examples

  /** A function of no arguments whose stream is `Constant 0; Return`
      with one pool entry. */
  function ConstantThenReturn(v: Value): ObjFunction {
    ObjFunction(0, Chunk([Op(Constant), ConstantIndex(0), Op(Return)], [1, 1, 1], [v]), "f")
  }

  /** Called from a stack holding only the callee and run, that function
      aborts as written, fetching past the end after the skip, and returns
      normally when corrected, leaving the stack as it found it less the
      callee. */
  lemma {:induction false} ConstantThenReturnRuns(arith: Arith, v: Value)
    ensures var vm := Call(NewVM().(stack := [Object]), ConstantThenReturn(v), 0);
      vm.Ok? &&
      Run(AsWritten, arith, vm.value) == Fail(InstructionOutOfRange) &&
      Run(Corrected, arith, vm.value) == Ok(VM([], vm.value.frames, 0))
  {
    var g := ConstantThenReturn(v);
    var vm := Call(NewVM().(stack := [Object]), g, 0).value;
    var f := vm.frames[0];
    var pushed := vm.(stack := [Object, v]);
    assert f == CallFrame(g, 0, 0);
    assert ReadByte(f, 0) == Ok((1, Op(Constant)));
    assert vm.stack + [v] == [Object, v];
    // As written: the cursor lands past `Return`, at the end of the stream.
    assert ReadConstant(AsWritten, f, 1) == Ok((3, v));
    assert Step(AsWritten, arith, f, vm, 0) == Ok(Running(pushed, 3));
    assert Step(AsWritten, arith, f, pushed, 3) == Fail(InstructionOutOfRange);
    assert Run(AsWritten, arith, vm) == Loop(AsWritten, arith, f, pushed, 3);
    // Corrected: `Return` ends the run and pops both values.
    assert ReadConstant(Corrected, f, 1) == Ok((2, v));
    assert Step(Corrected, arith, f, vm, 0) == Ok(Running(pushed, 2));
    assert ReadByte(f, 2) == Ok((3, Op(Return)));
    assert Discard(Discard(pushed.stack)) == [];
    assert Step(Corrected, arith, f, pushed, 2) == Ok(Finished(VM([], vm.frames, 0)));
    assert Run(Corrected, arith, vm) == Loop(Corrected, arith, f, pushed, 2);
  }
}
