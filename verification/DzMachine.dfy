/** The stack machine (src/dz.c:225-407). Values are opaque: the arithmetic is a
    parameter, so nothing proved here depends on it. */
module DzMachine {
  import opened Basics
  import opened DzProgram
  import opened DzAnalysis

  datatype Alu<!V> = Alu(
    lift: real -> V,
    monadic: (Monadic, V) -> V,
    diadic: (Diadic, V, V) -> V,
    spline: (Op, V, seq<real>) -> V,
    holds: (Cond, V) -> bool,        // comparison of a value with zero
    atMost: (V, V) -> bool)

  /** sp is an offset from dz_stack; the register x is the top of the stack, so
      the depth of the stack is sp + 1. */
  datatype State<+V> = State(pc: int, sp: int, x: V, stack: seq<V>)

  datatype Illegal = StackCell(index: int) | CodeCell(index: int)

  datatype Outcome<+V> = Running(st: State<V>) | Returned(x: V) | Stopped | Fault(what: Illegal)

  predicate InStack<V>(st: State<V>, i: int) { 0 <= i < |st.stack| }

  /** x = *--sp */
  function Pop<V>(st: State<V>): Outcome<V> {
    if InStack(st, st.sp - 1) then Running(st.(x := st.stack[st.sp - 1], sp := st.sp - 1))
    else Fault(StackCell(st.sp - 1))
  }

  /** *sp++ = x; x = v */
  function Push<V>(st: State<V>, v: V): Outcome<V> {
    if InStack(st, st.sp) then Running(st.(stack := st.stack[st.sp := st.x], sp := st.sp + 1, x := v))
    else Fault(StackCell(st.sp))
  }

  function ReadConstants(code: seq<Cell>, pc: int, n: int): Option<seq<real>>
    decreases n
  {
    if n <= 0 then Some([])
    else if 0 <= pc < |code| && code[pc].Constant? then
      match ReadConstants(code, pc + 1, n - 1)
      case Some(tail) => Some([code[pc].r] + tail)
      case None => None
    else None
  }

  /** Whether a loop runs once more, for step y, counter x and limit lim. */
  predicate Continues<V>(alu: Alu<V>, y: V, x: V, lim: V) {
    (alu.holds(GEQ, y) && alu.atMost(x, lim)) || (alu.holds(LT, y) && alu.atMost(lim, x))
  }

  /** End of BEGFOR and ENDFOR: jump, or drop the step and the limit. */
  function LoopTest<V>(alu: Alu<V>, st: State<V>, arg: int): Outcome<V>
    requires InStack(st, st.sp - 1) && InStack(st, st.sp - 2)
  {
    if Continues(alu, st.stack[st.sp - 2], st.x, st.stack[st.sp - 1])
    then Running(st.(pc := st.pc + arg))
    else Pop(st.(sp := st.sp - 2))
  }

  /** One round of the loop in dz_execute; rnd is what Drand or Dgauss returns. */
  function Step<V>(code: seq<Cell>, alu: Alu<V>, rnd: V, st0: State<V>): Outcome<V> {
    if !(0 <= st0.pc < |code| && code[st0.pc].Code?) then Fault(CodeCell(st0.pc))
    else
      var op, arg := code[st0.pc].op, code[st0.pc].arg;
      var st := st0.(pc := st0.pc + 1);
      match op
      case RETURN => Returned(st.x)
      case NOP | STACK | PRINT => Running(st)
      case ERROR => Stopped
      case POP => Pop(st)
      case DUP => Push(st, st.x)
      case PUSH_i =>
        if st.pc < |code| && code[st.pc].Constant? then
          Push(st.(pc := st.pc + 1), alu.lift(code[st.pc].r))
        else Fault(CodeCell(st.pc))
      case PUSH_r =>
        if !InStack(st, st.sp) then Fault(StackCell(st.sp))
        else
          var stack := st.stack[st.sp := st.x];
          if !InStack(st, st.sp + arg) then Fault(StackCell(st.sp + arg))
          else Running(st.(stack := stack, x := stack[st.sp + arg], sp := st.sp + 1))
      case POP_r => Running(st.(sp := st.sp + arg))
      case SET_r =>
        if !InStack(st, st.sp + arg) then Fault(StackCell(st.sp + arg))
        else Pop(st.(stack := st.stack[st.sp + arg := st.x]))
      case Mon(m) => Running(st.(x := alu.monadic(m, st.x)))
      case RAND => Push(st, rnd)
      case GAUSS =>
        // no break: the case falls through to SPLINE, with operand 0
        (match Push(st, rnd)
         case Running(s) => Running(s.(x := alu.spline(SPLINE_n, s.x, [])))
         case other => other)
      case SPLINE_n | DSPLINE_n =>
        (match ReadConstants(code, st.pc, arg)
         case Some(data) => Running(st.(x := alu.spline(op, st.x, data), pc := st.pc + arg))
         case None => Fault(CodeCell(st.pc)))
      case Dia_i(d) =>
        if st.pc < |code| && code[st.pc].Constant? then
          Running(st.(x := alu.diadic(d, st.x, alu.lift(code[st.pc].r)), pc := st.pc + 1))
        else Fault(CodeCell(st.pc))
      case Dia_r(d) =>
        if !InStack(st, st.sp + arg) then Fault(StackCell(st.sp + arg))
        else Running(st.(x := alu.diadic(d, st.x, st.stack[st.sp + arg])))
      case Dia(d) =>
        (match Pop(st)
         case Running(s) => Running(s.(x := alu.diadic(d, s.x, st.x)))
         case other => other)
      case BR_l => Running(st.(pc := st.pc + arg))
      case Branch_l(c) => Pop(if alu.holds(c, st.x) then st.(pc := st.pc + arg) else st)
      case BEGFOR_l =>
        if !InStack(st, st.sp - 2) then Fault(StackCell(st.sp - 2))
        else if !InStack(st, st.sp - 1) then Fault(StackCell(st.sp - 1))
        else LoopTest(alu, st, arg)
      case ENDFOR_l =>
        if !InStack(st, st.sp - 2) then Fault(StackCell(st.sp - 2))
        else if !InStack(st, st.sp - 1) then Fault(StackCell(st.sp - 1))
        else LoopTest(alu, st.(x := alu.diadic(ADD, st.x, st.stack[st.sp - 2])), arg)
  }

  /** A run of at most |rnd| rounds. */
  function Run<V>(code: seq<Cell>, alu: Alu<V>, rnd: seq<V>, st: State<V>): Outcome<V> {
    if rnd == [] then Running(st)
    else
      match Step(code, alu, rnd[0], st)
      case Running(next) => Run(code, alu, rnd[1..], next)
      case last => last
  }

  function Start<V>(dz: Dz, top: V, stack: seq<V>): State<V> {
    State(0, dz.numArg - 1, top, stack)
  }
}
