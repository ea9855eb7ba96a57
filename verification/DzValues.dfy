/** What each instruction does to the values on the stack (src/dz.c:225-407), the last value
    being the one in the register. */
module DzValues {
  import opened Basics
  import opened DzProgram
  import opened DzAnalysis
  import opened DzMachine

  predicate Sound<V>(st: State<V>) { 0 <= st.sp < |st.stack| }

  /** The values of a state, from the bottom of the stack to the register. */
  function Values<V>(st: State<V>): (vs: seq<V>)
    requires Sound(st)
    ensures |vs| == st.sp + 1
  {
    st.stack[..st.sp] + [st.x]
  }

  function Last<V>(vs: seq<V>): V
    requires vs != []
  {
    vs[|vs| - 1]
  }

  /** All values but the last n. */
  function But<V>(vs: seq<V>, n: nat): seq<V>
    requires n <= |vs|
  {
    vs[..|vs| - n]
  }

  /** The machine stands at this instruction, with room for one more value. */
  predicate Reads<V>(code: seq<Cell>, st: State<V>, op: Op, arg: int) {
    0 <= st.pc < |code| && code[st.pc] == Code(op, arg) && Sound(st)
  }

  /** The round ends at address pc with these values, on the same stack. */
  ghost predicate Goes<V>(out: Outcome<V>, st: State<V>, pc: int, vs: seq<V>) {
    && out.Running? && out.st.pc == pc && |out.st.stack| == |st.stack|
    && (Sound(out.st) ==> Values(out.st) == vs)
    && out.st.sp + 1 == |vs|
  }

  /** POP drops the last value; the last of all is not there to be dropped. */
  lemma Drops<V>(code: seq<Cell>, alu: Alu<V>, rnd: V, st: State<V>)
    requires Reads(code, st, POP, 0)
    ensures var vs, out := Values(st), Step(code, alu, rnd, st);
      if |vs| == 1 then out == Fault(StackCell(-1)) else Goes(out, st, st.pc + 1, But(vs, 1))
  {
  }

  /** A conditional branch drops the last value, and jumps if and only if the condition holds of it. */
  lemma Branches<V>(code: seq<Cell>, alu: Alu<V>, rnd: V, st: State<V>, c: Cond, arg: int)
    requires Reads(code, st, Branch_l(c), arg)
    ensures var vs, out := Values(st), Step(code, alu, rnd, st);
      if |vs| == 1 then out == Fault(StackCell(-1))
      else Goes(out, st, if alu.holds(c, Last(vs)) then st.pc + 1 + arg else st.pc + 1, But(vs, 1))
  {
  }

  /** BR jumps and leaves the values alone; NOP and the printing ones do not even jump. */
  lemma Moves<V>(code: seq<Cell>, alu: Alu<V>, rnd: V, st: State<V>, op: Op, arg: int)
    requires op in {BR_l, NOP, STACK, PRINT} && Reads(code, st, op, arg)
    ensures Goes(Step(code, alu, rnd, st), st, if op == BR_l then st.pc + 1 + arg else st.pc + 1, Values(st))
  {
  }

  lemma Ends<V>(code: seq<Cell>, alu: Alu<V>, rnd: V, st: State<V>, op: Op, arg: int)
    requires op in {RETURN, ERROR} && Reads(code, st, op, arg)
    ensures Step(code, alu, rnd, st) == if op == RETURN then Returned(Last(Values(st))) else Stopped
  {
  }

  /** The value that a pushing instruction appends. */
  function Pushed<V>(code: seq<Cell>, alu: Alu<V>, rnd: V, pc: int, op: Op, vs: seq<V>): V
    requires vs != [] && op in {DUP, PUSH_i, RAND, GAUSS}
    requires op == PUSH_i ==> 0 <= pc + 1 < |code| && code[pc + 1].Constant?
  {
    match op
    case DUP => Last(vs)
    case PUSH_i => alu.lift(code[pc + 1].r)
    case RAND => rnd
    case GAUSS => alu.spline(SPLINE_n, rnd, [])
  }

  lemma Pushes<V>(code: seq<Cell>, alu: Alu<V>, rnd: V, st: State<V>, op: Op, arg: int)
    requires op in {DUP, PUSH_i, RAND, GAUSS} && Reads(code, st, op, arg)
    requires op == PUSH_i ==> st.pc + 1 < |code| && code[st.pc + 1].Constant?
    ensures var vs := Values(st);
      Goes(Step(code, alu, rnd, st), st, if op == PUSH_i then st.pc + 2 else st.pc + 1,
           vs + [Pushed(code, alu, rnd, st.pc, op, vs)])
  {
    assert st.stack[st.sp := st.x][..st.sp + 1] == Values(st);
  }

  /** PUSH@ appends a copy of the value its operand counts down to. */
  lemma Copies<V>(code: seq<Cell>, alu: Alu<V>, rnd: V, st: State<V>, arg: int)
    requires Reads(code, st, PUSH_r, arg) && 0 <= st.sp + arg <= st.sp
    ensures var vs := Values(st);
      Goes(Step(code, alu, rnd, st), st, st.pc + 1, vs + [vs[|vs| - 1 + arg]])
  {
    var stack := st.stack[st.sp := st.x];
    assert stack[..st.sp + 1] == Values(st);
    assert stack[st.sp + arg] == Values(st)[st.sp + arg];
  }

  /** POP@ drops that value and what is above it, but keeps the last. */
  lemma CutsDown<V>(code: seq<Cell>, alu: Alu<V>, rnd: V, st: State<V>, arg: int)
    requires Reads(code, st, POP_r, arg) && 0 <= st.sp + arg <= st.sp
    ensures var vs := Values(st);
      Goes(Step(code, alu, rnd, st), st, st.pc + 1, vs[..|vs| - 1 + arg] + [Last(vs)])
  {
  }

  /** SET@ moves the last value to that place. */
  lemma Sets<V>(code: seq<Cell>, alu: Alu<V>, rnd: V, st: State<V>, arg: int)
    requires Reads(code, st, SET_r, arg) && 0 <= st.sp + arg < st.sp
    ensures var vs := Values(st);
      Goes(Step(code, alu, rnd, st), st, st.pc + 1, But(vs[|vs| - 1 + arg := Last(vs)], 1))
  {
    var stack := st.stack[st.sp + arg := st.x];
    assert But(Values(st)[st.sp + arg := st.x], 1) == stack[..st.sp] == stack[..st.sp - 1] + [stack[st.sp - 1]];
  }

  /** Functions of one value are applied to the last. */
  lemma Applies<V>(code: seq<Cell>, alu: Alu<V>, rnd: V, st: State<V>, m: Monadic)
    requires Reads(code, st, Mon(m), 0)
    ensures var vs := Values(st);
      Goes(Step(code, alu, rnd, st), st, st.pc + 1, But(vs, 1) + [alu.monadic(m, Last(vs))])
  {
  }

  lemma Splines<V>(code: seq<Cell>, alu: Alu<V>, rnd: V, st: State<V>, op: Op, data: seq<real>)
    requires op in {SPLINE_n, DSPLINE_n} && Reads(code, st, op, |data|)
    requires ReadConstants(code, st.pc + 1, |data|) == Some(data)
    ensures var vs := Values(st);
      Goes(Step(code, alu, rnd, st), st, st.pc + 1 + |data|, But(vs, 1) + [alu.spline(op, Last(vs), data)])
  {
  }

  /** Functions of two values: of the last and a constant, */
  lemma WithConstant<V>(code: seq<Cell>, alu: Alu<V>, rnd: V, st: State<V>, d: Diadic, arg: int)
    requires Reads(code, st, Dia_i(d), arg) && st.pc + 1 < |code| && code[st.pc + 1].Constant?
    ensures var vs := Values(st);
      Goes(Step(code, alu, rnd, st), st, st.pc + 2,
           But(vs, 1) + [alu.diadic(d, Last(vs), alu.lift(code[st.pc + 1].r))])
  {
  }

  /** of the last and the value the operand counts down to, */
  lemma WithValue<V>(code: seq<Cell>, alu: Alu<V>, rnd: V, st: State<V>, d: Diadic, arg: int)
    requires Reads(code, st, Dia_r(d), arg) && 0 <= st.sp + arg < st.sp
    ensures var vs := Values(st);
      Goes(Step(code, alu, rnd, st), st, st.pc + 1, But(vs, 1) + [alu.diadic(d, Last(vs), vs[|vs| - 1 + arg])])
  {
  }

  /** or of the last two, in the order they were pushed. */
  lemma Combines<V>(code: seq<Cell>, alu: Alu<V>, rnd: V, st: State<V>, d: Diadic, arg: int)
    requires Reads(code, st, Dia(d), arg)
    ensures var vs, out := Values(st), Step(code, alu, rnd, st);
      if |vs| == 1 then out == Fault(StackCell(-1))
      else Goes(out, st, st.pc + 1, But(vs, 2) + [alu.diadic(d, vs[|vs| - 2], Last(vs))])
  {
  }

  /** A loop has its step, its limit and its counter last. ENDFOR adds the step to the counter.
      While the counter is not past the limit the loop jumps; otherwise it drops all three. */
  lemma Loops<V>(code: seq<Cell>, alu: Alu<V>, rnd: V, st: State<V>, op: Op, arg: int)
    requires op in {BEGFOR_l, ENDFOR_l} && Reads(code, st, op, arg) && st.sp >= 2
    ensures var vs, out := Values(st), Step(code, alu, rnd, st);
      var y, lim := vs[|vs| - 3], vs[|vs| - 2];
      var x := if op == BEGFOR_l then Last(vs) else alu.diadic(ADD, Last(vs), y);
      if (alu.holds(GEQ, y) && alu.atMost(x, lim)) || (alu.holds(LT, y) && alu.atMost(lim, x)) then
        Goes(out, st, st.pc + 1 + arg, But(vs, 1) + [x])
      else if |vs| == 3 then out == Fault(StackCell(-1))
      else Goes(out, st, st.pc + 1, But(vs, 3))
  {
    TestsLoop(code, alu, rnd, st, op, arg);
    hide Step;
    assert st.sp >= 3 ==> st.stack[..st.sp - 2] == st.stack[..st.sp - 3] + [st.stack[st.sp - 3]];
  }

  lemma TestsLoop<V>(code: seq<Cell>, alu: Alu<V>, rnd: V, st: State<V>, op: Op, arg: int)
    requires op in {BEGFOR_l, ENDFOR_l} && Reads(code, st, op, arg) && st.sp >= 2
    ensures var x := if op == BEGFOR_l then st.x else alu.diadic(ADD, st.x, st.stack[st.sp - 2]);
      Step(code, alu, rnd, st) == LoopTest(alu, st.(pc := st.pc + 1, x := x), arg)
  {
    hide LoopTest;
  }
}
