/** DZ programs as the loader receives them: a list of labels and instructions.
    The opcode table (src/dz.c:60-112) gives every opcode an operand class and a
    stack move, and the static analyser reads nothing else of an opcode. */
module DzProgram {
  import opened Basics

  datatype DzError =
    | IllegalInstruction | UnknownOpcode | LabelNotFound | OneOperandRequired
    | IntegerExpected | IllegalRelative | IllegalOperand | OneIndexExpected
    | OperandExpected | RelativeIsZero | StupidLocation | StackMismatch
    | NotReached | BelowGround | NotRewound | StackTooSmall

  datatype Result<+T> = Ok(value: T) | Err(error: DzError) {
    predicate IsFailure() { Err? }
    function PropagateFailure<U>(): Result<U> requires Err? { Err(error) }
    function Extract(): T requires Ok? { value }
  }

  datatype Monadic =
    | MINUS | INVERT | ADD1 | SUB1 | MUL2 | DIV2 | SGN | ABS | INT | SQRT | PIECE | RECT
    | SIN | COS | TAN | ASIN | ACOS | ATAN | EXP | EXPM1 | LOG | LOG1P
    | TANH | COSH | SINH | ATANH | QTANH | QDTANH | QSTDSIGMOID | QDSTDSIGMOID
    | QEXPMX | QDEXPMX | QEXPMX2 | QDEXPMX2

  datatype Diadic = ADD | MUL | SUB | DIV | MAX | MIN | MODI | DIVI | POWER

  datatype Cond = EQ | NEQ | GT | LT | GEQ | LEQ

  datatype Op =
    | RETURN | NOP | STACK | PRINT | ERROR
    | POP | DUP | PUSH_i | PUSH_r | POP_r | SET_r
    | Mon(m: Monadic)
    | RAND | GAUSS | SPLINE_n | DSPLINE_n
    | Dia_i(d: Diadic) | Dia_r(d: Diadic) | Dia(d: Diadic)
    | BR_l | Branch_l(c: Cond)
    | BEGFOR_l | ENDFOR_l

  /** First letter of an opcode name. */
  datatype Operand = NoOperand | Immediate | StackRelative | PcRelative | Vector

  /** Second letter of an opcode name. */
  datatype Move = Push1 | Keep | Pop1 | PopAt | Terminal | Loop

  function OperandOf(op: Op): Operand {
    match op
    case PUSH_i | Dia_i(_) => Immediate
    case PUSH_r | POP_r | SET_r | Dia_r(_) => StackRelative
    case SPLINE_n | DSPLINE_n => Vector
    case BR_l | Branch_l(_) | BEGFOR_l | ENDFOR_l => PcRelative
    case _ => NoOperand
  }

  function MoveOf(op: Op): Move {
    match op
    case ERROR | BR_l => Terminal
    case POP | SET_r | Dia(_) | Branch_l(_) => Pop1
    case DUP | PUSH_i | PUSH_r | RAND | GAUSS => Push1
    case POP_r => PopAt
    case BEGFOR_l | ENDFOR_l => Loop
    case _ => Keep
  }

  datatype Arg = NilArg | Num(r: real) | Str(s: string) | Vec(data: seq<real>) | OtherArg

  datatype Elem = Label(name: string) | Instr(op: Op, args: seq<Arg>) | Malformed

  /** One line of the analyser's map: what is known before an element runs. */
  datatype Entry = Entry(pc: int, sp: int, sg: int, tag: Option<string>)

  datatype Cell = Code(op: Op, arg: int) | Constant(r: real)

  /** The final RETURN cannot be written by name: the search starts at opcode 1. */
  function FindOp(e: Elem): Result<Op> {
    match e
    case Instr(op, _) => if op == RETURN then Err(UnknownOpcode) else Ok(op)
    case _ => Err(IllegalInstruction)
  }

  predicate IsSpace(c: char) { c in " \t\n\r\U{0B}\U{0C}" }

  predicate IsDigit(c: char) { '0' <= c <= '9' }

  function Digits(s: string, acc: int): int {
    if s == "" || !IsDigit(s[0]) then acc
    else Digits(s[1..], 10 * acc + (s[0] as int - '0' as int))
  }

  function Atoi(s: string): int {
    if s == "" then 0
    else if IsSpace(s[0]) then Atoi(s[1..])
    else if s[0] == '-' then -Digits(s[1..], 0)
    else if s[0] == '+' then Digits(s[1..], 0)
    else Digits(s, 0)
  }

  predicate IsInteger(r: real) { r.Floor as real == r }

  predicate OneOperand(args: seq<Arg>) { |args| == 1 && !args[0].NilArg? }

  /** First entry i..imax that carries the label. */
  function LabelIndex(pm: seq<Entry>, imax: int, s: string, i: nat): Result<nat>
    requires imax < |pm|
    decreases imax + 1 - i
  {
    if i > imax then Err(LabelNotFound)
    else if pm[i].tag == Some(s) then Ok(i)
    else LabelIndex(pm, imax, s, i + 1)
  }

  /** Operand of a stack relative instruction, counted down from the top. */
  function RelativeArg(args: seq<Arg>, pm: seq<Entry>, imax: int, inum: nat, numArg: int): Result<int>
    requires imax < |pm| && inum < |pm|
  {
    if !OneOperand(args) then Err(OneOperandRequired)
    else match args[0]
      case Str(s) =>
        var n := if |s| >= 3 && s[..3] == "arg" then Atoi(s[3..]) else 0;
        if 0 < n <= numArg then Ok(pm[inum].sp - n)
        else
          var i :- LabelIndex(pm, imax, s, 0);
          assert i <= imax by { LabelIndexFound(pm, imax, s, 0); }
          Ok(pm[inum].sp - pm[i].sp)
      case Num(r) =>
        if !IsInteger(r) then Err(IntegerExpected)
        else if pm[inum].sg == 0 && !(0 <= r.Floor < pm[inum].sp) then Err(IllegalRelative)
        else Ok(r.Floor)
      case _ => Err(IllegalOperand)
  }

  /** Operand of a branch, counted from the cell after the instruction. */
  function BranchArg(args: seq<Arg>, pm: seq<Entry>, imax: int, inum: nat): Result<int>
    requires imax < |pm| && inum < |pm|
  {
    if !OneOperand(args) then Err(OneOperandRequired)
    else match args[0]
      case Str(s) =>
        var i :- LabelIndex(pm, imax, s, 0);
        assert i <= imax by { LabelIndexFound(pm, imax, s, 0); }
        Ok(pm[i].pc - pm[inum].pc - 1)
      case Num(r) => if !IsInteger(r) then Err(IntegerExpected) else Ok(r.Floor)
      case _ => Err(IllegalOperand)
  }

  function VectorArg(args: seq<Arg>): Result<seq<real>> {
    if |args| == 1 && args[0].Vec? then Ok(args[0].data) else Err(OneIndexExpected)
  }

  /** Cells an instruction takes in the byte code. */
  function CodeLength(op: Op, args: seq<Arg>): Result<nat> {
    match OperandOf(op)
    case Immediate => Ok(2)
    case Vector => var v :- VectorArg(args); Ok(1 + |v|)
    case _ => Ok(1)
  }

  lemma {:induction false} LabelIndexFound(pm: seq<Entry>, imax: int, s: string, i: nat)
    requires imax < |pm|
    ensures var r := LabelIndex(pm, imax, s, i);
            r.Ok? ==> i <= r.value <= imax && pm[r.value].tag == Some(s)
    decreases imax + 1 - i
  {
    if i <= imax && pm[i].tag != Some(s) {
      LabelIndexFound(pm, imax, s, i + 1);
    }
  }

  /** A label search reads labels only. */
  lemma {:induction false} LabelIndexSame(pm: seq<Entry>, qm: seq<Entry>, imax: int, s: string, i: nat)
    requires imax < |pm| && imax < |qm|
    requires forall k :: 0 <= k <= imax ==> pm[k].tag == qm[k].tag
    ensures LabelIndex(pm, imax, s, i) == LabelIndex(qm, imax, s, i)
    decreases imax + 1 - i
  {
    if i <= imax && pm[i].tag != Some(s) {
      LabelIndexSame(pm, qm, imax, s, i + 1);
    }
  }
}
