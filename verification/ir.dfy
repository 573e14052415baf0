/**
 * The instruction vocabulary of the three-address IR: opcodes, operands,
 * instructions and the function record that carries them
 * (materials/src/ir/IRInstruction.java).
 *
 * Instructions are values. The mutable `marked` bit of the Java class is
 * kept outside the value, as a set of instruction ids (see module
 * DeadCodeElim), so that an instruction here is exactly its opcode, its
 * operands and its line number.
 */
module IR {

  datatype Option<T> = None | Some(value: T)

  /** The closed set of operation codes, in declaration order. */
  datatype OpCode =
    | ASSIGN
    | ADD | SUB | MULT | DIV | AND | OR
    | GOTO
    | BREQ | BRNEQ | BRLT | BRGT | BRGEQ
    | RETURN
    | CALL | CALLR
    | ARRAY_STORE | ARRAY_LOAD
    | LABEL

  /**
   * Operands: constants, and named variables, labels and functions.
   * Two operands with the same constructor and name are the same operand,
   * which is the name-based identity the optimizer relies on.
   */
  datatype Operand =
    | Const(literal: string)
    | Var(name: string)
    | Label(name: string)
    | Func(name: string)

  /** The printed form of an operand: its literal or its name. */
  function Text(o: Operand): string
  {
    match o
    case Const(lit) => lit
    case Var(n) => n
    case Label(n) => n
    case Func(n) => n
  }

  /** One instruction: opcode, ordered operands, source line number. */
  datatype Instr = Instr(opCode: OpCode, operands: seq<Operand>, irLineNumber: int)

  /** A function record: the shape the optimizer reads and writes back. */
  datatype IRFunction = IRFunction(
    name: string,
    returnType: string,
    parameters: seq<Operand>,
    variables: seq<Operand>,
    instructions: seq<Instr>)

  // ---------------------------------------------------------------------
  // Opcode names

  /** The enum constant's declared name. */
  function Name(op: OpCode): string
  {
    match op
    case ASSIGN => "ASSIGN"
    case ADD => "ADD"
    case SUB => "SUB"
    case MULT => "MULT"
    case DIV => "DIV"
    case AND => "AND"
    case OR => "OR"
    case GOTO => "GOTO"
    case BREQ => "BREQ"
    case BRNEQ => "BRNEQ"
    case BRLT => "BRLT"
    case BRGT => "BRGT"
    case BRGEQ => "BRGEQ"
    case RETURN => "RETURN"
    case CALL => "CALL"
    case CALLR => "CALLR"
    case ARRAY_STORE => "ARRAY_STORE"
    case ARRAY_LOAD => "ARRAY_LOAD"
    case LABEL => "LABEL"
  }

  predicate IsUpper(c: char) { 'A' <= c <= 'Z' }

  function LowerChar(c: char): char
  {
    if IsUpper(c) then (c as int + 32) as char else c
  }

  /** `String.toLowerCase` restricted to ASCII, which is all an opcode name holds. */
  function Lower(s: string): (r: string)
    ensures |r| == |s|
    ensures forall i :: 0 <= i < |s| ==> r[i] == LowerChar(s[i])
  {
    if s == [] then [] else [LowerChar(s[0])] + Lower(s[1..])
  }

  /** `OpCode.toString`: the lower-case form of the constant's name. */
  function ToString(op: OpCode): string
  {
    Lower(Name(op))
  }

  predicate NameChar(c: char) { IsUpper(c) || c == '_' }

  lemma NameChars(op: OpCode)
    ensures |Name(op)| > 0
    ensures forall i :: 0 <= i < |Name(op)| ==> NameChar(Name(op)[i])
  {
  }

  /** Lower-casing is one-to-one on strings of capitals and underscores. */
  lemma {:induction false} LowerInjective(s: string, t: string)
    requires forall i :: 0 <= i < |s| ==> NameChar(s[i])
    requires forall i :: 0 <= i < |t| ==> NameChar(t[i])
    requires Lower(s) == Lower(t)
    ensures s == t
  {
    assert |s| == |t|;
    forall i | 0 <= i < |s|
      ensures s[i] == t[i]
    {
      assert Lower(s)[i] == Lower(t)[i];
    }
  }

  /** The printed opcode holds no capital letter and is never empty. */
  lemma ToStringIsLowerCase(op: OpCode)
    ensures |ToString(op)| > 0
    ensures forall i :: 0 <= i < |ToString(op)| ==> !IsUpper(ToString(op)[i])
  {
    NameChars(op);
  }

  /** The opcode whose declared name is `s`, if any (the enum's `valueOf`). */
  function ValueOf(s: string): (r: Option<OpCode>)
  {
    if s == "ASSIGN" then Some(ASSIGN)
    else if s == "ADD" then Some(ADD)
    else if s == "SUB" then Some(SUB)
    else if s == "MULT" then Some(MULT)
    else if s == "DIV" then Some(DIV)
    else if s == "AND" then Some(AND)
    else if s == "OR" then Some(OR)
    else if s == "GOTO" then Some(GOTO)
    else if s == "BREQ" then Some(BREQ)
    else if s == "BRNEQ" then Some(BRNEQ)
    else if s == "BRLT" then Some(BRLT)
    else if s == "BRGT" then Some(BRGT)
    else if s == "BRGEQ" then Some(BRGEQ)
    else if s == "RETURN" then Some(RETURN)
    else if s == "CALL" then Some(CALL)
    else if s == "CALLR" then Some(CALLR)
    else if s == "ARRAY_STORE" then Some(ARRAY_STORE)
    else if s == "ARRAY_LOAD" then Some(ARRAY_LOAD)
    else if s == "LABEL" then Some(LABEL)
    else None
  }

  /** Every opcode is found again from its name. */
  lemma NameRoundTrip(op: OpCode)
    ensures ValueOf(Name(op)) == Some(op)
  {
  }

  /** Distinct opcodes print differently, so the printed form identifies the opcode. */
  lemma ToStringInjective(a: OpCode, b: OpCode)
    requires ToString(a) == ToString(b)
    ensures a == b
  {
    NameChars(a);
    NameChars(b);
    LowerInjective(Name(a), Name(b));
    NameRoundTrip(a);
    NameRoundTrip(b);
  }

  // ---------------------------------------------------------------------
  // Classification

  /** `checkIfDef`: the opcodes whose operand 0 receives a value. */
  predicate IsDefOp(op: OpCode)
  {
    op == ASSIGN || op == ADD || op == SUB || op == MULT || op == DIV || op == AND ||
    op == OR || op == CALLR || op == ARRAY_LOAD
  }

  /** `checkIfCriticalInstr`: control transfers, calls, stores and labels. */
  predicate IsCriticalOp(op: OpCode)
  {
    op == GOTO || op == BREQ || op == BRNEQ || op == BRLT || op == BRGT || op == BRGEQ ||
    op == RETURN || op == CALLR || op == CALL || op == ARRAY_STORE || op == LABEL
  }

  predicate IsDef(i: Instr) { IsDefOp(i.opCode) }

  predicate IsCritical(i: Instr) { IsCriticalOp(i.opCode) }

  /**
   * Every opcode is a definition or critical, and CALLR is the only one
   * that is both: the two predicates split the enum with a single overlap.
   */
  lemma DefCriticalCover(op: OpCode)
    ensures IsDefOp(op) || IsCriticalOp(op)
    ensures IsDefOp(op) && IsCriticalOp(op) <==> op == CALLR
    ensures IsDefOp(op) <==> op in {ASSIGN, ADD, SUB, MULT, DIV, AND, OR, CALLR, ARRAY_LOAD}
    ensures IsCriticalOp(op) <==>
      op in {GOTO, BREQ, BRNEQ, BRLT, BRGT, BRGEQ, RETURN, CALLR, CALL, ARRAY_STORE, LABEL}
  {
  }

  /** `getAssignedVariable`: operand 0 when it exists and is a variable, otherwise null. */
  function AssignedVariable(i: Instr): (r: Option<Operand>)
    ensures r.Some? <==> |i.operands| > 0 && i.operands[0].Var?
    ensures r.Some? ==> r.value == i.operands[0] && r.value.Var?
  {
    if |i.operands| > 0 && i.operands[0].Var? then Some(i.operands[0]) else None
  }
}
