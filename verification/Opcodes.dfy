// The opcodes by name: which number each one has, and that the compiler, the
// encoder and the machine use those numbers.
module Opcodes {
  import Script
  import Wire
  import Link

  datatype Name =
    | LOADINT | LOADDOUBLE | LOADSTR | LOADNULL | LOADTRUE | LOADFALSE | MOVE
    | HASHACCESS | MAPACCESS | METHODBIND | HASHSTORE | ARRAYSTORE | ARRACCESS | NEWMAP | NEWARRAY | CALL
    | ADD | SUB | MUL | DIV | MOD | POW | NEG | NOT | BIN_INV
    | BIN_OR | BIN_AND | BIN_XOR | BIN_LSHIFT | BIN_RSHIFT
    | EQ | NEQ | GT | LT | GT_EQ | LT_EQ | NOTNULL
    | RETURN | JMP | JMPF | JMPT | LABEL | LOADFN | ITERINIT | ITERSTEP | MOVETO | MOVEFROM

  // Numbered from 1 in the order of the list.
  function Number(n: Name): (o: nat)
    ensures 1 <= o <= 47
  {
    match n
    case LOADINT => 1
    case LOADDOUBLE => 2
    case LOADSTR => 3
    case LOADNULL => 4
    case LOADTRUE => 5
    case LOADFALSE => 6
    case MOVE => 7
    case HASHACCESS => 8
    case MAPACCESS => 9
    case METHODBIND => 10
    case HASHSTORE => 11
    case ARRAYSTORE => 12
    case ARRACCESS => 13
    case NEWMAP => 14
    case NEWARRAY => 15
    case CALL => 16
    case ADD => 17
    case SUB => 18
    case MUL => 19
    case DIV => 20
    case MOD => 21
    case POW => 22
    case NEG => 23
    case NOT => 24
    case BIN_INV => 25
    case BIN_OR => 26
    case BIN_AND => 27
    case BIN_XOR => 28
    case BIN_LSHIFT => 29
    case BIN_RSHIFT => 30
    case EQ => 31
    case NEQ => 32
    case GT => 33
    case LT => 34
    case GT_EQ => 35
    case LT_EQ => 36
    case NOTNULL => 37
    case RETURN => 38
    case JMP => 39
    case JMPF => 40
    case JMPT => 41
    case LABEL => 42
    case LOADFN => 43
    case ITERINIT => 44
    case ITERSTEP => 45
    case MOVETO => 46
    case MOVEFROM => 47
  }

  predicate TwoOperands(n: Name) {
    || n in {ADD, SUB, MUL, DIV, MOD, POW, BIN_OR, BIN_AND, BIN_XOR, BIN_LSHIFT, BIN_RSHIFT}
    || n in {EQ, NEQ, GT, LT, GT_EQ, LT_EQ}
  }

  // The language's operators are the opcodes with these names, and the
  // machine's handlers are chosen by the same numbers.
  lemma OperatorsByName(n: Name)
    ensures Link.IsBinary(Number(n)) <==> TwoOperands(n)
    ensures Link.IsUnary(Number(n)) <==> n in {NEG, NOT, BIN_INV}
    ensures Number(n) == Script.NEG <==> n == NEG
  {
  }

  lemma LoadsByName(n: Name)
    ensures Number(n) == Wire.LOADINT <==> n == LOADINT
    ensures Number(n) == Link.LOADNULL <==> n == LOADNULL
    ensures Number(n) == Link.LOADTRUE <==> n == LOADTRUE
    ensures Number(n) == Link.LOADFALSE <==> n == LOADFALSE
  {
  }

  lemma JumpsByName(n: Name)
    ensures Number(n) == Link.MOVE <==> n == MOVE
    ensures Number(n) == Link.JMP <==> n == JMP
    ensures Number(n) == Link.JMPF <==> n == JMPF
    ensures Number(n) == Link.JMPT <==> n == JMPT
  {
  }
}
