/**
 * The expression evaluator's symbol numbering and its tokens.  The
 * numbering is an enumeration whose order matters: the numeric kinds come
 * first (PURE_NOT_NUMERIC being zero, i.e. false), the operand kinds
 * alias them, and IS_OPERAND is a single comparison against the first
 * non-operand symbol.
 */
module Tokens {
  const PURE_NOT_NUMERIC: int := 0
  const PURE_INTEGER: int := 1
  const PURE_FLOAT: int := 2
  const SYM_STRING: int := PURE_NOT_NUMERIC
  const SYM_INTEGER: int := PURE_INTEGER
  const SYM_FLOAT: int := PURE_FLOAT
  const SYM_OPERAND: int := 3
  const SYM_OPERAND_END: int := 4
  const SYM_BEGIN: int := SYM_OPERAND_END
  const SYM_OPAREN: int := 5
  const SYM_CPAREN: int := 6
  const SYM_OR: int := 7
  const SYM_AND: int := 8
  const SYM_LOWNOT: int := 9
  const SYM_EQUAL: int := 10
  const SYM_EQUALCASE: int := 11
  const SYM_NOTEQUAL: int := 12
  const SYM_GT: int := 13
  const SYM_LT: int := 14
  const SYM_GTOE: int := 15
  const SYM_LTOE: int := 16
  const SYM_BITOR: int := 17
  const SYM_BITXOR: int := 18
  const SYM_BITAND: int := 19
  const SYM_BITSHIFTLEFT: int := 20
  const SYM_BITSHIFTRIGHT: int := 21
  const SYM_PLUS: int := 22
  const SYM_MINUS: int := 23
  const SYM_TIMES: int := 24
  const SYM_DIVIDE: int := 25
  const SYM_NEGATIVE: int := 26
  const SYM_HIGHNOT: int := 27
  const SYM_BITNOT: int := 28
  const SYM_POWER: int := 29
  const SYM_COUNT: int := 30

  /** A member of the enumeration, SYM_COUNT included. */
  type SymbolType = s: int | 0 <= s <= 30

  /** IS_OPERAND: the operand kinds are exactly the symbols before SYM_OPERAND_END. */
  predicate IsOperand(s: SymbolType)
    ensures IsOperand(s) <==> s == SYM_STRING || s == SYM_INTEGER || s == SYM_FLOAT || s == SYM_OPERAND
    ensures s == SYM_BEGIN ==> !IsOperand(s)
  {
    s < SYM_OPERAND_END
  }

  /** Every operator, parenthesis and marker lies after the operands. */
  lemma OperatorsAreNotOperands(s: SymbolType)
    requires SYM_BEGIN <= s
    ensures !IsOperand(s)
  {
  }

  /** The aliases the evaluator relies on. */
  lemma SymbolAliases()
    ensures PURE_NOT_NUMERIC == 0 && SYM_STRING == PURE_NOT_NUMERIC
    ensures SYM_INTEGER == PURE_INTEGER && SYM_FLOAT == PURE_FLOAT
    ensures SYM_BEGIN == SYM_OPERAND_END && SYM_COUNT == SYM_POWER + 1
  {
  }

  /** The active member of ExprTokenType's union; the double member is not modelled. */
  datatype TokenValue = Int64Value(valueInt64: int) | Marker(marker: seq<char>)

  /** ExprTokenType: a symbol and the value that goes with it. */
  datatype ExprToken = ExprToken(symbol: SymbolType, value: TokenValue)

  /**
   * The union member in use depends on the symbol: an integer operand holds a
   * 64-bit value, a string or a generic operand holds a marker, and an
   * operator may hold either, since its value is not read.  A float operand
   * would hold the double member, which is not modelled, so none is valid.
   */
  predicate ValidToken(t: ExprToken)
  {
    match t.value
    case Int64Value(v) => (t.symbol == SYM_INTEGER || !IsOperand(t.symbol)) && -0x8000_0000_0000_0000 <= v < 0x8000_0000_0000_0000
    case Marker(_) => t.symbol == SYM_STRING || t.symbol == SYM_OPERAND || !IsOperand(t.symbol)
  }

  /** In a valid operand token the member in use is determined by the symbol, and the symbol by the member. */
  lemma OperandTokenMember(t: ExprToken)
    requires ValidToken(t) && IsOperand(t.symbol)
    ensures t.symbol != SYM_FLOAT
    ensures t.value.Int64Value? <==> t.symbol == SYM_INTEGER
    ensures t.value.Marker? <==> t.symbol == SYM_STRING || t.symbol == SYM_OPERAND
  {
  }
}
