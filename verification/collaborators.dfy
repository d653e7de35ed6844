/** The code the harness calls but does not contain: the validator under
    test (HypersonicSqlValidator) and the numeric re-check of the parser
    utilities (SqlParseUtil.parseTaintedValue). Both are parameters of the
    model: their behaviour is any function of the query. */
module Collaborators {

  /** What validateSqlQuery does with a query: return normally, throw the
      security exception (JTaintException), or throw anything else. */
  datatype Verdict = Accepted | Violation | Crash

  /** What parseTaintedValue does at an offset: return an offset, or throw
      JTaintException. */
  datatype ParseOutcome = Parsed(last: int) | Rejected

  /** The parser either returns a non-positive offset (the harness then
      moves on by one) or an offset at or after the one it was given. */
  predicate Advances(outcome: ParseOutcome, offset: int) {
    outcome.Parsed? ==> outcome.last <= 0 || outcome.last >= offset
  }

  type NumericParser = f: (seq<int>, seq<bool>, int) -> ParseOutcome
    | forall q, t, o :: Advances(f(q, t, o), o)
    witness (q: seq<int>, t: seq<bool>, o: int) => Rejected

  /** The validator `v`: its three character classes, its entry point, and
      the numeric parser that consults it. */
  datatype Validator = Validator(
    whitespace: set<int>,
    operators: set<int>,
    special: set<int>,
    validate: (seq<int>, seq<bool>) -> Verdict,
    parseTaintedValue: NumericParser)
  {
    /** isSqlWhitespace(u) || isSqlOperator(u) || isSqlSpecial(u) */
    predicate IsSeparator(u: int) {
      u in whitespace || u in operators || u in special
    }

    /** The guard of appendNumber and appendBoolean: the query is not empty
        and its last unit is none of the three classes. */
    predicate NeedsSeparator(query: seq<int>) {
      |query| != 0 && !IsSeparator(query[|query| - 1])
    }
  }
}
