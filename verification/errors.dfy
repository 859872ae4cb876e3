/** The error taxonomy of the calculator. Every variant names the exception
    class the Python program raises; positions are character offsets for lexer
    errors and token indices for parser errors. */
module Errors {

  datatype Error =
    // ParserException subclasses of timecalc.py
    | BadToken(charPos: nat)            // no terminal matches at this offset
    | BadSymbol                         // every rule of the entry nonterminal failed softly
    | NotEnoughTokens                   // a rule broke off at the end of the tokens
    | ParserSyntaxError(tokenPos: nat)  // a rule broke off at this token
    | ExtraTokens(tokenPos: nat)        // the parse ended before this token
    | InvalidDate(tokenPos: nat)        // an ISO 8601 literal names no valid instant
    | DuplicateUnit(tokenPos: nat)      // a unit repeated inside one duration literal
    | BadOperand(opPos: nat)            // operator applied to an undefined type pair
      // built-in Python exceptions that escape the program unhandled
    | ValueErr                          // datetime.date/time/replace rejected a field
    | Overflow                          // date arithmetic left years 1..9999
    | ZeroDivision                      // a division by zero
    | IndexErr                          // a list indexed past its end
    | MalformedToken                    // TypeError, IndexError or UnboundLocalError from a
                                        // value() whose token lacks a field its pattern always sets
      // exceptions of the durations.py draft
    | Combined                          // CombinedException
    | AttributeErr                      // AttributeError: CombinedException's constructor
                                        // reads a field of the None its base class stores
    | BadOperandDraft(op: char)         // BadOperandException
    | ExtraData(tokenPos: nat)          // ExtraDataException
    | AssertionErr                      // a failed `assert` in the draft parser
}
