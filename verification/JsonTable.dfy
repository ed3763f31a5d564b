/** The tables of the generated parser. */
module JsonTable {
  import opened JsonGrammar
  import opened JsValues

  datatype Entry = Error | Shift(state: nat) | Reduce(prod: Production) | Accept

  /** Entries shared by the states in which a value may start. */
  function ShiftValue(s: Symbol): Entry {
    match s
    case STRING => Shift(12)
    case NUMBER => Shift(13)
    case NULL => Shift(9)
    case TRUE => Shift(10)
    case FALSE => Shift(11)
    case LBRACE => Shift(14)
    case LBRACKET => Shift(15)
    case _ => Error
  }

  /** Entries shared by the states in which a value is complete. */
  function ReduceValue(p: Production, s: Symbol): Entry {
    if s.EOF? || s.RBRACE? || s.COMMA? || s.RBRACKET? then Reduce(p) else Error
  }

  /** The terminal columns of the table. */
  function Lookup(state: nat, s: Symbol): Entry {
    match state
    case 0 => ShiftValue(s)
    case 1 => if s.END? then Accept else Error
    case 2 => if s.EOF? then Shift(16) else Error
    case 3 => ReduceValue(7, s)
    case 4 => ReduceValue(8, s)
    case 5 => ReduceValue(9, s)
    case 6 => ReduceValue(10, s)
    case 7 => ReduceValue(11, s)
    case 8 => ReduceValue(12, s)
    case 9 => ReduceValue(3, s)
    case 10 => ReduceValue(4, s)
    case 11 => ReduceValue(5, s)
    case 12 => if s.COLON? then Reduce(1) else ReduceValue(1, s)
    case 13 => ReduceValue(2, s)
    case 14 => if s.STRING? then Shift(12) else if s.RBRACE? then Shift(17) else Error
    case 15 => if s.RBRACKET? then Shift(21) else ShiftValue(s)
    case 16 => if s.END? then Reduce(6) else Error
    case 17 => ReduceValue(13, s)
    case 18 => if s.RBRACE? then Shift(24) else if s.COMMA? then Shift(25) else Error
    case 19 => if s.RBRACE? || s.COMMA? then Reduce(16) else Error
    case 20 => if s.COLON? then Shift(26) else Error
    case 21 => ReduceValue(18, s)
    case 22 => if s.COMMA? then Shift(28) else if s.RBRACKET? then Shift(27) else Error
    case 23 => if s.COMMA? || s.RBRACKET? then Reduce(20) else Error
    case 24 => ReduceValue(14, s)
    case 25 => if s.STRING? then Shift(12) else Error
    case 26 => ShiftValue(s)
    case 27 => ReduceValue(19, s)
    case 28 => ShiftValue(s)
    case 29 => if s.RBRACE? || s.COMMA? then Reduce(17) else Error
    case 30 => if s.RBRACE? || s.COMMA? then Reduce(15) else Error
    case 31 => if s.COMMA? || s.RBRACKET? then Reduce(21) else Error
    case _ => Error
  }

  /** The nonterminal columns. */
  function Goto(state: nat, s: Symbol): Option<nat> {
    match state
    case 0 => if s.JSONText? then Some(1) else if s.JSONValue? then Some(2) else GotoValue(s)
    case 14 =>
      if s.JSONString? then Some(20)
      else if s.JSONMemberList? then Some(18)
      else if s.JSONMember? then Some(19)
      else None
    case 15 => if s.JSONValue? then Some(23) else if s.JSONElementList? then Some(22) else GotoValue(s)
    case 25 => if s.JSONString? then Some(20) else if s.JSONMember? then Some(29) else None
    case 26 => if s.JSONValue? then Some(30) else GotoValue(s)
    case 28 => if s.JSONValue? then Some(31) else GotoValue(s)
    case _ => None
  }

  function GotoValue(s: Symbol): Option<nat> {
    match s
    case JSONNullLiteral => Some(3)
    case JSONBooleanLiteral => Some(4)
    case JSONString => Some(5)
    case JSONNumber => Some(6)
    case JSONObject => Some(7)
    case JSONArray => Some(8)
    case _ => None
  }

  /** The action of a state: state 16 reduces without looking at the input. */
  function ActionOf(state: nat, s: Symbol): Entry {
    if state == 16 then Reduce(6) else Lookup(state, s)
  }

  // ----- the automaton -----

  /** The transition on any symbol: a shift or a goto. */
  function Trans(state: nat, s: Symbol): Option<nat> {
    if Terminal(s) then
      match Lookup(state, s)
      case Shift(next) => Some(next)
      case _ => None
    else Goto(state, s)
  }

  /** The state after the first `n` symbols of a right-hand side. */
  function Path(state: nat, p: Production, n: nat): Option<nat>
    requires n <= |Rhs(p)|
  {
    if n == 0 then Some(state)
    else
      match Path(state, p, n - 1)
      case None => None
      case Some(s) => Trans(s, Rhs(p)[n - 1])
  }

  /** The states in which a value may start. */
  predicate ValueState(state: nat) {
    state == 0 || state == 15 || state == 26 || state == 28
  }

  /** The states in which a derivation by `p` may start. */
  ghost predicate MayStart(state: nat, p: Production) {
    && ((p <= 5 && p != 1) || 7 <= p <= 14 || 18 <= p <= 19 ==> ValueState(state))
    && (p == 1 ==> ValueState(state) || state == 14 || state == 25)
    && (p == 6 ==> state == 0)
    && (p == 15 ==> state == 14 || state == 25)
    && (p == 16 || p == 17 ==> state == 14)
    && (p >= 20 ==> state == 15)
  }

  lemma GotoStates(state: nat, p: Production)
    requires Goto(state, Lhs(p)).Some?
    ensures MayStart(state, p)
  {
  }

  /**
   * What a state promises about the end of a production followed from `state`, when `next` is reached by its
   * nonterminal.
   */
  ghost predicate Ends(state: nat, p: Production, next: nat, end: nat) {
    && Path(state, p, |Rhs(p)|) == Some(end)
    && forall a :: ActionOf(next, a) != Error ==> ActionOf(end, a) == Reduce(p)
  }

  lemma EndsUnit(state: nat, p: Production, next: nat, end: nat)
    requires |Rhs(p)| == 1 && Trans(state, Rhs(p)[0]) == Some(end)
    requires forall a :: ActionOf(next, a) != Error ==> ActionOf(end, a) == Reduce(p)
    ensures Ends(state, p, next, end)
  {
    assert Path(state, p, 0) == Some(state);
  }

  lemma EndsPair(state: nat, p: Production, next: nat, s1: nat, end: nat)
    requires |Rhs(p)| == 2 && Trans(state, Rhs(p)[0]) == Some(s1) && Trans(s1, Rhs(p)[1]) == Some(end)
    requires forall a :: ActionOf(next, a) != Error ==> ActionOf(end, a) == Reduce(p)
    ensures Ends(state, p, next, end)
  {
    assert Path(state, p, 0) == Some(state);
    assert Path(state, p, 1) == Some(s1);
  }

  lemma EndsTriple(state: nat, p: Production, next: nat, s1: nat, s2: nat, end: nat)
    requires |Rhs(p)| == 3 && Trans(state, Rhs(p)[0]) == Some(s1) && Trans(s1, Rhs(p)[1]) == Some(s2)
             && Trans(s2, Rhs(p)[2]) == Some(end)
    requires forall a :: ActionOf(next, a) != Error ==> ActionOf(end, a) == Reduce(p)
    ensures Ends(state, p, next, end)
  {
    assert Path(state, p, 0) == Some(state);
    assert Path(state, p, 1) == Some(s1);
    assert Path(state, p, 2) == Some(s2);
  }

  lemma ClosureLiteral(state: nat, p: Production) returns (end: nat)
    requires Goto(state, Lhs(p)).Some? && 1 <= p <= 5
    ensures Ends(state, p, Goto(state, Lhs(p)).value, end)
  {
    hide Ends, Path;
    GotoStates(state, p);
    var next := Goto(state, Lhs(p)).value;
    match p {
      case 1 => end := 12; EndsUnit(state, p, next, end);
      case 2 => end := 13; EndsUnit(state, p, next, end);
      case 3 => end := 9; EndsUnit(state, p, next, end);
      case 4 => end := 10; EndsUnit(state, p, next, end);
      case 5 => end := 11; EndsUnit(state, p, next, end);
    }
  }

  lemma ClosureValue(state: nat, p: Production) returns (end: nat)
    requires Goto(state, Lhs(p)).Some? && 7 <= p <= 12
    ensures Ends(state, p, Goto(state, Lhs(p)).value, end)
  {
    hide Ends, Path;
    GotoStates(state, p);
    var next := Goto(state, Lhs(p)).value;
    match p {
      case 7 => end := 3; EndsUnit(state, p, next, end);
      case 8 => end := 4; EndsUnit(state, p, next, end);
      case 9 => end := 5; EndsUnit(state, p, next, end);
      case 10 => end := 6; EndsUnit(state, p, next, end);
      case 11 => end := 7; EndsUnit(state, p, next, end);
      case 12 => end := 8; EndsUnit(state, p, next, end);
    }
  }

  lemma ClosureObject(state: nat, p: Production) returns (end: nat)
    requires Goto(state, Lhs(p)).Some? && 13 <= p <= 14
    ensures Ends(state, p, Goto(state, Lhs(p)).value, end)
  {
    hide Ends, Path;
    GotoStates(state, p);
    var next := Goto(state, Lhs(p)).value;
    match p {
      case 13 => end := 17; EndsPair(state, p, next, 14, end);
      case 14 => end := 24; EndsTriple(state, p, next, 14, 18, end);
    }
  }

  lemma ClosureMember(state: nat, p: Production) returns (end: nat)
    requires Goto(state, Lhs(p)).Some? && 15 <= p <= 16
    ensures Ends(state, p, Goto(state, Lhs(p)).value, end)
  {
    hide Ends, Path;
    GotoStates(state, p);
    var next := Goto(state, Lhs(p)).value;
    match p {
      case 15 => end := 30; EndsTriple(state, p, next, 20, 26, end);
      case 16 => end := 19; EndsUnit(state, p, next, end);
    }
  }

  lemma ClosureMembers(state: nat, p: Production) returns (end: nat)
    requires Goto(state, Lhs(p)).Some? && 17 <= p <= 18
    ensures Ends(state, p, Goto(state, Lhs(p)).value, end)
  {
    hide Ends, Path;
    GotoStates(state, p);
    var next := Goto(state, Lhs(p)).value;
    match p {
      case 17 => end := 29; EndsTriple(state, p, next, 18, 25, end);
      case 18 => end := 21; EndsPair(state, p, next, 15, end);
    }
  }

  lemma ClosureArray(state: nat, p: Production) returns (end: nat)
    requires Goto(state, Lhs(p)).Some? && 19 <= p <= 20
    ensures Ends(state, p, Goto(state, Lhs(p)).value, end)
  {
    hide Ends, Path;
    GotoStates(state, p);
    var next := Goto(state, Lhs(p)).value;
    match p {
      case 19 => end := 27; EndsTriple(state, p, next, 15, 22, end);
      case 20 => end := 23; EndsUnit(state, p, next, end);
    }
  }

  lemma ClosureItems(state: nat, p: Production) returns (end: nat)
    requires Goto(state, Lhs(p)).Some? && 21 <= p <= 21
    ensures Ends(state, p, Goto(state, Lhs(p)).value, end)
  {
    hide Ends, Path;
    GotoStates(state, p);
    var next := Goto(state, Lhs(p)).value;
    match p {
      case 21 => end := 31; EndsTriple(state, p, next, 22, 28, end);
    }
  }

  /**
   * Closure: where a goto on a nonterminal exists, the automaton can follow each of its productions, and at the end it
   * reduces by that production on every token acceptable after the nonterminal.
   */
  lemma Closure(state: nat, p: Production) returns (end: nat)
    requires Goto(state, Lhs(p)).Some? && p != 6
    ensures Ends(state, p, Goto(state, Lhs(p)).value, end)
  {
    hide Ends, Goto, Lhs;
    if p <= 5 {
      end := ClosureLiteral(state, p);
    } else if p <= 12 {
      end := ClosureValue(state, p);
    } else if p <= 14 {
      end := ClosureObject(state, p);
    } else if p <= 16 {
      end := ClosureMember(state, p);
    } else if p <= 18 {
      end := ClosureMembers(state, p);
    } else if p <= 20 {
      end := ClosureArray(state, p);
    } else {
      end := ClosureItems(state, p);
    }
  }

  lemma PathStart(state: nat, p: Production)
    requires Goto(state, Lhs(p)).Some?
    ensures Trans(state, Rhs(p)[0]).Some?
  {
  }

  // ----- reading the automaton backwards -----

  /** The gotos on a left-hand side exist exactly in those states. */
  lemma GotoDefined(state: nat, p: Production)
    requires MayStart(state, p)
    ensures Goto(state, Lhs(p)).Some?
  {
  }

  /** The shifts of the table, by the state they lead to. */
  ghost predicate ShiftEdge(state: nat, x: Symbol, e: nat) {
    || (e == 12 && x == STRING && (ValueState(state) || state == 14 || state == 25))
    || (ValueState(state) && ((e == 9 && x == NULL) || (e == 10 && x == TRUE) || (e == 11 && x == FALSE)
                              || (e == 13 && x == NUMBER) || (e == 14 && x == LBRACE) || (e == 15 && x == LBRACKET)))
    || (e == 16 && state == 2 && x == EOF)
    || (e == 17 && state == 14 && x == RBRACE)
    || (e == 21 && state == 15 && x == RBRACKET)
    || (e == 24 && state == 18 && x == RBRACE)
    || (e == 25 && state == 18 && x == COMMA)
    || (e == 26 && state == 20 && x == COLON)
    || (e == 27 && state == 22 && x == RBRACKET)
    || (e == 28 && state == 22 && x == COMMA)
  }

  /** The gotos of the table, by the state they lead to. */
  ghost predicate GotoEdge(state: nat, x: Symbol, e: nat) {
    || (e == 1 && state == 0 && x == JSONText)
    || (e == 2 && state == 0 && x == JSONValue)
    || (ValueState(state) && ((e == 3 && x == JSONNullLiteral) || (e == 4 && x == JSONBooleanLiteral)
                              || (e == 5 && x == JSONString) || (e == 6 && x == JSONNumber)
                              || (e == 7 && x == JSONObject) || (e == 8 && x == JSONArray)))
    || (e == 18 && state == 14 && x == JSONMemberList)
    || (e == 19 && state == 14 && x == JSONMember)
    || (e == 20 && (state == 14 || state == 25) && x == JSONString)
    || (e == 22 && state == 15 && x == JSONElementList)
    || (e == 23 && state == 15 && x == JSONValue)
    || (e == 29 && state == 25 && x == JSONMember)
    || (e == 30 && state == 26 && x == JSONValue)
    || (e == 31 && state == 28 && x == JSONValue)
  }

  lemma ShiftEnters(state: nat, x: Symbol, e: nat)
    requires Lookup(state, x) == Shift(e)
    ensures Terminal(x)
    ensures ShiftEdge(state, x, e)
  {
  }

  lemma GotoEnters(state: nat, x: Symbol, e: nat)
    requires Goto(state, x) == Some(e)
    ensures !Terminal(x)
    ensures GotoEdge(state, x, e)
  {
  }

  /** The states at which productions are complete. */
  ghost predicate ReduceState(e: nat, p: Production) {
    || (3 <= e <= 8 && p == e + 4) || (9 <= e <= 11 && p == e - 6) || (e == 12 && p == 1) || (e == 13 && p == 2)
    || (e == 16 && p == 6) || (e == 17 && p == 13) || (e == 19 && p == 16) || (e == 21 && p == 18)
    || (e == 23 && p == 20) || (e == 24 && p == 14) || (e == 27 && p == 19) || (e == 29 && p == 17)
    || (e == 30 && p == 15) || (e == 31 && p == 21)
  }

  lemma ReducesByLow(e: nat, a: Symbol)
    requires e <= 12 && ActionOf(e, a).Reduce?
    ensures ReduceState(e, ActionOf(e, a).prod)
  {
  }

  lemma ReducesByHigh(e: nat, a: Symbol)
    requires e > 12 && ActionOf(e, a).Reduce?
    ensures ReduceState(e, ActionOf(e, a).prod)
  {
  }

  /** The one production each state reduces by, if it reduces at all. */
  lemma ReducesBy(e: nat, a: Symbol)
    requires ActionOf(e, a).Reduce?
    ensures ReduceState(e, ActionOf(e, a).prod)
  {
    hide ActionOf, ReduceState;
    if e <= 12 {
      ReducesByLow(e, a);
    } else {
      ReducesByHigh(e, a);
    }
  }

  lemma TransEdge(state: nat, x: Symbol, e: nat)
    requires Trans(state, x) == Some(e)
    ensures ShiftEdge(state, x, e) || GotoEdge(state, x, e)
  {
    hide Lookup, Goto;
    if Terminal(x) {
      ShiftEnters(state, x, e);
    } else {
      GotoEnters(state, x, e);
    }
  }
}
