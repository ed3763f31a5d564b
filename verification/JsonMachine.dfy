/** One turn of the parser's loop as a function, so that whole runs can be reasoned about. */
module JsonMachine {
  import opened JsonGrammar
  import opened JsonTable
  import opened JsValues

  /** `states` and `symbols` are the two kinds of entries of the parser's stack; `shifts` tokens have been read. */
  datatype Config =
    | Running(states: seq<nat>, symbols: seq<Symbol>, vstack: seq<Js>, yytext: string, shifts: nat, reductions: nat)
    | Returned(value: Js, shifts: nat, reductions: nat)
    | Threw(shifts: nat, reductions: nat)

  ghost predicate Shape(c: Config) {
    c.Running? ==> |c.states| == |c.symbols| + 1 == |c.vstack|
  }

  const START := Running([0], [], [JsNull], "", 0, 0)

  /** The token the parser looks at: past the end of the input the lexer keeps returning its end marker. */
  function Peek(tokens: seq<Token>, pos: nat): Symbol {
    if pos < |tokens| then tokens[pos].kind else END
  }

  /**
   * Object update `object[pair[0]] = pair[1]`; `None` stands for a value of the wrong shape, which JavaScript would not
   * accept either.
   */
  function SetMember(target: Js, pair: Js): Option<Js> {
    if target.JsObject? && pair.JsArray? && |pair.items| == 2 && pair.items[0].JsString?
    then Some(JsObject(target.members[pair.items[0].s := pair.items[1]]))
    else None
  }

  /** The semantic actions, on the value stack. */
  function PerformAction(cv: Conversions, p: Production, yytext: string, vs: seq<Js>): Option<Js>
    requires |vs| >= |Rhs(p)|
  {
    var n := |vs| - 1;
    match p
    case 1 => Some(JsString(cv.unescape(yytext)))
    case 2 => Some(JsNumber(cv.number(yytext)))
    case 3 => Some(JsNull)
    case 4 => Some(JsBool(true))
    case 5 => Some(JsBool(false))
    case 6 => Some(vs[n - 1])
    case 13 => Some(JsObject(map[]))
    case 14 => Some(vs[n - 1])
    case 15 => Some(JsArray([vs[n - 2], vs[n]]))
    case 16 => SetMember(JsObject(map[]), vs[n])
    case 17 => SetMember(vs[n - 2], vs[n])
    case 18 => Some(JsArray([]))
    case 19 => Some(vs[n - 1])
    case 20 => Some(JsArray([vs[n]]))
    case 21 => if vs[n - 2].JsArray? then Some(JsArray(vs[n - 2].items + [vs[n]])) else None
    case _ => Some(vs[n])
  }

  function Top(c: Config): nat
    requires c.Running? && Shape(c)
  {
    c.states[|c.states| - 1]
  }

  /** Pushing a symbol with its value and the state it leads to. */
  function Push(c: Config, s: Symbol, v: Js, state: nat): (d: Config)
    requires c.Running? && Shape(c)
    ensures Shape(d) && d.Running?
  {
    c.(states := c.states + [state], symbols := c.symbols + [s], vstack := c.vstack + [v])
  }

  function Pop(c: Config, n: nat): (d: Config)
    requires c.Running? && Shape(c) && n <= |c.symbols|
    ensures Shape(d) && d.Running?
  {
    c.(states := c.states[..|c.states| - n], symbols := c.symbols[..|c.symbols| - n],
       vstack := c.vstack[..|c.vstack| - n])
  }

  /** A reduction by any production but the start production. */
  function DoReduce(cv: Conversions, c: Config, p: Production): (d: Config)
    requires c.Running? && Shape(c) && p != 6
    ensures Shape(d)
  {
    var n := |Rhs(p)|;
    if n > |c.symbols| then Threw(c.shifts, c.reductions)
    else
      match PerformAction(cv, p, c.yytext, c.vstack)
      case None => Threw(c.shifts, c.reductions)
      case Some(value) =>
        var d := Pop(c, n);
        match Goto(Top(d), Lhs(p))
        case None => Threw(c.shifts, c.reductions)
        case Some(next) =>
          var e := Push(d, Lhs(p), value, next);
          Running(e.states, e.symbols, e.vstack, e.yytext, e.shifts, e.reductions + 1)
  }

  /** One turn of the loop. */
  function Step(cv: Conversions, tokens: seq<Token>, c: Config): (d: Config)
    requires Shape(c)
    ensures Shape(d)
  {
    if !c.Running? then c
    else
      match ActionOf(Top(c), Peek(tokens, c.shifts))
      case Error => Threw(c.shifts, c.reductions)
      case Accept => Returned(JsBool(true), c.shifts, c.reductions)
      case Shift(next) =>
        if c.shifts < |tokens| then
          var t := tokens[c.shifts];
          var e := Push(c, t.kind, JsString(t.text), next);
          Running(e.states, e.symbols, e.vstack, t.text, e.shifts + 1, e.reductions)
        else Threw(c.shifts, c.reductions)
      case Reduce(p) =>
        if p != 6 then DoReduce(cv, c, p)
        else if |c.symbols| < 2 then Threw(c.shifts, c.reductions)
        else Returned(c.vstack[|c.vstack| - 2], c.shifts, c.reductions + 1)
  }

  function Steps(cv: Conversions, tokens: seq<Token>, c: Config, k: nat): (d: Config)
    requires Shape(c)
    ensures Shape(d)
    decreases k
  {
    if k == 0 then c else Steps(cv, tokens, Step(cv, tokens, c), k - 1)
  }

  lemma {:induction false} StepsAdd(cv: Conversions, tokens: seq<Token>, c: Config, i: nat, j: nat)
    requires Shape(c)
    ensures Steps(cv, tokens, c, i + j) == Steps(cv, tokens, Steps(cv, tokens, c, i), j)
    decreases i
  {
    hide Step;
    if i > 0 {
      StepsAdd(cv, tokens, Step(cv, tokens, c), i - 1, j);
    }
  }

  lemma {:induction false} Stopped(cv: Conversions, tokens: seq<Token>, c: Config, k: nat)
    requires Shape(c) && !c.Running?
    ensures Steps(cv, tokens, c, k) == c
  {
    if k > 0 {
      Stopped(cv, tokens, c, k - 1);
    }
  }

  /** A run has one outcome. */
  lemma OneOutcome(cv: Conversions, tokens: seq<Token>, c: Config, i: nat, j: nat)
    requires Shape(c) && !Steps(cv, tokens, c, i).Running? && !Steps(cv, tokens, c, j).Running?
    ensures Steps(cv, tokens, c, i) == Steps(cv, tokens, c, j)
  {
    hide Steps;
    if i <= j {
      StepsAdd(cv, tokens, c, i, j - i);
      Stopped(cv, tokens, Steps(cv, tokens, c, i), j - i);
    } else {
      StepsAdd(cv, tokens, c, j, i - j);
      Stopped(cv, tokens, Steps(cv, tokens, c, j), i - j);
    }
  }
}
