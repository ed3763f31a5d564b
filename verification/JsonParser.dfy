/** The parser's loop over its stacks, and what it promises about every token sequence. */
module JsonParser {
  import opened JsonCompleteness
  import opened JsonGrammar
  import opened JsonMachine
  import opened JsonSoundness
  import opened JsonTable
  import opened JsValues

  /** `t` derives a document from the first tokens. */
  ghost predicate Derives(t: Tree, tokens: seq<Token>) {
    Document(t) && NextIs(tokens, 0, Yield(t))
  }

  ghost function DocumentValue(cv: Conversions, t: Tree): Js
    requires Document(t)
  {
    DocumentParts(t);
    ValueOf(cv, t.children[0])
  }

  /**
   * Parsing returns a value exactly when the input starts with a document, and then that document's value; it throws on
   * every other input. Every token read costs at most three reductions.
   */
  method Parse(cv: Conversions, tokens: seq<Token>) returns (r: Option<Js>, shiftCount: nat, reductionCount: nat)
    ensures r.Some? ==>
              exists t :: Derives(t, tokens) && r.value == DocumentValue(cv, t)
                          && shiftCount == |Yield(t)| && reductionCount == Nodes(t)
    ensures forall t :: Derives(t, tokens) ==> r == Some(DocumentValue(cv, t))
    ensures reductionCount <= 3 * shiftCount <= 3 * |tokens|
  {
    hide *;
    var states, symbols, vstack: seq<Js>, yytext := [0], [], [JsNull], "";
    var symbol: Option<Symbol> := None;
    shiftCount, reductionCount := 0, 0;
    ghost var c, k, trees := START, 0, [];
    Begin(cv, tokens);
    while true
      invariant c == Running(states, symbols, vstack, yytext, shiftCount, reductionCount)
      invariant Shape(c) && Inv(cv, tokens, c, trees) && c == Steps(cv, tokens, START, k)
      invariant Counted(c, trees)
      invariant symbol.Some? ==> symbol.value == Peek(tokens, shiftCount)
      decreases |tokens| - shiftCount, 3 * shiftCount - reductionCount
    {
      Bounds(cv, tokens, c, trees);
      var state := states[|states| - 1];
      var action;
      if state == 16 {
        action := Reduce(6);
      } else {
        if symbol.None? {
          symbol := Some(Peek(tokens, shiftCount));
        }
        action := Lookup(state, symbol.value);
      }
      ActionIs(c, tokens, state, action);
      StepsAdd(cv, tokens, START, k, 1);
      if action.Error? {
        ErrorTurn(cv, tokens, c, trees, k);
        return None, shiftCount, reductionCount;
      }
      match action {
        case Shift(next) =>
          ShiftTurn(cv, tokens, c, trees, k, next);
          trees := trees + [Leaf(tokens[shiftCount])];
          symbols := symbols + [symbol.value];
          vstack := vstack + [JsString(tokens[shiftCount].text)];
          states := states + [next];
          yytext := tokens[shiftCount].text;
          symbol := None;
          shiftCount := shiftCount + 1;
        case Reduce(p) =>
          var len := |Rhs(p)|;
          if p == 6 {
            ReturnTurn(cv, tokens, c, trees, k);
            r := PerformAction(cv, p, yytext, vstack);
            reductionCount := reductionCount + 1;
            return;
          }
          ReduceTurn(cv, tokens, c, trees, k, p);
          RunningReduce(cv, tokens, c, p);
          var value := PerformAction(cv, p, yytext, vstack).value;
          states := states[..|states| - len];
          symbols := symbols[..|symbols| - len];
          vstack := vstack[..|vstack| - len];
          symbols := symbols + [Lhs(p)];
          vstack := vstack + [value];
          states := states + [Goto(states[|states| - 1], Lhs(p)).value];
          reductionCount := reductionCount + 1;
          trees := trees[..|trees| - len] + [Reduced(trees, p)];
        case Accept =>
          NeverAccepts(cv, tokens, c, trees);
          assert false;
          return;
      }
      c, k := Step(cv, tokens, c), k + 1;
    }
  }

  /** The counters count what is on the stack. */
  ghost predicate Counted(c: Config, trees: seq<Tree>) {
    c.Running? && c.shifts == |YieldAll(trees)| && c.reductions == NodesAll(trees)
  }

  lemma Begin(cv: Conversions, tokens: seq<Token>)
    ensures START == Running([0], [], [JsNull], "", 0, 0) && Shape(START)
    ensures Inv(cv, tokens, START, []) && Counted(START, []) && Steps(cv, tokens, START, 0) == START
  {
    InvStart(cv, tokens);
  }

  lemma Bounds(cv: Conversions, tokens: seq<Token>, c: Config, trees: seq<Tree>)
    requires Inv(cv, tokens, c, trees) && Counted(c, trees) && Shape(c)
    ensures c.reductions <= 3 * c.shifts && c.shifts <= |tokens| && |c.states| > 0
    ensures |c.states| == |c.symbols| + 1 == |c.vstack|
  {
    hide Derivation, StackValue, Linked, Nodes, Yield;
    NodesAllBound(trees);
  }

  lemma ActionIs(c: Config, tokens: seq<Token>, state: nat, action: Entry)
    requires c.Running? && Shape(c) && state == c.states[|c.states| - 1]
    requires action == if state == 16 then Reduce(6) else Lookup(state, Peek(tokens, c.shifts))
    ensures ActionOf(Top(c), Peek(tokens, c.shifts)) == action
  {
    hide Lookup;
  }

  /** No document starts an input on which the machine stops without returning. */
  lemma ErrorTurn(cv: Conversions, tokens: seq<Token>, c: Config, trees: seq<Tree>, k: nat)
    requires Shape(c) && Inv(cv, tokens, c, trees) && c == Steps(cv, tokens, START, k)
    requires ActionOf(Top(c), Peek(tokens, c.shifts)).Error?
    ensures forall t :: !Derives(t, tokens)
  {
    hide Step, Steps, ActionOf, Linked, Justified, YieldAll, Document, NextIs, Yield, Derivation;
    StepsAdd(cv, tokens, START, k, 1);
    OneStep(cv, tokens, c);
    ErrorStep(cv, tokens, c);
    forall t
      ensures !Derives(t, tokens)
    {
      if Derives(t, tokens) {
        var k' := RunDocument(cv, tokens, t);
        OneOutcome(cv, tokens, START, k + 1, k');
      }
    }
  }

  lemma OneStep(cv: Conversions, tokens: seq<Token>, c: Config)
    requires Shape(c)
    ensures Steps(cv, tokens, c, 1) == Step(cv, tokens, c)
  {
    hide Step;
    assert Steps(cv, tokens, Step(cv, tokens, c), 0) == Step(cv, tokens, c);
  }

  lemma ErrorStep(cv: Conversions, tokens: seq<Token>, c: Config)
    requires c.Running? && Shape(c) && ActionOf(Top(c), Peek(tokens, c.shifts)).Error?
    ensures Step(cv, tokens, c).Threw?
  {
  }

  lemma ShiftTurn(cv: Conversions, tokens: seq<Token>, c: Config, trees: seq<Tree>, k: nat, next: nat)
    requires Shape(c) && Inv(cv, tokens, c, trees) && Counted(c, trees) && c == Steps(cv, tokens, START, k)
    requires ActionOf(Top(c), Peek(tokens, c.shifts)) == Shift(next)
    ensures c.shifts < |tokens|
    ensures var t := tokens[c.shifts];
            && Step(cv, tokens, c) == Running(c.states + [next], c.symbols + [Peek(tokens, c.shifts)],
                                              c.vstack + [JsString(t.text)], t.text, c.shifts + 1, c.reductions)
            && Inv(cv, tokens, Step(cv, tokens, c), trees + [Leaf(t)])
              && Counted(Step(cv, tokens, c), trees + [Leaf(t)])
    ensures Steps(cv, tokens, START, k + 1) == Step(cv, tokens, c)
  {
    hide ActionOf, Linked, Justified, StackValue, Steps;
    ShiftKeeps(cv, tokens, c, trees);
    StepsAdd(cv, tokens, START, k, 1);
    OneStep(cv, tokens, c);
    assert (trees + [Leaf(tokens[c.shifts])])[..|trees|] == trees;
  }

  lemma ReduceTurn(cv: Conversions, tokens: seq<Token>, c: Config, trees: seq<Tree>, k: nat, p: Production)
    requires Shape(c) && Inv(cv, tokens, c, trees) && Counted(c, trees) && c == Steps(cv, tokens, START, k)
    requires p != 6 && ActionOf(Top(c), Peek(tokens, c.shifts)) == Reduce(p)
    ensures Step(cv, tokens, c).Running?
    ensures var n := |Rhs(p)|;
            && n <= |trees| == |c.symbols|
            && Inv(cv, tokens, Step(cv, tokens, c), trees[..|trees| - n] + [Reduced(trees, p)])
            && Counted(Step(cv, tokens, c), trees[..|trees| - n] + [Reduced(trees, p)])
    ensures c.reductions + 1 <= 3 * c.shifts
    ensures Steps(cv, tokens, START, k + 1) == Step(cv, tokens, c)
  {
    hide ActionOf, Linked, Justified, StackValue, Steps, PerformAction, Rhs, Lhs, Goto, YieldAll, NodesAll;
    ReduceKeeps(cv, tokens, c, trees, p);
    StepsAdd(cv, tokens, START, k, 1);
    OneStep(cv, tokens, c);
    NodesReduced(trees, |trees| - |Rhs(p)|, p);
    YieldReduced(trees, |trees| - |Rhs(p)|, p);
    var d := Step(cv, tokens, c);
    Bounds(cv, tokens, d, trees[..|trees| - |Rhs(p)|] + [Reduced(trees, p)]);
    InvSizes(cv, tokens, c, trees);
  }

  lemma InvSizes(cv: Conversions, tokens: seq<Token>, c: Config, trees: seq<Tree>)
    requires Inv(cv, tokens, c, trees)
    ensures |trees| == |c.symbols|
  {
  }

  lemma RunningReduce(cv: Conversions, tokens: seq<Token>, c: Config, p: Production)
    requires c.Running? && Shape(c) && p != 6 && ActionOf(Top(c), Peek(tokens, c.shifts)) == Reduce(p)
    requires Step(cv, tokens, c).Running?
    ensures var n := |Rhs(p)|;
            && n <= |c.symbols|
            && PerformAction(cv, p, c.yytext, c.vstack).Some?
            && Goto(c.states[|c.states| - n - 1], Lhs(p)).Some?
            && Step(cv, tokens, c) == Running(
              c.states[..|c.states| - n] + [Goto(c.states[|c.states| - n - 1], Lhs(p)).value],
              c.symbols[..|c.symbols| - n] + [Lhs(p)],
              c.vstack[..|c.vstack| - n] + [PerformAction(cv, p, c.yytext, c.vstack).value],
              c.yytext, c.shifts, c.reductions + 1)
  {
    hide ActionOf, PerformAction, Rhs, Lhs, Goto;
  }

  lemma ReturnTurn(cv: Conversions, tokens: seq<Token>, c: Config, trees: seq<Tree>, k: nat)
    requires Shape(c) && Inv(cv, tokens, c, trees) && Counted(c, trees) && c == Steps(cv, tokens, START, k)
    requires ActionOf(Top(c), Peek(tokens, c.shifts)) == Reduce(6)
    ensures |c.vstack| >= |Rhs(6)| && PerformAction(cv, 6, c.yytext, c.vstack).Some?
    ensures exists t ::
              Derives(t, tokens) && PerformAction(cv, 6, c.yytext, c.vstack).value == DocumentValue(cv, t)
              && c.shifts == |Yield(t)| && c.reductions + 1 == Nodes(t)
    ensures forall t :: Derives(t, tokens) ==> PerformAction(cv, 6, c.yytext, c.vstack) == Some(DocumentValue(cv, t))
    ensures c.reductions + 1 <= 3 * c.shifts
  {
    hide ActionOf, Linked, Justified, Steps, Step, Document, PerformAction, Rhs, NextIs, Yield, Nodes, YieldAll,
         NodesAll, DocumentValue;
    ReturnDocument(cv, tokens, c, trees);
    ReturnValueIs(cv, tokens, c, trees);
    var t := Reduced(trees, 6);
    assert Derives(t, tokens);
    assert PerformAction(cv, 6, c.yytext, c.vstack).value == DocumentValue(cv, t);
    forall t' | Derives(t', tokens)
      ensures PerformAction(cv, 6, c.yytext, c.vstack) == Some(DocumentValue(cv, t'))
    {
      ReturnOnly(cv, tokens, c, k, t');
    }
  }

  lemma ReturnDocument(cv: Conversions, tokens: seq<Token>, c: Config, trees: seq<Tree>)
    requires Shape(c) && Inv(cv, tokens, c, trees) && Counted(c, trees)
    requires ActionOf(Top(c), Peek(tokens, c.shifts)) == Reduce(6)
    ensures |trees| == 2 && |trees| >= |Rhs(6)| && Document(Reduced(trees, 6)) && Derives(Reduced(trees, 6), tokens)
    ensures c.shifts == |Yield(Reduced(trees, 6))| && c.reductions + 1 == Nodes(Reduced(trees, 6)) <= 3 * c.shifts
  {
    ReturnSound(cv, tokens, c, trees);
    var t := Reduced(trees, 6);
    hide ActionOf, Linked, Justified, StackValue, Step, Lhs, Goto, Derivation, Yield, Nodes, NodesAll, YieldAll;
    NodesReduced(trees, 0, 6);
    NodesOne(trees);
    DocumentBound(t);
    assert tokens[0..0 + |Yield(t)|] == tokens[..c.shifts];
  }

  lemma ReturnValueIs(cv: Conversions, tokens: seq<Token>, c: Config, trees: seq<Tree>)
    requires Shape(c) && Inv(cv, tokens, c, trees)
    requires ActionOf(Top(c), Peek(tokens, c.shifts)) == Reduce(6)
    ensures |trees| == 2 && |trees| >= |Rhs(6)| && Document(Reduced(trees, 6))
    ensures Step(cv, tokens, c).Returned? && |c.vstack| >= |Rhs(6)|
    ensures PerformAction(cv, 6, c.yytext, c.vstack) == Some(DocumentValue(cv, Reduced(trees, 6)))
    ensures Step(cv, tokens, c).value == DocumentValue(cv, Reduced(trees, 6))
  {
    ReturnSound(cv, tokens, c, trees);
    hide ActionOf, Linked, Justified, StackValue, Step, Lhs, Goto, Derivation, ValueOf, Yield;
    ReturnValue(cv, tokens, c);
  }

  lemma ReturnOnly(cv: Conversions, tokens: seq<Token>, c: Config, k: nat, t: Tree)
    requires Shape(c) && c.Running? && c == Steps(cv, tokens, START, k) && Derives(t, tokens)
    requires ActionOf(Top(c), Peek(tokens, c.shifts)) == Reduce(6) && Step(cv, tokens, c).Returned?
    ensures |c.vstack| >= |Rhs(6)| && PerformAction(cv, 6, c.yytext, c.vstack) == Some(DocumentValue(cv, t))
  {
    hide ActionOf, Steps, Step, Derivation, ValueOf, Yield, NextIs, Nodes;
    StepsAdd(cv, tokens, START, k, 1);
    OneStep(cv, tokens, c);
    ReturnValue(cv, tokens, c);
    var k' := RunDocument(cv, tokens, t);
    OneOutcome(cv, tokens, START, k + 1, k');
  }

  lemma NodesOne(trees: seq<Tree>)
    requires |trees| == 2
    ensures NodesAll(trees[..0] + [Node(6, trees[0..])]) == Nodes(Reduced(trees, 6))
  {
    hide Nodes;
    var t := Node(6, trees[0..]);
    assert trees[..0] + [t] == [t] && [t][..0] == [];
    assert NodesAll([]) == 0;
    assert Rhs(6) == [JSONValue, EOF];
  }

  lemma DocumentBound(t: Tree)
    requires Document(t)
    ensures Nodes(t) <= 3 * |Yield(t)|
  {
    hide Nodes, Yield;
    NodesBound(t);
  }

  lemma ReturnValue(cv: Conversions, tokens: seq<Token>, c: Config)
    requires c.Running? && Shape(c) && ActionOf(Top(c), Peek(tokens, c.shifts)) == Reduce(6)
             && Step(cv, tokens, c).Returned?
    ensures |c.vstack| >= |Rhs(6)|
    ensures Step(cv, tokens, c) == Returned(c.vstack[|c.vstack| - 2], c.shifts, c.reductions + 1)
    ensures PerformAction(cv, 6, c.yytext, c.vstack) == Some(c.vstack[|c.vstack| - 2])
  {
    hide ActionOf;
  }
}
