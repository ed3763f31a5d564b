/** Completeness: on the tokens of any derivation the parser never reaches its error branch and builds its value. */
module JsonCompleteness {
  import opened JsonGrammar
  import opened JsonMachine
  import opened JsonSoundness
  import opened JsonTable
  import opened JsValues

  ghost predicate Acceptable(state: nat, a: Symbol) {
    ActionOf(state, a) != Error
  }

  /** The tokens of `t` are next in the input. */
  ghost predicate NextIs(tokens: seq<Token>, pos: nat, y: seq<Token>) {
    pos + |y| <= |tokens| && tokens[pos..pos + |y|] == y
  }

  lemma {:induction false} YieldNotEmpty(t: Tree)
    requires Derivation(t)
    ensures |Yield(t)| > 0
    decreases t
  {
    if t.Node? {
      RhsLengths(t.prod);
      YieldNotEmpty(t.children[0]);
      YieldPrefix(t, 1, |t.children|);
      assert YieldUpTo(t, 1) == YieldUpTo(t, 0) + Yield(t.children[0]);
    }
  }

  lemma {:induction false} YieldPrefix(t: Tree, i: nat, n: nat)
    requires t.Node? && i <= n <= |t.children|
    ensures YieldUpTo(t, i) <= YieldUpTo(t, n)
  {
    if i < n {
      YieldPrefix(t, i, n - 1);
    }
  }

  lemma FirstToken(t: Tree)
    requires t.Node? && Derivation(t)
    ensures |Yield(t)| > 0 && |t.children| > 0 && |Yield(t.children[0])| > 0
    ensures Yield(t)[0] == Yield(t.children[0])[0]
  {
    RhsLengths(t.prod);
    YieldNotEmpty(t);
    YieldNotEmpty(t.children[0]);
    YieldPrefix(t, 1, |t.children|);
    assert YieldUpTo(t, 1) == YieldUpTo(t, 0) + Yield(t.children[0]);
  }

  /** Where the automaton can move over a symbol, the first token of anything derived from it is acceptable. */
  lemma {:induction false} FirstAcceptable(state: nat, t: Tree)
    requires Derivation(t) && Trans(state, Root(t)).Some?
    ensures |Yield(t)| > 0 && Acceptable(state, Yield(t)[0].kind)
    decreases t
  {
    if t.Leaf? {
      TransAccepts(state, Root(t));
    } else {
      hide Trans, Goto, ActionOf, Rhs, Lhs;
      FirstToken(t);
      RhsLengths(t.prod);
      GotoIsTrans(state, t.prod);
      PathStart(state, t.prod);
      FirstAcceptable(state, t.children[0]);
    }
  }

  lemma TransAccepts(state: nat, x: Symbol)
    requires Terminal(x) && Trans(state, x).Some?
    ensures Acceptable(state, x) && Lookup(state, x) == Shift(Trans(state, x).value)
    ensures ActionOf(state, x) == Shift(Trans(state, x).value)
  {
  }

  /** The configuration after reading all of `t` and pushing its root. */
  ghost function After(cv: Conversions, c: Config, t: Tree, next: nat, reductions: nat): (d: Config)
    requires c.Running? && Shape(c) && Derivation(t)
    ensures Shape(d)
  {
    Running(c.states + [next], c.symbols + [Root(t)], c.vstack + [StackValue(cv, t)], LastText(t),
            c.shifts + |Yield(t)|, reductions)
  }

  ghost function LastText(t: Tree): string
    requires Derivation(t)
  {
    YieldNotEmpty(t);
    Yield(t)[|Yield(t)| - 1].text
  }

  // ----- running over a tree -----

  lemma {:induction false} PathPrefix(state: nat, p: Production, i: nat, n: nat)
    requires i <= n <= |Rhs(p)| && Path(state, p, n).Some?
    ensures Path(state, p, i).Some?
  {
    hide Trans, Rhs;
    if i < n {
      PathPrefix(state, p, i, n - 1);
    }
  }

  /** The stack values of the first `i` children. */
  ghost function Values(cv: Conversions, t: Tree, i: nat): (vs: seq<Js>)
    requires t.Node? && Derivation(t) && i <= |t.children|
    ensures |vs| == i && forall j :: 0 <= j < i ==> vs[j] == StackValue(cv, t.children[j])
  {
    seq(i, j requires 0 <= j < i => StackValue(cv, t.children[j]))
  }

  /** The configuration reached from `c` when the first `i` children of `t` have been read and pushed. */
  ghost predicate Mid(cv: Conversions, c: Config, t: Tree, i: nat, d: Config)
    requires c.Running? && Shape(c) && t.Node? && Derivation(t) && i <= |t.children|
  {
    && d.Running? && Shape(d)
    && d.symbols == c.symbols + Rhs(t.prod)[..i]
    && d.vstack == c.vstack + Values(cv, t, i)
    && d.states[..|c.states|] == c.states
    && Path(Top(c), t.prod, i) == Some(Top(d))
    && d.shifts == c.shifts + |YieldUpTo(t, i)|
    && d.reductions == c.reductions + NodesUpTo(t, i)
    && (i > 0 ==> d.yytext == LastText(t.children[i - 1]))
  }

  lemma MidStart(cv: Conversions, c: Config, t: Tree)
    requires c.Running? && Shape(c) && t.Node? && Derivation(t)
    ensures Mid(cv, c, t, 0, c)
  {
  }

  lemma PathNext(state: nat, p: Production, i: nat, s: nat)
    requires i < |Rhs(p)| && Path(state, p, i) == Some(s)
    ensures Path(state, p, i + 1) == Trans(s, Rhs(p)[i])
  {
  }

  lemma ChildSums(t: Tree, i: nat)
    requires t.Node? && i < |t.children|
    ensures YieldUpTo(t, i + 1) == YieldUpTo(t, i) + Yield(t.children[i])
    ensures NodesUpTo(t, i + 1) == NodesUpTo(t, i) + Nodes(t.children[i])
  {
  }

  lemma MidNext(cv: Conversions, c: Config, t: Tree, i: nat, d: Config, next: nat)
    requires c.Running? && Shape(c) && t.Node? && Derivation(t) && i < |t.children| && Mid(cv, c, t, i, d)
    requires Trans(Top(d), Root(t.children[i])) == Some(next)
    ensures Mid(cv, c, t, i + 1, After(cv, d, t.children[i], next, d.reductions + Nodes(t.children[i])))
  {
    hide Trans, StackValue, LastText, Path, Rhs, Derivation, YieldUpTo, NodesUpTo, Nodes, Yield, Lhs, Values;
    ChildrenLength(t);
    ChildSums(t, i);
    PathNext(Top(c), t.prod, i, Top(d));
    var child := t.children[i];
    MoreParts(cv, t, i);
    Append(c.symbols, Rhs(t.prod)[..i], Root(child));
    Append(c.vstack, Values(cv, t, i), StackValue(cv, child));
    KeptBelow(c.states, d.states, next);
  }

  lemma Append<T>(a: seq<T>, b: seq<T>, x: T)
    ensures a + b + [x] == a + (b + [x])
  {
  }

  lemma KeptBelow(base: seq<nat>, states: seq<nat>, next: nat)
    requires |base| <= |states| && states[..|base|] == base
    ensures (states + [next])[..|base|] == base && (states + [next])[|states|] == next
  {
  }

  lemma MoreParts(cv: Conversions, t: Tree, i: nat)
    requires t.Node? && Derivation(t) && i < |t.children|
    ensures i < |Rhs(t.prod)| && Rhs(t.prod)[..i + 1] == Rhs(t.prod)[..i] + [Root(t.children[i])]
    ensures Values(cv, t, i + 1) == Values(cv, t, i) + [StackValue(cv, t.children[i])]
  {
    hide StackValue, Rhs, Lhs, Derivation;
    ChildrenLength(t);
  }

  lemma NextPart(tokens: seq<Token>, pos: nat, y: seq<Token>, u: seq<Token>, w: seq<Token>)
    requires NextIs(tokens, pos, y) && u + w <= y
    ensures NextIs(tokens, pos + |u|, w)
  {
    forall j | 0 <= j < |w|
      ensures tokens[pos + |u| + j] == w[j]
    {
      assert w[j] == (u + w)[|u| + j] == y[|u| + j];
      assert tokens[pos..pos + |y|][|u| + j] == tokens[pos + |u| + j];
    }
  }

  lemma NodesIsAll(t: Tree)
    requires t.Node?
    ensures Nodes(t) == 1 + NodesUpTo(t, |t.children|)
  {
  }

  lemma YieldIsAll(t: Tree)
    requires t.Node?
    ensures Yield(t) == YieldUpTo(t, |t.children|)
  {
  }

  /** The tokens of the children follow each other. */
  lemma NextChild(tokens: seq<Token>, pos: nat, t: Tree, i: nat)
    requires t.Node? && Derivation(t) && i < |t.children| && NextIs(tokens, pos, Yield(t))
    ensures NextIs(tokens, pos + |YieldUpTo(t, i)|, Yield(t.children[i]))
    ensures |YieldUpTo(t, i + 1)| == |YieldUpTo(t, i)| + |Yield(t.children[i])|
  {
    hide Yield, YieldUpTo, NextIs, Derivation;
    YieldIsAll(t);
    ChildSums(t, i);
    YieldPrefix(t, i + 1, |t.children|);
    NextPart(tokens, pos, Yield(t), YieldUpTo(t, i), Yield(t.children[i]));
  }

  /** The token after child `i` is acceptable where the automaton is then. */
  lemma NextAcceptable(tokens: seq<Token>, pos: nat, state: nat, t: Tree, i: nat, end: nat)
    requires t.Node? && Derivation(t) && i < |t.children| && NextIs(tokens, pos, Yield(t)) && t.prod != 6
    requires Goto(state, Lhs(t.prod)).Some? && Ends(state, t.prod, Goto(state, Lhs(t.prod)).value, end)
    requires Acceptable(Goto(state, Lhs(t.prod)).value, Peek(tokens, pos + |Yield(t)|))
    requires Path(state, t.prod, i + 1).Some?
    ensures Acceptable(Path(state, t.prod, i + 1).value, Peek(tokens, pos + |YieldUpTo(t, i + 1)|))
  {
    hide Trans, Goto, ActionOf, Lhs, Rhs, Derivation, Path, Yield, YieldUpTo, NextIs, Peek;
    ChildrenLength(t);
    if i + 1 < |t.children| {
      NextSibling(tokens, pos, state, t, i + 1);
    } else {
      YieldIsAll(t);
    }
  }

  lemma NextSibling(tokens: seq<Token>, pos: nat, state: nat, t: Tree, i: nat)
    requires t.Node? && Derivation(t) && i < |t.children| && NextIs(tokens, pos, Yield(t))
    requires Path(state, t.prod, i).Some? && Path(state, t.prod, |Rhs(t.prod)|).Some?
    ensures Acceptable(Path(state, t.prod, i).value, Peek(tokens, pos + |YieldUpTo(t, i)|))
  {
    hide Trans, Goto, ActionOf, Lhs, Rhs, Derivation, Path, Yield, YieldUpTo, Acceptable;
    ChildrenLength(t);
    var s := Path(state, t.prod, i).value;
    var child := t.children[i];
    PathPrefix(state, t.prod, i + 1, |Rhs(t.prod)|);
    PathNext(state, t.prod, i, s);
    FirstAcceptable(s, child);
    NextChild(tokens, pos, t, i);
    var q := pos + |YieldUpTo(t, i)|;
    assert tokens[q] == tokens[q..q + |Yield(child)|][0];
  }

  /**
   * In a state that can move over the root of `t`, with the tokens of `t` next and an acceptable token after them, the
   * parser reads `t` and pushes its root.
   */
  lemma {:induction false} RunTree(cv: Conversions, tokens: seq<Token>, c: Config, t: Tree) returns (k: nat)
    requires c.Running? && Shape(c) && Derivation(t) && Root(t) != JSONText
    requires Trans(Top(c), Root(t)).Some?
    requires NextIs(tokens, c.shifts, Yield(t))
    requires Acceptable(Trans(Top(c), Root(t)).value, Peek(tokens, c.shifts + |Yield(t)|))
    ensures Steps(cv, tokens, c, k) == After(cv, c, t, Trans(Top(c), Root(t)).value, c.reductions + Nodes(t))
    decreases t, 2
  {
    if t.Leaf? {
      k := 1;
      LeafStep(cv, tokens, c, t);
    } else {
      hide Goto, ActionOf, Rhs, Lhs, Step, Steps, StackValue, Acceptable, NextIs, Derivation, After;
      TextOnly(t.prod);
      GotoIsTrans(Top(c), t.prod);
      k := RunNode(cv, tokens, c, t);
    }
  }

  lemma {:induction false} RunNode(cv: Conversions, tokens: seq<Token>, c: Config, t: Tree) returns (k: nat)
    requires c.Running? && Shape(c) && t.Node? && Derivation(t) && t.prod != 6
    requires Goto(Top(c), Lhs(t.prod)).Some?
    requires NextIs(tokens, c.shifts, Yield(t))
    requires Acceptable(Goto(Top(c), Lhs(t.prod)).value, Peek(tokens, c.shifts + |Yield(t)|))
    ensures Steps(cv, tokens, c, k) == After(cv, c, t, Goto(Top(c), Lhs(t.prod)).value, c.reductions + Nodes(t))
    decreases t, 1
  {
    hide Trans, Goto, ActionOf, Rhs, Lhs, Step, Steps, StackValue, Acceptable, NextIs, Ends, Mid, After, Yield, Nodes;
    var end := Closure(Top(c), t.prod);
    var d;
    ChildrenLength(t);
    k, d := RunChildren(cv, tokens, c, t, |t.children|, end);
    FinishNode(cv, tokens, c, t, d, end);
    StepsAdd(cv, tokens, c, k, 1);
    k := k + 1;
  }

  lemma TextOnly(p: Production)
    ensures p == 6 <==> Lhs(p) == JSONText
  {
  }

  lemma {:induction false} RunChildren(cv: Conversions, tokens: seq<Token>, c: Config, t: Tree, i: nat,
                                       end: nat) returns (k: nat, d: Config)
    requires c.Running? && Shape(c) && t.Node? && Derivation(t) && t.prod != 6 && i <= |t.children|
    requires Goto(Top(c), Lhs(t.prod)).Some? && Ends(Top(c), t.prod, Goto(Top(c), Lhs(t.prod)).value, end)
    requires NextIs(tokens, c.shifts, Yield(t))
    requires Acceptable(Goto(Top(c), Lhs(t.prod)).value, Peek(tokens, c.shifts + |Yield(t)|))
    ensures Steps(cv, tokens, c, k) == d && Mid(cv, c, t, i, d)
    decreases t, 0, i
  {
    hide Trans, Goto, ActionOf, Rhs, Lhs, Step, StackValue, Acceptable, NextIs, After, Yield, Mid, Path, NodesUpTo;
    if i == 0 {
      k, d := 0, c;
      MidStart(cv, c, t);
    } else {
      k, d := RunChildren(cv, tokens, c, t, i - 1, end);
      var child := t.children[i - 1];
      MidFacts(cv, c, t, i - 1, d, end);
      NextChild(tokens, c.shifts, t, i - 1);
      NextAcceptable(tokens, c.shifts, Top(c), t, i - 1, end);
      ChildNotText(t, i - 1);
      var m := RunTree(cv, tokens, d, child);
      var next := Trans(Top(d), Root(child)).value;
      MidNext(cv, c, t, i - 1, d, next);
      StepsAdd(cv, tokens, c, k, m);
      k, d := k + m, After(cv, d, child, next, d.reductions + Nodes(child));
    }
  }

  /** Where the automaton is before child `i`, and that it can move over it. */
  lemma MidFacts(cv: Conversions, c: Config, t: Tree, i: nat, d: Config, end: nat)
    requires c.Running? && Shape(c) && t.Node? && Derivation(t) && i < |t.children| && Mid(cv, c, t, i, d)
    requires Path(Top(c), t.prod, |Rhs(t.prod)|).Some?
    ensures d.Running? && Shape(d) && d.shifts == c.shifts + |YieldUpTo(t, i)| && Derivation(t.children[i])
    ensures i < |Rhs(t.prod)| && Path(Top(c), t.prod, i + 1).Some?
    ensures Trans(Top(d), Root(t.children[i])) == Path(Top(c), t.prod, i + 1)
  {
    hide Trans, Rhs, Lhs, StackValue, Derivation, Path, Values, YieldUpTo, NodesUpTo, Yield, Nodes, LastText;
    ChildrenLength(t);
    PathPrefix(Top(c), t.prod, i + 1, |Rhs(t.prod)|);
    PathNext(Top(c), t.prod, i, Top(d));
  }

  lemma ChildNotText(t: Tree, i: nat)
    requires t.Node? && Derivation(t) && i < |t.children|
    ensures Root(t.children[i]) != JSONText
  {
    RhsLengths(t.prod);
  }

  /** The reduction after the last child. */
  lemma FinishNode(cv: Conversions, tokens: seq<Token>, c: Config, t: Tree, d: Config, end: nat)
    requires c.Running? && Shape(c) && t.Node? && Derivation(t) && t.prod != 6 && Mid(cv, c, t, |t.children|, d)
    requires Goto(Top(c), Lhs(t.prod)).Some? && Ends(Top(c), t.prod, Goto(Top(c), Lhs(t.prod)).value, end)
    requires Acceptable(Goto(Top(c), Lhs(t.prod)).value, Peek(tokens, c.shifts + |Yield(t)|))
    ensures Steps(cv, tokens, d, 1) == After(cv, c, t, Goto(Top(c), Lhs(t.prod)).value, c.reductions + Nodes(t))
  {
    hide Trans, Goto, ActionOf, Rhs, Lhs, StackValue, PerformAction, DoReduce, LastText, Derivation, Path, Values,
         OnTop, Yield, Nodes, HandleOnTop;
    var n, p := |t.children|, t.prod;
    RhsLengths(p);
    ChildrenLength(t);
    assert d.states[..|c.states|][|c.states| - 1] == Top(c);
    FinishStacks(cv, c, t, d);
    LeafText(t);
    NodesIsAll(t);
    ActionValue(cv, t, d.yytext, d.vstack);
    DoReduceIs(cv, d, p, StackValue(cv, t));
    YieldIsAll(t);
    assert Peek(tokens, d.shifts) == Peek(tokens, c.shifts + |Yield(t)|);
    assert Top(d) == end;
    assert Step(cv, tokens, d) == DoReduce(cv, d, p);
    assert Steps(cv, tokens, d, 1) == Steps(cv, tokens, Step(cv, tokens, d), 0);
  }

  lemma FinishStacks(cv: Conversions, c: Config, t: Tree, d: Config)
    requires c.Running? && Shape(c) && t.Node? && Derivation(t) && Mid(cv, c, t, |t.children|, d)
    requires Goto(Top(c), Lhs(t.prod)).Some?
    ensures |d.symbols| == |c.symbols| + |Rhs(t.prod)| && |t.children| == |Rhs(t.prod)|
    ensures HandleOnTop(d.states, d.symbols, t.prod) && OnTop(cv, t, d.yytext, d.vstack)
    ensures d.states[..|c.symbols| + 1] == c.states && d.symbols[..|c.symbols|] == c.symbols
            && d.vstack[..|c.symbols| + 1] == c.vstack
  {
    hide Trans, Goto, Rhs, Lhs, StackValue, LastText, Derivation, Path, NodesUpTo, YieldUpTo, OnTop, HandleOnTop,
         Values;
    ChildrenLength(t);
    var rhs := Rhs(t.prod);
    assert rhs[..|t.children|] == rhs;
    assert d.symbols == c.symbols + rhs;
    assert d.states[..|c.states|][|c.states| - 1] == Top(c);
    HandleThere(d.states, d.symbols, c.symbols, t.prod);
    FinishOnTop(cv, t, d.yytext, c.vstack, d.vstack);
  }

  lemma HandleThere(states: seq<nat>, symbols: seq<Symbol>, below: seq<Symbol>, p: Production)
    requires |states| == |symbols| + 1 && symbols == below + Rhs(p)
    requires p != 6 ==> Goto(states[|below|], Lhs(p)).Some?
    ensures HandleOnTop(states, symbols, p)
  {
    hide Goto, Rhs, Lhs;
  }

  lemma FinishOnTop(cv: Conversions, t: Tree, yytext: string, below: seq<Js>, vs: seq<Js>)
    requires t.Node? && Derivation(t) && vs == below + Values(cv, t, |t.children|)
    requires |t.children| > 0 ==> yytext == LastText(t.children[|t.children| - 1])
    ensures OnTop(cv, t, yytext, vs)
  {
    hide StackValue, LastText, Derivation, Rhs, Lhs, Yield, YieldUpTo, Values;
    LeafText(t);
    ChildrenLength(t);
    var n, values := |t.children|, Values(cv, t, |t.children|);
    assert |vs| - n == |below|;
    forall i | 0 <= i < n
      ensures vs[|vs| - n + i] == StackValue(cv, t.children[i])
    {
      assert vs[|below| + i] == values[i];
    }
  }

  lemma ChildrenLength(t: Tree)
    requires t.Node? && Derivation(t)
    ensures |t.children| == |Rhs(t.prod)|
    ensures forall i :: 0 <= i < |t.children| ==> Derivation(t.children[i]) && Root(t.children[i]) == Rhs(t.prod)[i]
  {
  }

  /** The last token below a node is the last token below its last child. */
  lemma YieldOfLeaf(t: Tree)
    requires t.Leaf?
    ensures Yield(t) == [t.token]
  {
  }

  lemma LeafText(t: Tree)
    requires t.Node? && Derivation(t)
    ensures |t.children| > 0 && Derivation(t.children[|t.children| - 1])
    ensures LastText(t) == LastText(t.children[|t.children| - 1])
    ensures t.children[|t.children| - 1].Leaf? ==> LastText(t) == t.children[|t.children| - 1].token.text
  {
    hide Rhs, Lhs, Derivation, YieldUpTo, Yield;
    ChildrenLength(t);
    RhsLengths(t.prod);
    var n := |t.children|;
    YieldNotEmpty(t.children[n - 1]);
    YieldIsAll(t);
    ChildSums(t, n - 1);
    if t.children[n - 1].Leaf? {
      YieldOfLeaf(t.children[n - 1]);
    }
  }

  lemma LeafStep(cv: Conversions, tokens: seq<Token>, c: Config, t: Tree)
    requires c.Running? && Shape(c) && Derivation(t) && t.Leaf?
    requires Trans(Top(c), Root(t)).Some? && NextIs(tokens, c.shifts, Yield(t))
    ensures Steps(cv, tokens, c, 1) == After(cv, c, t, Trans(Top(c), Root(t)).value, c.reductions)
  {
    TransAccepts(Top(c), Root(t));
    hide Trans, ActionOf;
    assert tokens[c.shifts] == tokens[c.shifts..c.shifts + 1][0] == t.token;
    var d := Step(cv, tokens, c);
    assert Steps(cv, tokens, c, 1) == Steps(cv, tokens, d, 0) == d;
  }

  // ----- whole documents -----

  /** On input that starts with the tokens of a document, the parser returns the document's value. */
  lemma RunDocument(cv: Conversions, tokens: seq<Token>, t: Tree) returns (k: nat)
    requires Document(t) && NextIs(tokens, 0, Yield(t))
    ensures Steps(cv, tokens, START, k) == Returned(ValueOf(cv, t.children[0]), |Yield(t)|, Nodes(t))
  {
    hide Step, Steps, StackValue, Derivation, After, Nodes;
    DocumentParts(t);
    var v, eof := t.children[0], t.children[1];
    StartTable();
    NextChild(tokens, 0, t, 0);
    NextChild(tokens, 0, t, 1);
    EofNext(tokens, v, eof);
    k := RunTree(cv, tokens, START, v);
    var c := After(cv, START, v, 2, 0 + Nodes(v));
    AfterValue(cv, v, c);
    LeafStep(cv, tokens, c, eof);
    var d := After(cv, c, eof, 16, c.reductions);
    FinalStep(cv, tokens, c, d, v, eof);
    StepsAdd(cv, tokens, START, k, 1);
    StepsAdd(cv, tokens, START, k + 1, 1);
    k := k + 2;
    DocumentNodes(t);
  }

  lemma StartTable()
    ensures Trans(0, JSONValue) == Some(2) && Trans(2, EOF) == Some(16) && Acceptable(2, EOF)
  {
  }

  lemma DocumentParts(t: Tree)
    requires Document(t)
    ensures |t.children| == 2 && Derivation(t.children[0]) && Root(t.children[0]) == JSONValue
    ensures t.children[1].Leaf? && Derivation(t.children[1]) && t.children[1].token.kind == EOF
    ensures Yield(t) == Yield(t.children[0]) + [t.children[1].token]
    ensures YieldUpTo(t, 0) == [] && YieldUpTo(t, 1) == Yield(t.children[0])
  {
    assert Root(t.children[0]) == Rhs(6)[0] && Root(t.children[1]) == Rhs(6)[1];
    assert YieldUpTo(t, 1) == YieldUpTo(t, 0) + Yield(t.children[0]);
    assert YieldUpTo(t, 2) == YieldUpTo(t, 1) + Yield(t.children[1]);
  }

  lemma DocumentNodes(t: Tree)
    requires Document(t)
    ensures |t.children| == 2 && Nodes(t) == Nodes(t.children[0]) + 1
  {
    DocumentParts(t);
    assert NodesUpTo(t, 2) == NodesUpTo(t, 1) + Nodes(t.children[1]);
    assert NodesUpTo(t, 1) == NodesUpTo(t, 0) + Nodes(t.children[0]);
  }

  lemma EofNext(tokens: seq<Token>, v: Tree, eof: Tree)
    requires eof.Leaf? && NextIs(tokens, |Yield(v)|, Yield(eof))
    ensures Peek(tokens, |Yield(v)|) == eof.token.kind
  {
    assert tokens[|Yield(v)|] == tokens[|Yield(v)|..|Yield(v)| + 1][0];
  }

  lemma AfterValue(cv: Conversions, v: Tree, c: Config)
    requires Derivation(v) && c == After(cv, START, v, 2, 0 + Nodes(v))
    ensures c.Running? && c.shifts == |Yield(v)| && Top(c) == 2 && c.reductions == Nodes(v)
  {
  }

  lemma FinalStep(cv: Conversions, tokens: seq<Token>, c: Config, d: Config, v: Tree, eof: Tree)
    requires Derivation(v) && Root(v) == JSONValue && Derivation(eof) && eof.Leaf?
    requires c == After(cv, START, v, 2, 0 + Nodes(v)) && d == After(cv, c, eof, 16, c.reductions)
    ensures v.Node? && 7 <= v.prod <= 12
    ensures Steps(cv, tokens, d, 1) == Returned(ValueOf(cv, v), |Yield(v)| + 1, Nodes(v) + 1)
  {
    hide StackValue, Derivation, Nodes, Lookup, Goto, DoReduce;
    ValueValue(cv, v);
    assert Step(cv, tokens, d) == Returned(StackValue(cv, v), |Yield(v)| + 1, Nodes(v) + 1);
    assert Steps(cv, tokens, d, 1) == Steps(cv, tokens, Step(cv, tokens, d), 0);
  }

  /** The grammar is unambiguous as far as values go: one token sequence has one value. */
  lemma OneValue(cv: Conversions, t: Tree, t': Tree)
    requires Document(t) && Document(t') && Yield(t) == Yield(t')
    ensures |t.children| == |t'.children| == 2 && ValueOf(cv, t.children[0]) == ValueOf(cv, t'.children[0])
  {
    hide Steps, Derivation, ValueOf;
    DocumentParts(t);
    DocumentParts(t');
    var tokens := Yield(t);
    assert tokens[0..0 + |tokens|] == tokens;
    var k := RunDocument(cv, tokens, t);
    var k' := RunDocument(cv, tokens, t');
    OneOutcome(cv, tokens, START, k, k');
  }
}
