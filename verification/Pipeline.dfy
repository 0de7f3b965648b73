/** The whole run on abc: parse a text, evaluate it in a fresh AST, print the object. */
module Pipeline {
  import opened Wrappers
  import opened Syntax
  import G = Grammar
  import P = Parser
  import opened Pool
  import opened Types
  import opened Eval
  import opened EvalProofs
  import opened Elaboration
  import opened Machine
  import opened Objects
  import opened Abc
  import opened ObjectTexts

  datatype RunError = NotParsed(parsing: G.Error) | NotBuilt(building: EvalError)

  /** The object that a run on `raw` builds, and the pools that it leaves. */
  function Made(layout: Layout, raw: string, strict: bool, pools: Pools): (r: Result<(Obj, Pools), RunError>)
    requires layout.Ok()
    ensures r.Success? ==> WellTyped(Library(layout), false, r.value.0)
  {
    var tt := Library(layout);
    match G.Parse(raw)
    case Failure(e) => Failure(NotParsed(e))
    case Success(n) =>
      match EvNode(Build(tt, strict), n, pools)
      case Failure(e) => Failure(NotBuilt(e))
      case Success((v, q)) =>
        BuiltIsObject(layout, strict, n, pools);
        Success((v.data.obj, q))
  }

  /** What the run prints. */
  function Output(layout: Layout, raw: string, strict: bool, pools: Pools): Result<string, RunError>
    requires layout.Ok()
  {
    var (o, q) :- Made(layout, raw, strict, pools);
    Success(ShowTree(Library(layout), o))
  }

  lemma BuiltIsObject(layout: Layout, strict: bool, n: TreeNode, p: Pools)
    requires layout.Ok()
    requires EvNode(Build(Library(layout), strict), n, p).Success?
    ensures var (v, q) := EvNode(Build(Library(layout), strict), n, p).value;
            v.data.NodeD? && v == NodeVal(v.data.obj) && WellTyped(Library(layout), false, v.data.obj)
  {
    hide EvNode, Library, WellTyped;
    var c := Build(Library(layout), strict);
    var (v, q) := EvNode(c, n, p).value;
    EvaluationIsProper(c, n, p);
    RootIsNode(c, n, p);
    AbcRoundTrip(layout, strict, n, p, v.data.obj, q);
  }

  /** A run makes an object exactly when its text parses as a tree that denotes the object
      and the pools hold what the object takes. */
  lemma MadeIs(layout: Layout, raw: string, strict: bool, p: Pools, o: Obj, q: Pools)
    requires layout.Ok()
    ensures Made(layout, raw, strict, p) == Success((o, q))
       <==> && G.Parse(raw).Success?
            && Elab(Library(layout), strict, G.Parse(raw).value, o) && CostObj(Library(layout), o, p) == Success(q)
  {
    hide G.Parse, EvNode, Library, WellTyped, Elab, CostObj;
    if G.Parse(raw).Success? {
      var n := G.Parse(raw).value;
      BuildIsElaboration(Library(layout), strict, n, p, o, q);
      if EvNode(Build(Library(layout), strict), n, p).Success? {
        BuiltIsObject(layout, strict, n, p);
      }
    }
  }

  /** The run itself, with the parser, the evaluator and the printer as they are. */
  method Run(layout: Layout, raw: string, strict: bool, pools: Pools) returns (r: Result<string, RunError>)
    requires layout.Ok()
    ensures r == Output(layout, raw, strict, pools)
  {
    hide G.ParseTokens, G.Tokens, EvNode, Library, ShowTree, WellTyped, Table.Valid;
    LibraryIsValid(layout);
    var tt := Library(layout);
    var parser := new P.Parser(raw);
    var parsed := parser.Parse();
    if parsed.Failure? {
      return Failure(NotParsed(parsed.error));
    }
    var n := parsed.value;
    var maker := new Maker(tt, strict, BuildMode, pools);
    var evaluator := new Evaluator(maker);
    var built := evaluator.EvalTree(n);
    if built.Failure? {
      return Failure(NotBuilt(built.error));
    }
    BuiltIsObject(layout, strict, n, pools);
    var printer := new ObjectPrinter(layout);
    printer.PrintRoot(built.value.data.obj);
    return Success(printer.ost);
  }

  /** Printing is a fixed point: a run on printed text, with relaxed casts and equal pools,
      prints it again exactly when what was built holds no `M` and no unsafe string. */
  lemma OutputIsFixed(layout: Layout, raw: string, strict: bool, pools: Pools, o: Obj, q: Pools)
    requires layout.Ok() && Made(layout, raw, strict, pools) == Success((o, q))
    ensures var text := ShowTree(Library(layout), o);
            && Output(layout, raw, strict, pools) == Success(text)
            && (Output(layout, text, false, pools) == Success(text) <==> Quotable(o))
  {
    hide G.Parse, Library, Show, WellTyped, Quotable, Sayable, Elab, CostObj, Made;
    var tt := Library(layout);
    var text := ShowTree(tt, o);
    LibraryIsCoherent(layout);
    ShowThenRead(tt, o);
    SayableIsQuotable(layout, o);
    MadeIs(layout, raw, strict, pools, o, q);
    MadeIs(layout, text, false, pools, o, q);
    var again := Made(layout, text, false, pools);
    if again.Success? && Output(layout, text, false, pools) == Success(text) {
      var (o2, q2) := again.value;
      Shorten(Show(tt, o2), Show(tt, o), "\n");
      TextsAreDistinct(layout, o2, o);
      MadeIs(layout, text, false, pools, o2, q2);
    }
  }
}
