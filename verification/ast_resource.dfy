/**
  Evaluation of a resource declaration in the parser's syntax tree: the
  declaration's title expression may yield one title or a list of them, and one
  parser resource is built per title, all sharing the evaluated parameters and
  the qualified type, each handed to the compiler as it is built.

  Evaluating the parameter and title expressions and qualifying the type are
  done by code outside this model; `Evaluate` takes their values.
 */
module AstResource {

  /** The two syntax-tree node shapes that `params=` distinguishes. */
  datatype AstNode =
    | AstArray(file: string, line: int, children: seq<AstNode>)
    | AstLeaf(file: string, line: int, code: string)

  /** `params=`: an array node is kept as it is; any other node becomes the
      only child of a new array node at the same file and line. */
  function SetParams(params: AstNode): (r: AstNode)
    ensures r.AstArray?
    ensures r.file == params.file && r.line == params.line
    ensures params.AstArray? ==> r == params
    ensures !params.AstArray? ==> r.children == [params]
  {
    match params
    case AstArray(_, _, _) => params
    case AstLeaf(file, line, _) => AstArray(file, line, [params])
  }

  /** Wrapping happens at most once. */
  lemma SetParamsIdempotent(params: AstNode)
    ensures SetParams(SetParams(params)) == SetParams(params)
  {
  }

  /** What the title expression evaluates to: a single value or an array. */
  datatype Titles<T> = OneTitle(title: T) | TitleList(titles: seq<T>)

  /** Lines 20-23 of the declaration: a single title is a one-element list. */
  function TitleSeq<T>(titles: Titles<T>): (r: seq<T>)
    ensures titles.OneTitle? ==> r == [titles.title]
    ensures titles.TitleList? ==> r == titles.titles
  {
    match titles
    case OneTitle(t) => [t]
    case TitleList(ts) => ts
  }

  /** The declaration's own attributes. */
  datatype Declaration = Declaration(file: string, line: int, exported: bool, virtual: bool)

  /** The flags of the resource whose scope the declaration is evaluated in. */
  datatype ScopeResource = ScopeResource(exported: bool, virtual: bool)

  /** A `Puppet::Parser::Resource` as the declaration builds it. */
  datatype ParserResource<T, P> = ParserResource(
    typ: string, title: T, params: seq<P>,
    file: string, line: int, exported: bool, virtual: bool)

  /** The resource built for one title. */
  function Build<T, P>(decl: Declaration, scope: ScopeResource, objtype: string,
                       params: seq<P>, title: T): (r: ParserResource<T, P>)
    ensures r.exported <==> decl.exported || scope.exported
    ensures r.virtual <==> decl.virtual || scope.virtual || r.exported
    ensures r.title == title && r.typ == objtype && r.params == params
    ensures r.file == decl.file && r.line == decl.line
  {
    var exp := decl.exported || scope.exported;
    var virt := decl.virtual || scope.virtual || exp;
    ParserResource(objtype, title, params, decl.file, decl.line, exp, virt)
  }

  /** An exported resource is always virtual, whatever order the flags were
      set in. */
  lemma ExportedImpliesVirtual<T, P>(decl: Declaration, scope: ScopeResource, objtype: string,
                                     params: seq<P>, title: T)
    ensures Build(decl, scope, objtype, params, title).exported ==>
              Build(decl, scope, objtype, params, title).virtual
  {
  }

  /** The implicit iteration over titles, as a definition by recursion: the
      resources for a list of titles, in title order. */
  function FanOut<T, P>(decl: Declaration, scope: ScopeResource, objtype: string,
                        params: seq<P>, titles: seq<T>): (r: seq<ParserResource<T, P>>)
    ensures |r| == |titles|
    ensures forall i :: 0 <= i < |titles| ==> r[i] == Build(decl, scope, objtype, params, titles[i])
  {
    if |titles| == 0 then []
    else [Build(decl, scope, objtype, params, titles[0])] + FanOut(decl, scope, objtype, params, titles[1..])
  }

  /** Declaring a list of titles at once is the same as declaring its parts
      one after the other. */
  lemma {:induction false} FanOutAppend<T, P>(decl: Declaration, scope: ScopeResource, objtype: string,
                                             params: seq<P>, a: seq<T>, b: seq<T>)
    ensures FanOut(decl, scope, objtype, params, a + b) ==
            FanOut(decl, scope, objtype, params, a) + FanOut(decl, scope, objtype, params, b)
    decreases |a|
  {
    if |a| > 0 {
      assert (a + b)[1..] == a[1..] + b;
      FanOutAppend(decl, scope, objtype, params, a[1..], b);
    }
  }

  /** `evaluate`: builds one resource per title, adds each to the compiler's
      resource list as it is built, and returns them.  `params` and `objtype`
      are the values computed once, before the iteration. */
  method Evaluate<T, P>(decl: Declaration, scope: ScopeResource, objtype: string,
                        params: seq<P>, titles: Titles<T>, compiler: seq<ParserResource<T, P>>)
    returns (resources: seq<ParserResource<T, P>>, compiler': seq<ParserResource<T, P>>)
    ensures |resources| == |TitleSeq(titles)|
    ensures forall i :: 0 <= i < |resources| ==>
              && resources[i].title == TitleSeq(titles)[i]
              && resources[i].typ == objtype && resources[i].params == params
              && (resources[i].exported <==> decl.exported || scope.exported)
              && (resources[i].virtual <==> decl.virtual || scope.virtual || resources[i].exported)
    ensures compiler' == compiler + resources
    ensures resources == FanOut(decl, scope, objtype, params, TitleSeq(titles))
  {
    var objtitles := TitleSeq(titles);
    resources := [];
    compiler' := compiler;
    var i := 0;
    while i < |objtitles|
      invariant 0 <= i <= |objtitles|
      invariant resources == FanOut(decl, scope, objtype, params, objtitles[..i])
      invariant compiler' == compiler + resources
    {
      var obj := Build(decl, scope, objtype, params, objtitles[i]);
      compiler' := compiler' + [obj];
      FanOutAppend(decl, scope, objtype, params, objtitles[..i], [objtitles[i]]);
      assert objtitles[..i + 1] == objtitles[..i] + [objtitles[i]];
      resources := resources + [obj];
      i := i + 1;
    }
    assert objtitles[..i] == objtitles;
  }
}
