/**
 * The logic inside `CodeGenerator`'s templates: identifiers derived from type
 * names, the argument list of a generated constructor call, the nested `new`
 * expression that builds a service and its decorators, the singleton filters,
 * the dispatch chain of the generated `Resolve<TService>()`, and the brace
 * nesting of the containing types. The surrounding template text is not modelled.
 */
module CodeGenerator {
  import opened Wrappers
  import opened Seqs
  import opened BlueprintModels

  // ---------------------------------------------------------------------------
  // Identifiers

  /** `string.Replace("::", "__")`: occurrences are found left to right and do not overlap. */
  function ReplaceDoubleColons(s: string): (r: string)
    ensures |r| == |s|
    ensures forall i :: 0 <= i < |s| && s[i] != ':' ==> r[i] == s[i]
    ensures forall i :: 0 <= i < |s| && s[i] == ':' ==> r[i] == ':' || r[i] == '_'
    ensures |s| >= 2 && s[0] == ':' && s[1] == ':' ==> r[0] == '_' && r[1] == '_'
    ensures s != [] && !(|s| >= 2 && s[0] == ':' && s[1] == ':') ==> r[0] == s[0]
    // no "::" survives
    ensures forall i :: 0 <= i < |r| - 1 ==> !(r[i] == ':' && r[i + 1] == ':')
  {
    if |s| >= 2 && s[0] == ':' && s[1] == ':' then
      var rest := ReplaceDoubleColons(s[2..]);
      assert forall i :: 2 <= i < |s| ==> s[i] == s[2..][i - 2] && ("__" + rest)[i] == rest[i - 2];
      "__" + rest
    else if s == [] then []
    else
      var rest := ReplaceDoubleColons(s[1..]);
      assert forall i :: 1 <= i < |s| ==> s[i] == s[1..][i - 1] && ([s[0]] + rest)[i] == rest[i - 1];
      [s[0]] + rest
  }

  /**
   * The scan resumes after each replaced pair and otherwise after one character,
   * so a run of three colons becomes "__:".
   */
  lemma ReplaceDoubleColonsResumes(s: string)
    ensures |s| >= 2 && s[0] == ':' && s[1] == ':' ==>
              ReplaceDoubleColons(s)[2..] == ReplaceDoubleColons(s[2..])
    ensures s != [] && !(|s| >= 2 && s[0] == ':' && s[1] == ':') ==>
              ReplaceDoubleColons(s)[1..] == ReplaceDoubleColons(s[1..])
    ensures |s| == 3 && s[0] == ':' && s[1] == ':' && s[2] == ':' ==> ReplaceDoubleColons(s) == "__:"
  {
    if |s| == 3 && s[0] == ':' && s[1] == ':' && s[2] == ':' {
      assert s[2..] == ":";
    }
  }

  lemma ConcatRegroup<T>(a: seq<T>, b: seq<T>, c: seq<T>, d: seq<T>)
    ensures a + (b + c + d) == (a + b) + c + d
  {
  }

  /** Only a colon can pair with its neighbour, so `Replace("::", "__")` handles the text on either side of any other character separately. */
  lemma {:induction false} ReplaceDoubleColonsSplits(p: string, c: char, q: string)
    requires c != ':'
    ensures ReplaceDoubleColons(p + [c] + q) == ReplaceDoubleColons(p) + [c] + ReplaceDoubleColons(q)
  {
    var s := p + [c] + q;
    if p == [] {
      assert s == [c] + q && s[1..] == q;
      assert ReplaceDoubleColons(s) == [c] + ReplaceDoubleColons(q);
    } else if |p| >= 2 && p[0] == ':' && p[1] == ':' {
      assert s[0] == ':' && s[1] == ':' && s[2..] == p[2..] + [c] + q;
      ReplaceDoubleColonsSplits(p[2..], c, q);
      ConcatRegroup("__", ReplaceDoubleColons(p[2..]), [c], ReplaceDoubleColons(q));
      calc {
        ReplaceDoubleColons(s);
        "__" + ReplaceDoubleColons(p[2..] + [c] + q);
        "__" + (ReplaceDoubleColons(p[2..]) + [c] + ReplaceDoubleColons(q));
        ("__" + ReplaceDoubleColons(p[2..])) + [c] + ReplaceDoubleColons(q);
      }
    } else {
      assert s[0] == p[0] && s[1..] == p[1..] + [c] + q;
      assert !(|s| >= 2 && s[0] == ':' && s[1] == ':') by {
        if |p| == 1 { assert s[1] == c; } else { assert s[1] == p[1]; }
      }
      ReplaceDoubleColonsSplits(p[1..], c, q);
      assert ReplaceDoubleColons(p) == [p[0]] + ReplaceDoubleColons(p[1..]);
      ConcatRegroup([p[0]], ReplaceDoubleColons(p[1..]), [c], ReplaceDoubleColons(q));
      calc {
        ReplaceDoubleColons(s);
        [p[0]] + ReplaceDoubleColons(p[1..] + [c] + q);
        [p[0]] + (ReplaceDoubleColons(p[1..]) + [c] + ReplaceDoubleColons(q));
        ([p[0]] + ReplaceDoubleColons(p[1..])) + [c] + ReplaceDoubleColons(q);
      }
    }
  }

  /** `string.Replace(c, replacement)` for a single character. */
  function ReplaceChar(s: string, c: char, replacement: char): (r: string)
    ensures |r| == |s|
    ensures forall i :: 0 <= i < |s| ==> r[i] == (if s[i] == c then replacement else s[i])
  {
    seq(|s|, i requires 0 <= i < |s| => if s[i] == c then replacement else s[i])
  }

  /** The four single-character replacements, in the source's order. */
  function ReplacePunctuation(s: string): (r: string)
    ensures |r| == |s|
    ensures forall i :: 0 <= i < |s| ==> r[i] == (if s[i] in ".<>," then '_' else s[i])
  {
    ReplaceChar(ReplaceChar(ReplaceChar(ReplaceChar(s, '.', '_'), '<', '_'), '>', '_'), ',', '_')
  }

  /** `SanitizeTypeName`: the `::`, `.`, `<`, `>` and `,` of a type name become underscores. */
  function SanitizeTypeName(typeName: string): (r: string)
    ensures |r| == |typeName|
    ensures forall i :: 0 <= i < |r| ==> r[i] != '.' && r[i] != '<' && r[i] != '>' && r[i] != ','
    ensures forall i :: 0 <= i < |r| - 1 ==> !(r[i] == ':' && r[i + 1] == ':')
    ensures forall i :: 0 <= i < |typeName| && typeName[i] in ".<>," ==> r[i] == '_'
    ensures forall i :: 0 <= i < |typeName| && typeName[i] == ':' ==> r[i] == ':' || r[i] == '_'
    ensures forall i :: 0 <= i < |typeName| && typeName[i] !in ".<>,:" ==> r[i] == typeName[i]
  {
    ReplacePunctuation(ReplaceDoubleColons(typeName))
  }

  /**
   * Sanitising is not injective: wherever a type name has `.`, `<`, `>`, `,` or `_`, any
   * other of these five gives the same identifier, so distinct service types such as
   * `global::A.B` and `global::A_B` share one.
   */
  lemma SanitizeMergesSeparators(p: string, c: char, d: char, q: string)
    requires c in "._<>," && d in "._<>,"
    ensures SanitizeTypeName(p + [c] + q) == SanitizeTypeName(p + [d] + q)
  {
    ReplaceDoubleColonsSplits(p, c, q);
    ReplaceDoubleColonsSplits(p, d, q);
    var x, y := ReplaceDoubleColons(p), ReplaceDoubleColons(q);
    var l, r := ReplacePunctuation(x + [c] + y), ReplacePunctuation(x + [d] + y);
    assert |l| == |r|;
    forall i | 0 <= i < |l| ensures l[i] == r[i] {
      if i != |x| {
        assert (x + [c] + y)[i] == (x + [d] + y)[i];
      }
    }
  }

  const SingletonFieldPrefix := "_singleton_"
  const FactoryMethodPrefix := "Create_"

  /** `GetSingletonFieldName`. */
  function SingletonFieldName(serviceType: string): (r: string)
    ensures |r| == |SingletonFieldPrefix| + |serviceType|
    ensures r[..|SingletonFieldPrefix|] == SingletonFieldPrefix
    ensures forall i :: 0 <= i < |r| ==> r[i] != '.' && r[i] != '<' && r[i] != '>' && r[i] != ','
  {
    SingletonFieldPrefix + SanitizeTypeName(serviceType)
  }

  /** `GetFactoryMethodName`. */
  function FactoryMethodName(serviceType: string): (r: string)
    ensures |r| == |FactoryMethodPrefix| + |serviceType|
    ensures r[..|FactoryMethodPrefix|] == FactoryMethodPrefix
    ensures forall i :: 0 <= i < |r| ==> r[i] != '.' && r[i] != '<' && r[i] != '>' && r[i] != ','
  {
    FactoryMethodPrefix + SanitizeTypeName(serviceType)
  }

  /**
   * Two service types get the same field (and the same factory) exactly when their
   * sanitised names agree; a field name is never a factory name.
   */
  lemma NamesFollowSanitizedNames(a: string, b: string)
    ensures SingletonFieldName(a) == SingletonFieldName(b) <==> SanitizeTypeName(a) == SanitizeTypeName(b)
    ensures FactoryMethodName(a) == FactoryMethodName(b) <==> SanitizeTypeName(a) == SanitizeTypeName(b)
    ensures SingletonFieldName(a) != FactoryMethodName(b)
  {
    if SingletonFieldName(a) == SingletonFieldName(b) {
      assert SanitizeTypeName(a) == SingletonFieldName(a)[|SingletonFieldPrefix|..];
      assert SanitizeTypeName(b) == SingletonFieldName(b)[|SingletonFieldPrefix|..];
    }
    if FactoryMethodName(a) == FactoryMethodName(b) {
      assert SanitizeTypeName(a) == FactoryMethodName(a)[|FactoryMethodPrefix|..];
      assert SanitizeTypeName(b) == FactoryMethodName(b)[|FactoryMethodPrefix|..];
    }
    assert SingletonFieldName(a)[0] == '_' && FactoryMethodName(b)[0] == 'C';
  }

  // ---------------------------------------------------------------------------
  // Constructor arguments

  /** `Constants.ResolverInterfaceName`. */
  const ResolverInterfaceName := "global::CSharpDIFramework.IResolver"

  /** The call a parameter of an ordinary service type becomes. */
  function ResolveCall(resolverContext: string, parameterType: string): string
  {
    resolverContext + ".Resolve<" + parameterType + ">()"
  }

  /** The service type a `Resolve` call asks for, read back from the call's text. */
  function RequestedType(call: string, resolverContext: string): Option<string>
  {
    var prefix := resolverContext + ".Resolve<";
    if |call| >= |prefix| + 3 && call[..|prefix|] == prefix && call[|call| - 3..] == ">()" then
      Some(call[|prefix|..|call| - 3])
    else None
  }

  /** A `Resolve` call names exactly the type it was generated for. */
  lemma RequestedTypeOfResolveCall(resolverContext: string, parameterType: string)
    ensures RequestedType(ResolveCall(resolverContext, parameterType), resolverContext) == Some(parameterType)
  {
    var call := ResolveCall(resolverContext, parameterType);
    var prefix := resolverContext + ".Resolve<";
    assert call == prefix + parameterType + ">()";
    assert call[..|prefix|] == prefix;
    assert call[|call| - 3..] == ">()";
    assert call[|prefix|..|call| - 3] == parameterType;
  }

  /**
   * The expression `GenerateArgumentList` passes for one parameter: the resolver
   * context for `IResolver`, the decorated instance for the decorated service type,
   * and a `Resolve` call otherwise. A missing decorated instance joins as "", as a
   * null element does in `string.Join`.
   */
  function Argument(
    parameterType: string, resolverContext: string,
    decoratedServiceType: Option<string>, decoratedServiceInstance: Option<string>): (r: string)
    ensures parameterType == ResolverInterfaceName ==> r == resolverContext
    ensures parameterType != ResolverInterfaceName && decoratedServiceType == Some(parameterType) ==>
              r == (if decoratedServiceInstance.Some? then decoratedServiceInstance.value else "")
    ensures parameterType != ResolverInterfaceName && decoratedServiceType != Some(parameterType) ==>
              RequestedType(r, resolverContext) == Some(parameterType)
  {
    if parameterType == ResolverInterfaceName then resolverContext
    else if decoratedServiceType == Some(parameterType) then
      (if decoratedServiceInstance.Some? then decoratedServiceInstance.value else "")
    else
      RequestedTypeOfResolveCall(resolverContext, parameterType);
      ResolveCall(resolverContext, parameterType)
  }

  /** The `Select` of `GenerateArgumentList`: one argument per parameter, in order. */
  function Arguments(
    parameterTypes: seq<string>, resolverContext: string,
    decoratedServiceType: Option<string>, decoratedServiceInstance: Option<string>): (args: seq<string>)
    ensures |args| == |parameterTypes|
    ensures forall i :: 0 <= i < |args| ==>
              args[i] == Argument(parameterTypes[i], resolverContext, decoratedServiceType, decoratedServiceInstance)
  {
    seq(|parameterTypes|, i requires 0 <= i < |parameterTypes| =>
      Argument(parameterTypes[i], resolverContext, decoratedServiceType, decoratedServiceInstance))
  }

  /** `GenerateArgumentList`: the arguments joined by ", ". */
  function GenerateArgumentList(
    parameterTypes: seq<string>, resolverContext: string,
    decoratedServiceType: Option<string>, decoratedServiceInstance: Option<string>): (r: string)
    ensures parameterTypes == [] ==> r == ""
    ensures |parameterTypes| == 1 ==> r == Argument(parameterTypes[0], resolverContext, decoratedServiceType, decoratedServiceInstance)
    ensures parameterTypes != [] ==>
              Argument(parameterTypes[0], resolverContext, decoratedServiceType, decoratedServiceInstance) <= r
  {
    Join(", ", Arguments(parameterTypes, resolverContext, decoratedServiceType, decoratedServiceInstance))
  }

  /** One parameter more adds ", " and its argument; no parameters give an empty list. */
  lemma ArgumentListSnoc(
    parameterTypes: seq<string>, p: string, resolverContext: string,
    decoratedServiceType: Option<string>, decoratedServiceInstance: Option<string>)
    ensures GenerateArgumentList([], resolverContext, decoratedServiceType, decoratedServiceInstance) == ""
    ensures parameterTypes != [] ==>
              GenerateArgumentList(parameterTypes + [p], resolverContext, decoratedServiceType, decoratedServiceInstance) ==
              GenerateArgumentList(parameterTypes, resolverContext, decoratedServiceType, decoratedServiceInstance) + ", " +
              Argument(p, resolverContext, decoratedServiceType, decoratedServiceInstance)
  {
    var args := Arguments(parameterTypes, resolverContext, decoratedServiceType, decoratedServiceInstance);
    var a := Argument(p, resolverContext, decoratedServiceType, decoratedServiceInstance);
    assert Arguments(parameterTypes + [p], resolverContext, decoratedServiceType, decoratedServiceInstance) == args + [a];
    if parameterTypes != [] {
      JoinSnoc(", ", args, a);
    }
  }

  // ---------------------------------------------------------------------------
  // The nested constructor call of GenerateInstanceCreation

  /** The shape of a generated `new` expression: the type and its arguments, one of which may be another `new`. */
  datatype Creation = New(typeName: string, arguments: seq<Arg>)
  datatype Arg = Code(text: string) | Inner(creation: Creation)

  /** The text of a `new` expression. */
  function Render(c: Creation): string
    decreases c
  {
    "new " + c.typeName + "(" + Join(", ", RenderArgs(c.arguments)) + ")"
  }

  function RenderArgs(args: seq<Arg>): (r: seq<string>)
    decreases args
  {
    seq(|args|, i requires 0 <= i < |args| => RenderArg(args[i]))
  }

  function RenderArg(a: Arg): string
    decreases a
  {
    match a
    case Code(text) => text
    case Inner(c) => Render(c)
  }

  /** The argument for one parameter, with the decorated service (type and inner expression) if any. */
  function ArgTree(parameterType: string, resolverContext: string, decorated: Option<(string, Creation)>): Arg
  {
    if parameterType == ResolverInterfaceName then Code(resolverContext)
    else if decorated.Some? && decorated.value.0 == parameterType then Inner(decorated.value.1)
    else Code(ResolveCall(resolverContext, parameterType))
  }

  function ArgTrees(parameterTypes: seq<string>, resolverContext: string, decorated: Option<(string, Creation)>): (args: seq<Arg>)
    ensures |args| == |parameterTypes|
    ensures forall i :: 0 <= i < |args| ==> args[i] == ArgTree(parameterTypes[i], resolverContext, decorated)
  {
    seq(|parameterTypes|, i requires 0 <= i < |parameterTypes| => ArgTree(parameterTypes[i], resolverContext, decorated))
  }

  /** Rendering the argument trees gives `GenerateArgumentList`'s arguments. */
  lemma RenderArgTrees(parameterTypes: seq<string>, resolverContext: string, decorated: Option<(string, Creation)>)
    ensures RenderArgs(ArgTrees(parameterTypes, resolverContext, decorated)) ==
            Arguments(parameterTypes, resolverContext,
                      if decorated.Some? then Some(decorated.value.0) else None,
                      if decorated.Some? then Some(Render(decorated.value.1)) else None)
  {
  }

  /**
   * The expression for `service` wrapped in its first `n` decorators: the implementation's
   * constructor call, and each decorator's call around the one before it.
   */
  function CreationTree(service: ResolvedService, resolverContext: string, n: nat): Creation
    requires n <= |service.decorators|
  {
    if n == 0 then
      New(service.sourceRegistration.implementationType.fullName,
          ArgTrees(service.selectedConstructor.parameterTypeFullNames, resolverContext, None))
    else
      var decorator := service.decorators[n - 1];
      New(decorator.sourceDecorator.fullName,
          ArgTrees(decorator.selectedConstructor.parameterTypeFullNames, resolverContext,
                   Some((service.ServiceTypeFullName(), CreationTree(service, resolverContext, n - 1)))))
  }

  /** `GenerateInstanceCreation`: start from the implementation's call, then wrap it in each decorator in turn. */
  method GenerateInstanceCreation(service: ResolvedService, resolverContext: string) returns (currentCall: string)
    ensures currentCall == Render(CreationTree(service, resolverContext, |service.decorators|))
  {
    var baseImplType := service.sourceRegistration.implementationType.fullName;
    var baseArgs := GenerateArgumentList(service.selectedConstructor.parameterTypeFullNames, resolverContext, None, None);
    RenderArgTrees(service.selectedConstructor.parameterTypeFullNames, resolverContext, None);
    currentCall := "new " + baseImplType + "(" + baseArgs + ")";

    for i := 0 to |service.decorators|
      invariant currentCall == Render(CreationTree(service, resolverContext, i))
    {
      var decorator := service.decorators[i];
      var decoratorTypeName := decorator.sourceDecorator.fullName;
      RenderArgTrees(decorator.selectedConstructor.parameterTypeFullNames, resolverContext,
                     Some((service.ServiceTypeFullName(), CreationTree(service, resolverContext, i))));
      var decoratorArgs := GenerateArgumentList(
        decorator.selectedConstructor.parameterTypeFullNames, resolverContext,
        Some(service.ServiceTypeFullName()), Some(currentCall));
      currentCall := "new " + decoratorTypeName + "(" + decoratorArgs + ")";
    }
  }

  /** Without decorators the service is built by its own constructor call. */
  lemma UndecoratedCreation(service: ResolvedService, resolverContext: string)
    requires service.decorators == []
    ensures Render(CreationTree(service, resolverContext, 0)) ==
            "new " + service.sourceRegistration.implementationType.fullName + "(" +
            GenerateArgumentList(service.selectedConstructor.parameterTypeFullNames, resolverContext, None, None) + ")"
  {
    RenderArgTrees(service.selectedConstructor.parameterTypeFullNames, resolverContext, None);
  }

  /** The position of the first nested `new` among the arguments, if any. */
  function InnerIndex(args: seq<Arg>): (r: Option<nat>)
    ensures r.Some? ==> r.value < |args| && args[r.value].Inner?
    ensures r.Some? ==> forall j :: 0 <= j < r.value ==> args[j].Code?
    ensures r.None? ==> forall j :: 0 <= j < |args| ==> args[j].Code?
  {
    if args == [] then None
    else if args[0].Inner? then Some(0)
    else
      var rest := InnerIndex(args[1..]);
      if rest.Some? then Some(rest.value + 1) else None
  }

  /** The constructed types from the outermost `new` inwards, following the nested argument. */
  function Layers(c: Creation): seq<string>
    decreases c
  {
    var k := InnerIndex(c.arguments);
    [c.typeName] + if k.Some? then Layers(c.arguments[k.value].creation) else []
  }

  /** The declared order reversed, then the implementation: the last decorator outermost. */
  function DecoratorChain(service: ResolvedService, n: nat): (chain: seq<string>)
    requires n <= |service.decorators|
    ensures |chain| == n + 1
    ensures chain[n] == service.sourceRegistration.implementationType.fullName
    ensures forall k :: 0 <= k < n ==> chain[k] == service.decorators[n - 1 - k].sourceDecorator.fullName
  {
    if n == 0 then [service.sourceRegistration.implementationType.fullName]
    else [service.decorators[n - 1].sourceDecorator.fullName] + DecoratorChain(service, n - 1)
  }

  /** A decorator constructor taking the decorated type nests the inner expression; the base call nests nothing. */
  lemma InnerIndexOfArgTrees(parameterTypes: seq<string>, resolverContext: string, decorated: Option<(string, Creation)>)
    ensures decorated.None? ==> InnerIndex(ArgTrees(parameterTypes, resolverContext, decorated)).None?
    ensures decorated.Some? && decorated.value.0 != ResolverInterfaceName && decorated.value.0 in parameterTypes ==>
              var k := InnerIndex(ArgTrees(parameterTypes, resolverContext, decorated));
              k.Some? && ArgTrees(parameterTypes, resolverContext, decorated)[k.value] == Inner(decorated.value.1)
  {
    var args := ArgTrees(parameterTypes, resolverContext, decorated);
    if decorated.Some? && decorated.value.0 != ResolverInterfaceName && decorated.value.0 in parameterTypes {
      var i :| 0 <= i < |parameterTypes| && parameterTypes[i] == decorated.value.0;
      assert args[i].Inner?;
    }
  }

  /**
   * When every decorator's constructor takes the service type (as the decorator
   * selection guarantees), the generated expression nests the last-declared decorator
   * outermost and the implementation innermost.
   */
  lemma {:induction false} LastDecoratorOutermost(service: ResolvedService, resolverContext: string, n: nat)
    requires n <= |service.decorators|
    requires service.ServiceTypeFullName() != ResolverInterfaceName
    requires forall k :: 0 <= k < n ==>
               service.ServiceTypeFullName() in service.decorators[k].selectedConstructor.parameterTypeFullNames
    ensures Layers(CreationTree(service, resolverContext, n)) == DecoratorChain(service, n)
  {
    var c := CreationTree(service, resolverContext, n);
    if n == 0 {
      InnerIndexOfArgTrees(service.selectedConstructor.parameterTypeFullNames, resolverContext, None);
    } else {
      var decorator := service.decorators[n - 1];
      var inner := CreationTree(service, resolverContext, n - 1);
      InnerIndexOfArgTrees(decorator.selectedConstructor.parameterTypeFullNames, resolverContext,
                           Some((service.ServiceTypeFullName(), inner)));
      LastDecoratorOutermost(service, resolverContext, n - 1);
    }
  }

  /** How many arguments are a nested `new`. */
  function InnerCount(args: seq<Arg>): (n: nat)
    ensures n <= |args|
  {
    if args == [] then 0 else (if args[0].Inner? then 1 else 0) + InnerCount(args[1..])
  }

  /** The decorated instance is passed once per parameter of the decorated type, so exactly once after decorator selection. */
  lemma {:induction false} DecoratedInstancePassedPerOccurrence(
    parameterTypes: seq<string>, resolverContext: string, serviceType: string, inner: Creation)
    requires serviceType != ResolverInterfaceName
    ensures InnerCount(ArgTrees(parameterTypes, resolverContext, Some((serviceType, inner)))) ==
            Occurrences(parameterTypes, serviceType)
  {
    if parameterTypes != [] {
      var args := ArgTrees(parameterTypes, resolverContext, Some((serviceType, inner)));
      assert args[1..] == ArgTrees(parameterTypes[1..], resolverContext, Some((serviceType, inner)));
      DecoratedInstancePassedPerOccurrence(parameterTypes[1..], resolverContext, serviceType, inner);
    }
  }

  // ---------------------------------------------------------------------------
  // Singletons and the Dispose method

  predicate IsSingleton(s: ResolvedService)
  {
    s.Lifetime() == Singleton
  }

  predicate IsDisposable(s: ResolvedService)
  {
    s.sourceRegistration.isDisposable
  }

  predicate IsDisposableSingleton(s: ResolvedService)
  {
    s.Lifetime() == Singleton && s.sourceRegistration.isDisposable
  }

  /** The singletons `Generate` gives a field, a constructor line and a factory: the singleton services, in blueprint order. */
  function Singletons(services: seq<ResolvedService>): (r: seq<ResolvedService>)
    ensures forall s :: s in r <==> s in services && s.Lifetime() == Singleton
  {
    Filter(services, IsSingleton)
  }

  /** The filter keeps blueprint order: one service more adds it at the end exactly when it is a singleton. */
  lemma SingletonsKeepOrder(services: seq<ResolvedService>, s: ResolvedService)
    ensures Singletons(services + [s]) == Singletons(services) + (if s.Lifetime() == Singleton then [s] else [])
  {
    FilterSnoc(services, s, IsSingleton);
  }

  /** The services the generated `Dispose` disposes: disposable singletons, in blueprint order. */
  function DisposableSingletons(services: seq<ResolvedService>): (r: seq<ResolvedService>)
    ensures forall s :: s in r <==> s in services && s.Lifetime() == Singleton && s.sourceRegistration.isDisposable
  {
    Filter(services, IsDisposableSingleton)
  }

  /** `Dispose` visits exactly the disposable ones among the singletons, in the order of the singleton fields. */
  lemma DisposableAmongSingletons(services: seq<ResolvedService>)
    ensures DisposableSingletons(services) == Filter(Singletons(services), IsDisposable)
  {
    FilterFilter(services, IsSingleton, IsDisposable, IsDisposableSingleton);
  }

  /** The lazy field of each singleton. */
  function SingletonFields(services: seq<ResolvedService>): (fields: seq<string>)
    ensures |fields| == |Singletons(services)|
  {
    var singletons := Singletons(services);
    seq(|singletons|, i requires 0 <= i < |singletons| => SingletonFieldName(singletons[i].ServiceTypeFullName()))
  }

  /** The field each `if (field.IsValueCreated)` block of `Dispose` tests. */
  function DisposedFields(services: seq<ResolvedService>): (fields: seq<string>)
    ensures |fields| == |DisposableSingletons(services)|
  {
    var disposables := DisposableSingletons(services);
    seq(|disposables|, i requires 0 <= i < |disposables| => SingletonFieldName(disposables[i].ServiceTypeFullName()))
  }

  /** Every field `Dispose` touches is one of the singleton fields `Generate` declares. */
  lemma DisposedFieldsAreDeclared(services: seq<ResolvedService>)
    ensures forall f :: f in DisposedFields(services) ==> f in SingletonFields(services)
  {
    var disposables := DisposableSingletons(services);
    var singletons := Singletons(services);
    forall f | f in DisposedFields(services) ensures f in SingletonFields(services) {
      var i :| 0 <= i < |disposables| && f == SingletonFieldName(disposables[i].ServiceTypeFullName());
      assert disposables[i] in singletons;
      var j :| 0 <= j < |singletons| && singletons[j] == disposables[i];
      assert SingletonFields(services)[j] == f;
    }
  }

  // ---------------------------------------------------------------------------
  // The root Resolve<TService>() method

  /** What the body of one type test does. */
  datatype BranchBody =
    | ReturnSingleton(fieldName: string)   // return the singleton's lazy value
    | ThrowFromRoot(message: string)       // transient and scoped services need a scope

  /** One `if (typeof(TService) == typeof(T)) { … }` of the chain, with its keyword. */
  datatype Branch = Branch(keyword: string, serviceType: string, body: BranchBody)

  /** The message of the `InvalidOperationException` for a service that needs a scope. */
  function RootMessage(serviceType: string, lifetimeName: string): (r: string)
    ensures |r| == |serviceType| + |lifetimeName| + 114
    ensures r[9..9 + |serviceType|] == serviceType
    ensures r[17 + |serviceType|..17 + |serviceType| + |lifetimeName|] == lifetimeName
  {
    "Service '" + serviceType + "' has a " + lifetimeName +
    " lifetime and cannot be resolved from the root container. Please create and resolve from a scope."
  }

  /**
   * The body generated for a service, by lifetime: a singleton returns its own lazy
   * field; a transient or scoped service throws the scope message naming the service
   * and its lifetime.
   */
  function BranchBodyFor(s: ResolvedService): (r: BranchBody)
    ensures r.ReturnSingleton? <==> s.Lifetime() == Singleton
    ensures r.ReturnSingleton? ==> r.fieldName == SingletonFieldName(s.ServiceTypeFullName())
    ensures r.ThrowFromRoot? ==> r.message == RootMessage(s.ServiceTypeFullName(), LifetimeName(s.Lifetime()))
    ensures r.ThrowFromRoot? ==> LifetimeName(s.Lifetime()) in {"Transient", "Scoped"}
  {
    // The transient message spells "Transient" out and the scoped one prints the
    // enum member; both are the lifetime's name.
    if s.Lifetime() == Singleton then ReturnSingleton(SingletonFieldName(s.ServiceTypeFullName()))
    else ThrowFromRoot(RootMessage(s.ServiceTypeFullName(), LifetimeName(s.Lifetime())))
  }

  /** Two scope messages for the same lifetime are equal only for the same service. */
  lemma RootMessageIdentifiesService(a: string, b: string, lifetimeName: string)
    requires RootMessage(a, lifetimeName) == RootMessage(b, lifetimeName)
    ensures a == b
  {
    var m := RootMessage(a, lifetimeName);
    assert |a| == |b|;
    assert a == m[9..9 + |a|] == b;
  }

  /** The branches of `Resolve` for `services`: one per service, in order, the first opened by "if" and the rest by "else if". */
  ghost predicate IsResolveChain(services: seq<ResolvedService>, branches: seq<Branch>)
  {
    && |branches| == |services|
    && forall k :: 0 <= k < |branches| ==> branches[k] == ChainBranch(services, k)
  }

  /** The k-th branch of the chain. */
  function ChainBranch(services: seq<ResolvedService>, k: nat): Branch
    requires k < |services|
  {
    Branch(if k == 0 then "if" else "else if", services[k].ServiceTypeFullName(), BranchBodyFor(services[k]))
  }

  /** The loop of `GenerateResolveMethod`, with its `isFirst` flag. */
  method GenerateResolveBranches(services: seq<ResolvedService>) returns (branches: seq<Branch>)
    ensures IsResolveChain(services, branches)
  {
    branches := [];
    var isFirst := true;
    for i := 0 to |services|
      invariant isFirst <==> i == 0
      invariant |branches| == i
      invariant forall k :: 0 <= k < i ==> branches[k] == ChainBranch(services, k)
    {
      var ifPrefix := if isFirst then "if" else "else if";
      isFirst := false;
      var service := services[i];
      var branch := Branch(ifPrefix, service.ServiceTypeFullName(), BranchBodyFor(service));
      ChainBranchSnoc(services, branches, i, branch);
      branches := branches + [branch];
    }
  }

  /** Appending the `i`-th branch, with its keyword chosen by position, extends the chain by one. */
  lemma ChainBranchSnoc(services: seq<ResolvedService>, branches: seq<Branch>, i: nat, branch: Branch)
    requires i < |services| && |branches| == i
    requires forall k :: 0 <= k < i ==> branches[k] == ChainBranch(services, k)
    requires branch.keyword == (if i == 0 then "if" else "else if")
    requires branch.serviceType == services[i].ServiceTypeFullName() && branch.body == BranchBodyFor(services[i])
    ensures forall k :: 0 <= k < i + 1 ==> (branches + [branch])[k] == ChainBranch(services, k)
  {
    var extended := branches + [branch];
    forall k | 0 <= k < i + 1
      ensures extended[k] == ChainBranch(services, k)
    {
      if k < i {
        assert extended[k] == branches[k];
      } else {
        assert extended[k] == branch;
      }
    }
  }

  /** What a call `Resolve<T>()` of the generated chain does. */
  datatype Outcome = Taken(body: BranchBody) | NotRegistered

  /** An `if` / `else if` chain followed by the not-registered throw: the first branch testing the requested type runs. */
  function Dispatch(branches: seq<Branch>, requested: string): Outcome
  {
    if branches == [] then NotRegistered
    else if branches[0].serviceType == requested then Taken(branches[0].body)
    else Dispatch(branches[1..], requested)
  }

  lemma {:induction false} DispatchFirstMatch(branches: seq<Branch>, requested: string, i: nat)
    requires i < |branches| && branches[i].serviceType == requested
    requires forall k :: 0 <= k < i ==> branches[k].serviceType != requested
    ensures Dispatch(branches, requested) == Taken(branches[i].body)
  {
    if i > 0 {
      DispatchFirstMatch(branches[1..], requested, i - 1);
    }
  }

  lemma {:induction false} DispatchNoMatch(branches: seq<Branch>, requested: string)
    requires forall k :: 0 <= k < |branches| ==> branches[k].serviceType != requested
    ensures Dispatch(branches, requested) == NotRegistered
  {
    if branches != [] {
      DispatchNoMatch(branches[1..], requested);
    }
  }

  /**
   * The generated `Resolve` answers each service type with that service's body (the
   * first registration of the type, so the only one after duplicate detection), and
   * every other type with the not-registered throw.
   */
  lemma ResolveChainDispatch(services: seq<ResolvedService>, branches: seq<Branch>, requested: string)
    requires IsResolveChain(services, branches)
    ensures forall i :: 0 <= i < |services| && services[i].ServiceTypeFullName() == requested &&
                        (forall k :: 0 <= k < i ==> services[k].ServiceTypeFullName() != requested) ==>
              Dispatch(branches, requested) == Taken(BranchBodyFor(services[i]))
    ensures (forall k :: 0 <= k < |services| ==> services[k].ServiceTypeFullName() != requested) ==>
              Dispatch(branches, requested) == NotRegistered
  {
    forall i | 0 <= i < |services| && services[i].ServiceTypeFullName() == requested &&
               (forall k :: 0 <= k < i ==> services[k].ServiceTypeFullName() != requested)
      ensures Dispatch(branches, requested) == Taken(BranchBodyFor(services[i]))
    {
      DispatchFirstMatch(branches, requested, i);
    }
    if forall k :: 0 <= k < |services| ==> services[k].ServiceTypeFullName() != requested {
      DispatchNoMatch(branches, requested);
    }
  }

  // ---------------------------------------------------------------------------
  // The containing types around the container class

  /** `new string(' ', level * 4)`. */
  function Indent(level: nat): (r: string)
    ensures |r| == 4 * level
    ensures forall i :: 0 <= i < |r| ==> r[i] == ' '
  {
    seq(4 * level, _ => ' ')
  }

  /** The opening lines: each declaration and its "{", indented one level deeper than the one before. */
  ghost predicate OpeningLines(declarations: seq<string>, lines: seq<string>)
  {
    && |lines| == 2 * |declarations|
    && forall k :: 0 <= k < |declarations| ==>
         lines[2 * k] == Indent(k) + declarations[k] && lines[2 * k + 1] == Indent(k) + "{"
  }

  /** The closing lines: one "}" per level, innermost first. */
  ghost predicate ClosingLines(indentLevel: nat, lines: seq<string>)
  {
    && |lines| == indentLevel
    && forall j :: 0 <= j < indentLevel ==> lines[j] == Indent(indentLevel - 1 - j) + "}"
  }

  /** The `foreach` over the containing type declarations at the top of `Generate`. */
  method OpenContainingTypes(declarations: seq<string>) returns (lines: seq<string>, indentLevel: nat)
    ensures indentLevel == |declarations|
    ensures OpeningLines(declarations, lines)
  {
    lines := [];
    indentLevel := 0;
    for i := 0 to |declarations|
      invariant indentLevel == i
      invariant OpeningLines(declarations[..i], lines)
    {
      lines := lines + [Indent(indentLevel) + declarations[i], Indent(indentLevel) + "{"];
      indentLevel := indentLevel + 1;
    }
    assert declarations[..|declarations|] == declarations;
  }

  /** The count-down `for` loop at the bottom of `Generate`. */
  method CloseContainingTypes(indentLevel: nat) returns (lines: seq<string>)
    ensures ClosingLines(indentLevel, lines)
  {
    lines := [];
    var i: int := indentLevel - 1;
    while i >= 0
      invariant -1 <= i < indentLevel
      invariant |lines| == indentLevel - 1 - i
      invariant forall j :: 0 <= j < |lines| ==> lines[j] == Indent(indentLevel - 1 - j) + "}"
    {
      lines := lines + [Indent(i) + "}"];
      i := i - 1;
    }
  }

  /** +1 for a line that opens a block, -1 for one that closes it. */
  function BraceDelta(line: string): int
  {
    if |line| > 0 && line[|line| - 1] == '{' then 1
    else if |line| > 0 && line[|line| - 1] == '}' then -1
    else 0
  }

  /** The nesting depth after `lines`. */
  function Depth(lines: seq<string>): int
  {
    if lines == [] then 0 else Depth(lines[..|lines| - 1]) + BraceDelta(lines[|lines| - 1])
  }

  lemma {:induction false} DepthAppend(xs: seq<string>, ys: seq<string>)
    ensures Depth(xs + ys) == Depth(xs) + Depth(ys)
    decreases |ys|
  {
    if ys == [] {
      assert xs + ys == xs;
    } else {
      var init := ys[..|ys| - 1];
      assert (xs + ys)[..|xs + ys| - 1] == xs + init;
      assert (xs + ys)[|xs + ys| - 1] == ys[|ys| - 1];
      DepthAppend(xs, init);
    }
  }

  /** A line that does not end in a brace. */
  predicate NoTrailingBrace(line: string)
  {
    |line| == 0 || line[|line| - 1] !in "{}"
  }

  lemma {:induction false} OpeningDepth(declarations: seq<string>, lines: seq<string>, k: nat)
    requires OpeningLines(declarations, lines)
    requires forall d :: d in declarations ==> NoTrailingBrace(d)
    requires k <= |declarations|
    ensures Depth(lines[..2 * k]) == k
  {
    if k > 0 {
      OpeningDepth(declarations, lines, k - 1);
      var d := declarations[k - 1];
      var declLine, openLine := Indent(k - 1) + d, Indent(k - 1) + "{";
      assert d in declarations;
      assert lines[..2 * k] == lines[..2 * (k - 1)] + [declLine, openLine];
      DepthAppend(lines[..2 * (k - 1)], [declLine, openLine]);
      if |d| > 0 {
        assert declLine[|declLine| - 1] == d[|d| - 1];
      } else {
        assert declLine == Indent(k - 1);
      }
      assert openLine[|openLine| - 1] == '{';
      assert [declLine, openLine][..1] == [declLine] && [declLine][..0] == [];
      assert Depth([declLine]) == Depth([]) + BraceDelta(declLine);
      assert Depth([declLine, openLine]) == BraceDelta(declLine) + BraceDelta(openLine);
    }
  }

  lemma {:induction false} ClosingDepth(indentLevel: nat, lines: seq<string>, k: nat)
    requires ClosingLines(indentLevel, lines)
    requires k <= indentLevel
    ensures Depth(lines[..k]) + k == 0
  {
    if k > 0 {
      ClosingDepth(indentLevel, lines, k - 1);
      assert lines[..k][..k - 1] == lines[..k - 1];
      var line := lines[k - 1];
      assert line == Indent(indentLevel - k) + "}";
      assert line[|line| - 1] == '}';
    }
  }

  /**
   * Around the container class, every containing type is opened and closed once: the
   * opening lines leave the depth at the number of declarations, each prefix of the
   * closing lines stays above zero, and together they balance. The j-th closing
   * brace sits at the indentation of the opening brace it closes.
   */
  lemma ContainingTypesBalance(declarations: seq<string>, opening: seq<string>, closing: seq<string>)
    requires forall d :: d in declarations ==> NoTrailingBrace(d)
    requires OpeningLines(declarations, opening) && ClosingLines(|declarations|, closing)
    ensures Depth(opening) == |declarations|
    ensures forall k :: 0 <= k <= |closing| ==> Depth(opening + closing[..k]) == |declarations| - k >= 0
    ensures Depth(opening + closing) == 0
    ensures forall j :: 0 <= j < |closing| ==>
              closing[j][..|closing[j]| - 1] == opening[2 * (|declarations| - 1 - j) + 1][..|closing[j]| - 1]
  {
    var n := |declarations|;
    OpeningDepth(declarations, opening, n);
    assert opening[..2 * n] == opening;
    forall k | 0 <= k <= |closing| ensures Depth(opening + closing[..k]) == n - k >= 0 {
      ClosingDepth(n, closing, k);
      DepthAppend(opening, closing[..k]);
    }
    assert closing[..|closing|] == closing;
    ClosingMatchesOpening(declarations, opening, closing);
  }

  /** The `j`-th "}" is indented exactly as the "{" of the level it closes. */
  lemma ClosingMatchesOpening(declarations: seq<string>, opening: seq<string>, closing: seq<string>)
    requires OpeningLines(declarations, opening) && ClosingLines(|declarations|, closing)
    ensures forall j :: 0 <= j < |closing| ==>
              closing[j][..|closing[j]| - 1] == opening[2 * (|declarations| - 1 - j) + 1][..|closing[j]| - 1]
  {
    forall j | 0 <= j < |closing|
      ensures closing[j][..|closing[j]| - 1] == opening[2 * (|declarations| - 1 - j) + 1][..|closing[j]| - 1]
    {
      var level := |declarations| - 1 - j;
      BraceAfterIndent(level, '}');
      BraceAfterIndent(level, '{');
    }
  }

  /** Dropping the brace from an indented brace line leaves the indentation. */
  lemma BraceAfterIndent(level: nat, brace: char)
    ensures (Indent(level) + [brace])[..|Indent(level) + [brace]| - 1] == Indent(level)
  {
  }
}
