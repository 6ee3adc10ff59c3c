/**
 * `GraphBuilder`: turns a container's registrations into resolved services.
 * The constructor indexes the registrations by service type, reporting duplicates;
 * `Build` resolves every registration with a memo table, an explicit path stack for
 * cycle detection and an append-only diagnostic list, and yields a blueprint only
 * when no error was recorded. Roslyn symbols are replaced by their full names, so
 * symbol equality is string equality.
 */
module GraphBuilder {
  import opened Wrappers
  import opened Seqs
  import opened BlueprintModels
  import opened Diagnostics
  import opened ConstructorSelection

  // ---------------------------------------------------------------------------
  // The registration map built by the constructor

  /** The service types registered in `regs`. */
  function ServiceTypes(regs: seq<ServiceRegistration>): (keys: set<string>)
    ensures forall i :: 0 <= i < |regs| ==> regs[i].serviceTypeFullName in keys
    ensures forall k :: k in keys ==> exists i :: 0 <= i < |regs| && regs[i].serviceTypeFullName == k
  {
    if regs == [] then {}
    else
      var prefix := regs[..|regs| - 1];
      assert forall i :: 0 <= i < |prefix| ==> prefix[i] == regs[i];
      ServiceTypes(prefix) + {regs[|regs| - 1].serviceTypeFullName}
  }

  /** NDI0010 for a registration whose service type is already in the map, named as C# displays it. */
  function DuplicateRegistrationDiagnostic(reg: ServiceRegistration): Diagnostic
  {
    Diagnostic(NDI0010, [Text(DisplayName(reg.serviceTypeFullName))])
  }

  /** The map the constructor's loop has built after visiting `regs`. */
  function RegistrationMapOf(regs: seq<ServiceRegistration>): (r: map<string, ServiceRegistration>)
    ensures regs != [] ==> regs[0].serviceTypeFullName in r && r[regs[0].serviceTypeFullName] == regs[0]
  {
    if regs == [] then map[]
    else
      var m := RegistrationMapOf(regs[..|regs| - 1]);
      var reg := regs[|regs| - 1];
      if reg.serviceTypeFullName in m then m else m[reg.serviceTypeFullName := reg]
  }

  /** The diagnostics the constructor's loop has reported after visiting `regs`. */
  function DuplicateDiagnosticsOf(regs: seq<ServiceRegistration>): (r: seq<Diagnostic>)
    ensures regs != [] ==> |r| < |regs|
  {
    if regs == [] then []
    else
      var prefix := regs[..|regs| - 1];
      var reg := regs[|regs| - 1];
      DuplicateDiagnosticsOf(prefix)
        + (if reg.serviceTypeFullName in RegistrationMapOf(prefix) then [DuplicateRegistrationDiagnostic(reg)] else [])
  }

  /** `regs[i]` is the first registration of its service type. */
  ghost predicate IsFirst(regs: seq<ServiceRegistration>, i: int)
    requires 0 <= i < |regs|
  {
    forall j :: 0 <= j < i ==> regs[j].serviceTypeFullName != regs[i].serviceTypeFullName
  }

  /** The map has one entry per registered service type. */
  lemma {:induction false} RegistrationMapKeys(regs: seq<ServiceRegistration>)
    ensures RegistrationMapOf(regs).Keys == ServiceTypes(regs)
  {
    if regs != [] {
      var prefix := regs[..|regs| - 1];
      RegistrationMapKeys(prefix);
    }
  }

  /** Every entry is keyed by its own registration's service type. */
  lemma {:induction false} RegistrationMapSelfKeyed(regs: seq<ServiceRegistration>)
    ensures forall k :: k in RegistrationMapOf(regs) ==> RegistrationMapOf(regs)[k].serviceTypeFullName == k
  {
    if regs != [] {
      RegistrationMapSelfKeyed(regs[..|regs| - 1]);
    }
  }

  /** The entry for a service type is the FIRST registration of that type; later ones are dropped. */
  lemma {:induction false} RegistrationMapKeepsFirst(regs: seq<ServiceRegistration>, i: int)
    requires 0 <= i < |regs| && IsFirst(regs, i)
    ensures regs[i].serviceTypeFullName in RegistrationMapOf(regs)
    ensures RegistrationMapOf(regs)[regs[i].serviceTypeFullName] == regs[i]
  {
    var prefix := regs[..|regs| - 1];
    if i < |prefix| {
      assert prefix[i] == regs[i];
      assert IsFirst(prefix, i) by {
        assert forall j :: 0 <= j < i ==> prefix[j] == regs[j];
      }
      RegistrationMapKeepsFirst(prefix, i);
    } else {
      RegistrationMapKeys(prefix);
      assert regs[i].serviceTypeFullName !in ServiceTypes(prefix) by {
        assert forall j :: 0 <= j < |prefix| ==> prefix[j] == regs[j];
      }
    }
  }

  /** Each registration after the first of its service type adds exactly one diagnostic. */
  lemma {:induction false} DuplicatesCounted(regs: seq<ServiceRegistration>)
    ensures |DuplicateDiagnosticsOf(regs)| == |regs| - |ServiceTypes(regs)|
  {
    if regs != [] {
      var prefix := regs[..|regs| - 1];
      var k := regs[|regs| - 1].serviceTypeFullName;
      DuplicatesCounted(prefix);
      RegistrationMapKeys(prefix);
      var before, after := ServiceTypes(prefix), ServiceTypes(regs);
      assert after == before + {k};
      var added := if k in RegistrationMapOf(prefix) then [DuplicateRegistrationDiagnostic(regs[|regs| - 1])] else [];
      assert DuplicateDiagnosticsOf(regs) == DuplicateDiagnosticsOf(prefix) + added;
      if k in before {
        assert after == before;
      } else {
        assert |after| == |before| + 1;
      }
    }
  }

  /** Every diagnostic the constructor reports is a well-formed NDI0010 displaying a registered service type. */
  lemma {:induction false} DuplicatesAreNDI0010(regs: seq<ServiceRegistration>)
    ensures forall d :: d in DuplicateDiagnosticsOf(regs) ==>
              d.id == NDI0010 && WellFormed(d) && exists k :: k in ServiceTypes(regs) && d.args[0] == Text(DisplayName(k))
  {
    if regs != [] {
      var prefix := regs[..|regs| - 1];
      DuplicatesAreNDI0010(prefix);
      assert ServiceTypes(prefix) <= ServiceTypes(regs) by {
        assert forall i :: 0 <= i < |prefix| ==> prefix[i] == regs[i];
      }
      var k := regs[|regs| - 1].serviceTypeFullName;
      assert k in ServiceTypes(regs);
      assert DuplicateRegistrationDiagnostic(regs[|regs| - 1]).args[0] == Text(DisplayName(k));
    }
  }

  /** No NDI0010 is reported exactly when the service types are pairwise distinct. */
  lemma {:induction false} NoDuplicatesIff(regs: seq<ServiceRegistration>)
    ensures DuplicateDiagnosticsOf(regs) == [] <==>
              forall i, j :: 0 <= i < j < |regs| ==> regs[i].serviceTypeFullName != regs[j].serviceTypeFullName
  {
    if regs != [] {
      NoDuplicatesIff(regs[..|regs| - 1]);
      NoDuplicatesStep(regs);
      DistinctTypesStep(regs);
    }
  }

  /** The last registration adds no NDI0010 exactly when its type is new. */
  lemma NoDuplicatesStep(regs: seq<ServiceRegistration>)
    requires regs != []
    ensures var prefix, k := regs[..|regs| - 1], regs[|regs| - 1].serviceTypeFullName;
      DuplicateDiagnosticsOf(regs) == [] <==> DuplicateDiagnosticsOf(prefix) == [] && k !in ServiceTypes(prefix)
  {
    var prefix, k := regs[..|regs| - 1], regs[|regs| - 1].serviceTypeFullName;
    RegistrationMapKeys(prefix);
    var added := if k in RegistrationMapOf(prefix) then [DuplicateRegistrationDiagnostic(regs[|regs| - 1])] else [];
    assert DuplicateDiagnosticsOf(regs) == DuplicateDiagnosticsOf(prefix) + added;
  }

  /** The types stay pairwise distinct with one registration more exactly when its type is new. */
  lemma DistinctTypesStep(regs: seq<ServiceRegistration>)
    requires regs != []
    ensures var prefix, k := regs[..|regs| - 1], regs[|regs| - 1].serviceTypeFullName;
      (forall i, j :: 0 <= i < j < |regs| ==> regs[i].serviceTypeFullName != regs[j].serviceTypeFullName) <==>
      (forall i, j :: 0 <= i < j < |prefix| ==> prefix[i].serviceTypeFullName != prefix[j].serviceTypeFullName) &&
      k !in ServiceTypes(prefix)
  {
    var prefix, k := regs[..|regs| - 1], regs[|regs| - 1].serviceTypeFullName;
    assert forall i :: 0 <= i < |prefix| ==> prefix[i] == regs[i];
    if k in ServiceTypes(prefix) {
      var i :| 0 <= i < |prefix| && prefix[i].serviceTypeFullName == k;
      assert regs[i].serviceTypeFullName == regs[|regs| - 1].serviceTypeFullName;
    } else {
      assert forall i :: 0 <= i < |prefix| ==> regs[i].serviceTypeFullName != k;
    }
  }

  /** Without duplicates, every registration is the map's entry for its own service type. */
  lemma DistinctRegistrationsAllMapped(regs: seq<ServiceRegistration>)
    requires DuplicateDiagnosticsOf(regs) == []
    ensures forall i :: 0 <= i < |regs| ==>
              regs[i].serviceTypeFullName in RegistrationMapOf(regs) &&
              RegistrationMapOf(regs)[regs[i].serviceTypeFullName] == regs[i]
  {
    NoDuplicatesIff(regs);
    forall i | 0 <= i < |regs|
      ensures regs[i].serviceTypeFullName in RegistrationMapOf(regs)
      ensures RegistrationMapOf(regs)[regs[i].serviceTypeFullName] == regs[i]
    {
      RegistrationMapKeepsFirst(regs, i);
    }
  }

  // ---------------------------------------------------------------------------
  // Parameter classification (the body of ResolveParameters' loop)

  /** What `ResolveParameters` does with one constructor parameter. */
  datatype ParameterOutcome =
    | Skipped                                   // the decorated-service parameter
    | Reported(diagnostic: Diagnostic)          // not registered, or a captive dependency
    | Recurse(dependency: ServiceRegistration)  // resolve the dependency's own registration

  /** NDI0005: (required type's name, requesting implementation's name). */
  function NotRegisteredDiagnostic(parameterType: string, parent: ServiceRegistration): (d: Diagnostic)
    ensures d.id == NDI0005 && WellFormed(d)
  {
    BuilderDescriptorArities();
    var required, requester := ShortName(parameterType), ShortName(parent.implementationType.fullName);
    Diagnostic(NDI0005, [Text(required), Text(requester)])
  }

  /**
   * The captive-dependency diagnostic as written: NDI0015 when the parent's
   * implementation differs from its service type (the source takes that as "this is a
   * decorator"), NDI0011 otherwise; the arguments are parent, parent lifetime,
   * dependency, dependency lifetime.
   */
  function CaptiveDiagnostic(parent: ServiceRegistration, dependency: ServiceRegistration): (d: Diagnostic)
    ensures d.id == NDI0015 <==> parent.implementationType.fullName != parent.serviceTypeFullName
    ensures d.id in {NDI0011, NDI0015} && WellFormed(d)
  {
    BuilderDescriptorArities();
    var isDecorator := parent.implementationType.fullName != parent.serviceTypeFullName;
    Diagnostic(if isDecorator then NDI0015 else NDI0011,
      [Text(ShortName(parent.implementationType.fullName)), LifetimeArg(parent.lifetime),
       Text(ShortName(dependency.serviceTypeFullName)), LifetimeArg(dependency.lifetime)])
  }

  /**
   * An ordinary registration of an interface to its class already has an implementation
   * different from its service type, so a singleton class taking a scoped service is
   * reported with the decorator descriptor NDI0015, although no decorator is involved;
   * the intended classification reports NDI0011 with the same arguments.
   */
  lemma CaptiveDiagnosticMisfires()
    ensures var parent := NewRegistration("ICaptiveSingleton", ServiceImplementationType("CaptiveSingleton", []), Singleton, false);
      var dependency := NewRegistration("ICaptiveScoped", ServiceImplementationType("CaptiveScoped", []), Scoped, false);
      var registrations := map["ICaptiveScoped" := dependency];
      && ClassifyParameter("ICaptiveScoped", parent, None, registrations) == Reported(CaptiveDiagnostic(parent, dependency))
      && CaptiveDiagnostic(parent, dependency).id == NDI0015
      && IntendedClassifyParameter("ICaptiveScoped", parent, None, registrations) ==
           Reported(IntendedCaptiveDiagnostic(parent, dependency, false))
      && IntendedCaptiveDiagnostic(parent, dependency, false).id == NDI0011
  {
    assert |"CaptiveSingleton"| != |"ICaptiveSingleton"|;
  }

  /**
   * The captive-dependency diagnostic as evidently intended: NDI0015 for the parameters
   * of a decorator (resolved with the decorated service type excluded), NDI0011 for a
   * service's own constructor. Only the descriptor is corrected: the arguments stay as
   * written, so a decorator's NDI0015 still names the decorated implementation where
   * the descriptor's message speaks of the decorator.
   */
  function IntendedCaptiveDiagnostic(parent: ServiceRegistration, dependency: ServiceRegistration, forDecorator: bool): (d: Diagnostic)
    ensures d.id == NDI0015 <==> forDecorator
    ensures d.id in {NDI0011, NDI0015} && WellFormed(d)
    ensures d.args == CaptiveDiagnostic(parent, dependency).args
  {
    BuilderDescriptorArities();
    Diagnostic(if forDecorator then NDI0015 else NDI0011,
      [Text(ShortName(parent.implementationType.fullName)), LifetimeArg(parent.lifetime),
       Text(ShortName(dependency.serviceTypeFullName)), LifetimeArg(dependency.lifetime)])
  }

  /**
   * The decision `ResolveParameters` takes for one parameter, as written: a captive
   * dependency is reported with `CaptiveDiagnostic`, whose descriptor follows the
   * parent's implementation-versus-service-type test.
   */
  function ClassifyParameter(
    parameterType: string, parent: ServiceRegistration, exclude: Option<string>,
    registrations: map<string, ServiceRegistration>): (o: ParameterOutcome)
    ensures o.Skipped? <==> exclude == Some(parameterType)
    ensures o.Reported? ==> WellFormed(o.diagnostic)
    ensures o.Reported? && o.diagnostic.id == NDI0005 <==>
              exclude != Some(parameterType) && parameterType !in registrations
    ensures o.Reported? && o.diagnostic.id in {NDI0011, NDI0015} <==>
              exclude != Some(parameterType) && parameterType in registrations &&
              Outlives(parent.lifetime, registrations[parameterType].lifetime)
    ensures o.Reported? && o.diagnostic.id in {NDI0011, NDI0015} ==>
              (o.diagnostic.id == NDI0015 <==> parent.implementationType.fullName != parent.serviceTypeFullName)
    ensures o.Recurse? ==> parameterType in registrations && o.dependency == registrations[parameterType]
    ensures o.Recurse? ==> !Outlives(parent.lifetime, o.dependency.lifetime)
  {
    if exclude == Some(parameterType) then Skipped
    else if parameterType !in registrations then Reported(NotRegisteredDiagnostic(parameterType, parent))
    else
      var dependency := registrations[parameterType];
      if Outlives(parent.lifetime, dependency.lifetime) then Reported(CaptiveDiagnostic(parent, dependency))
      else Recurse(dependency)
  }

  /**
   * The decision as evidently intended: a captive dependency of a decorator's
   * constructor (resolved with the decorated type excluded) is NDI0015, one of a
   * service's own constructor NDI0011. Only the descriptor is corrected.
   */
  function IntendedClassifyParameter(
    parameterType: string, parent: ServiceRegistration, exclude: Option<string>,
    registrations: map<string, ServiceRegistration>): (o: ParameterOutcome)
    ensures o.Reported? && o.diagnostic.id in {NDI0011, NDI0015} ==> (o.diagnostic.id == NDI0015 <==> exclude.Some?)
  {
    match ClassifyParameter(parameterType, parent, exclude, registrations)
    case Reported(d) =>
      if d.id in {NDI0011, NDI0015} then Reported(IntendedCaptiveDiagnostic(parent, registrations[parameterType], exclude.Some?))
      else Reported(d)
    case o => o
  }

  /**
   * The written and the intended decisions agree on every input except in the
   * descriptor of a captive dependency, and agree entirely whenever the source's test
   * "implementation differs from service type" coincides with "a decorator's parameter".
   */
  lemma ClassifyAgreesWithIntended(
    parameterType: string, parent: ServiceRegistration, exclude: Option<string>,
    registrations: map<string, ServiceRegistration>)
    ensures var o, o' := ClassifyParameter(parameterType, parent, exclude, registrations),
                         IntendedClassifyParameter(parameterType, parent, exclude, registrations);
      && (o.Reported? <==> o'.Reported?)
      && (!o.Reported? ==> o' == o)
      && (o.Reported? ==> o'.diagnostic.args == o.diagnostic.args && WellFormed(o'.diagnostic))
      && (o.Reported? && o.diagnostic.id !in {NDI0011, NDI0015} ==> o' == o)
      && (o.Reported? && o.diagnostic.id in {NDI0011, NDI0015} ==> o'.diagnostic.id in {NDI0011, NDI0015})
      && ((exclude.Some? <==> parent.implementationType.fullName != parent.serviceTypeFullName) ==> o' == o)
  {
  }

  /** The captive rule over every lifetime pair: only a strictly longer parent lifetime is reported. */
  lemma CaptiveRuleTable(parent: ServiceRegistration, registrations: map<string, ServiceRegistration>, p: string)
    requires p in registrations
    ensures var o := ClassifyParameter(p, parent, None, registrations);
      var dep := registrations[p].lifetime;
      && (parent.lifetime == Singleton && dep in {Scoped, Transient} ==> o.Reported?)
      && (parent.lifetime == Scoped && dep == Transient ==> o.Reported?)
      && (parent.lifetime == dep ==> o.Recurse?)
      && (Rank(parent.lifetime) < Rank(dep) ==> o.Recurse?)
  {
  }

  /** The parameter types `ResolveParameters` looks up: all but the excluded one, in order. */
  function ToResolve(parameters: seq<string>, exclude: Option<string>): seq<string>
  {
    if parameters == [] then []
    else
      var last := parameters[|parameters| - 1];
      ToResolve(parameters[..|parameters| - 1], exclude) + (if exclude == Some(last) then [] else [last])
  }

  /** With nothing excluded, every parameter is looked up. */
  lemma {:induction false} ToResolveNone(parameters: seq<string>)
    ensures ToResolve(parameters, None) == parameters
  {
    if parameters != [] {
      ToResolveNone(parameters[..|parameters| - 1]);
      assert parameters == parameters[..|parameters| - 1] + [parameters[|parameters| - 1]];
    }
  }

  /** The service types of resolved dependencies, in order. */
  function DependencyTypes(deps: seq<ResolvedService>): seq<string>
  {
    if deps == [] then []
    else DependencyTypes(deps[..|deps| - 1]) + [deps[|deps| - 1].ServiceTypeFullName()]
  }

  lemma DependencyTypesSnoc(deps: seq<ResolvedService>, d: ResolvedService)
    ensures DependencyTypes(deps + [d]) == DependencyTypes(deps) + [d.ServiceTypeFullName()]
  {
    assert (deps + [d])[..|deps|] == deps;
  }

  /** If parameter `p` is missing or captive, its diagnostic is among `ds`. */
  ghost predicate ReportedIn(
    p: string, parent: ServiceRegistration, exclude: Option<string>,
    registrations: map<string, ServiceRegistration>, ds: seq<Diagnostic>)
  {
    var o := ClassifyParameter(p, parent, exclude, registrations);
    o.Reported? ==> o.diagnostic in ds
  }

  lemma ReportedInGrows(
    ps: seq<string>, n: nat, parent: ServiceRegistration, exclude: Option<string>,
    registrations: map<string, ServiceRegistration>, ds0: seq<Diagnostic>, ds1: seq<Diagnostic>)
    requires n <= |ps|
    requires forall j :: 0 <= j < n ==> ReportedIn(ps[j], parent, exclude, registrations, ds0)
    requires forall x :: x in ds0 ==> x in ds1
    ensures forall j :: 0 <= j < n ==> ReportedIn(ps[j], parent, exclude, registrations, ds1)
  {
  }

  // ---------------------------------------------------------------------------
  // Why a diagnostic is reported

  /**
   * The parameters `ResolveParameters` walks for `reg`: those of its own selected
   * constructor (`via` is None), or of the selected constructor of its decorator `via`.
   */
  function ParametersOf(reg: ServiceRegistration, via: Option<DecoratorInfo>): seq<string>
  {
    match via
    case None =>
      if ChooseConstructor(reg.implementationType).Selected?
      then ChooseConstructor(reg.implementationType).ctor.parameterTypeFullNames
      else []
    case Some(d) =>
      if d in reg.decorators && ChooseDecoratorConstructor(d, reg.serviceTypeFullName).Selected?
      then ChooseDecoratorConstructor(d, reg.serviceTypeFullName).ctor.parameterTypeFullNames
      else []
  }

  /** The type excluded while walking those parameters: the decorated service type, for a decorator. */
  function ExcludeFor(via: Option<DecoratorInfo>, key: string): Option<string>
  {
    if via.Some? then Some(key) else None
  }

  /** Resolving registered type `a` (through its constructor or its decorator `via`) resolves `b`. */
  ghost predicate DependsOnVia(
    registrations: map<string, ServiceRegistration>, a: string, b: string, via: Option<DecoratorInfo>)
  {
    && a in registrations
    && b in ParametersOf(registrations[a], via)
    && ClassifyParameter(b, registrations[a], ExcludeFor(via, a), registrations).Recurse?
  }

  ghost predicate DependsOn(registrations: map<string, ServiceRegistration>, a: string, b: string)
  {
    exists via :: DependsOnVia(registrations, a, b, via)
  }

  /** Each type on the path (bottom to top) is resolved by the one below it. */
  ghost predicate PathChain(registrations: map<string, ServiceRegistration>, path: seq<string>)
  {
    forall i :: 0 <= i < |path| - 1 ==> DependsOn(registrations, path[i], path[i + 1])
  }

  /** Pushing a dependency of the top keeps the path a chain. */
  lemma PathChainSnoc(registrations: map<string, ServiceRegistration>, path: seq<string>, key: string)
    requires PathChain(registrations, path)
    requires path != [] ==> DependsOn(registrations, path[|path| - 1], key)
    ensures PathChain(registrations, path + [key])
  {
    var p := path + [key];
    forall i | 0 <= i < |p| - 1
      ensures DependsOn(registrations, p[i], p[i + 1])
    {
      if i < |path| - 1 {
        assert p[i] == path[i] && p[i + 1] == path[i + 1];
      } else {
        assert p[i] == path[|path| - 1] && p[i + 1] == key;
      }
    }
  }

  /** What a reported diagnostic can be traced back to. */
  datatype Cause =
    | Duplicate                                                  // a second registration of a type
    | ConstructorRejected(key: string)                           // no usable constructor
    | DecoratorRejected(key: string, decorator: DecoratorInfo)   // no usable decorator constructor
    | ParameterReported(key: string, via: Option<DecoratorInfo>, parameter: string)  // missing or captive
    | Cycle(path: seq<string>, key: string)                      // a dependency chain back onto itself

  /** Cause `c` accounts for diagnostic `x` in the registrations `regs`, indexed as `registrations`. */
  ghost predicate Explains(
    registrations: map<string, ServiceRegistration>, regs: seq<ServiceRegistration>, c: Cause, x: Diagnostic)
  {
    match c
    case Duplicate => x in DuplicateDiagnosticsOf(regs)
    case ConstructorRejected(k) =>
      k in registrations && ChooseConstructor(registrations[k].implementationType) == Rejected(x)
    case DecoratorRejected(k, d) =>
      k in registrations && d in registrations[k].decorators && ChooseDecoratorConstructor(d, k) == Rejected(x)
    case ParameterReported(k, via, p) =>
      k in registrations && p in ParametersOf(registrations[k], via) &&
      ClassifyParameter(p, registrations[k], ExcludeFor(via, k), registrations) == Reported(x)
    case Cycle(path, k) =>
      && path != [] && k in path
      && PathChain(registrations, path) && DependsOn(registrations, path[|path| - 1], k)
      && x == CycleDiagnostic(path, k)
  }

  ghost predicate Explained(registrations: map<string, ServiceRegistration>, regs: seq<ServiceRegistration>, x: Diagnostic)
  {
    exists c :: Explains(registrations, regs, c, x)
  }

  /** Every diagnostic in `ds` has a cause. */
  ghost predicate AllExplained(registrations: map<string, ServiceRegistration>, regs: seq<ServiceRegistration>, ds: seq<Diagnostic>)
  {
    forall x {:trigger Explained(registrations, regs, x)} :: x in ds ==> Explained(registrations, regs, x)
  }

  lemma ExplainedSnoc(
    registrations: map<string, ServiceRegistration>, regs: seq<ServiceRegistration>, ds: seq<Diagnostic>, c: Cause, x: Diagnostic)
    requires AllExplained(registrations, regs, ds) && Explains(registrations, regs, c, x)
    ensures AllExplained(registrations, regs, ds + [x])
  {
  }

  /** The constructor's duplicate reports are explained. */
  lemma DuplicatesExplained(registrations: map<string, ServiceRegistration>, regs: seq<ServiceRegistration>)
    ensures AllExplained(registrations, regs, DuplicateDiagnosticsOf(regs))
  {
    forall x | x in DuplicateDiagnosticsOf(regs) ensures Explained(registrations, regs, x) {
      assert Explains(registrations, regs, Duplicate, x);
    }
  }

  // ---------------------------------------------------------------------------
  // What a memoized service satisfies

  /** No dependency has a lifetime strictly shorter than the parent's. */
  ghost predicate NoCaptive(parentLifetime: ServiceLifetime, deps: seq<ResolvedService>)
  {
    forall i :: 0 <= i < |deps| ==> !Outlives(parentLifetime, deps[i].Lifetime())
  }

  /** Each dependency is the memo table's entry for its service type (shared, not copied). */
  ghost predicate AllMemoized(deps: seq<ResolvedService>, memo: map<string, ResolvedService>)
  {
    forall i :: 0 <= i < |deps| ==> deps[i].ServiceTypeFullName() in memo && memo[deps[i].ServiceTypeFullName()] == deps[i]
  }

  /** Every dependency of every decorator is memoized. */
  ghost predicate DecoratorsMemoized(decorators: seq<ResolvedDecorator>, memo: map<string, ResolvedService>)
  {
    forall j :: 0 <= j < |decorators| ==> AllMemoized(decorators[j].dependencies, memo)
  }

  /** The service's own dependencies and its decorators' are memo table entries. */
  ghost predicate DependenciesMemoized(rs: ResolvedService, memo: map<string, ResolvedService>)
  {
    AllMemoized(rs.dependencies, memo) && DecoratorsMemoized(rs.decorators, memo)
  }

  /** A resolved decorator: its ladder choice, and one dependency per non-decorated parameter. */
  ghost predicate DecoratorResolved(rd: ResolvedDecorator, info: DecoratorInfo, reg: ServiceRegistration)
  {
    && rd.sourceDecorator == info
    && ChooseDecoratorConstructor(info, reg.serviceTypeFullName) == Selected(rd.selectedConstructor)
    && DependencyTypes(rd.dependencies) == ToResolve(rd.selectedConstructor.parameterTypeFullNames, Some(reg.serviceTypeFullName))
    && NoCaptive(reg.lifetime, rd.dependencies)
  }

  /**
   * A resolved service: the ladder's constructor, one dependency per parameter in
   * order, no captive dependency, and every declared decorator resolved in order.
   */
  ghost predicate WellResolved(rs: ResolvedService)
  {
    var reg := rs.sourceRegistration;
    && ChooseConstructor(reg.implementationType) == Selected(rs.selectedConstructor)
    && DependencyTypes(rs.dependencies) == rs.selectedConstructor.parameterTypeFullNames
    && NoCaptive(reg.lifetime, rs.dependencies)
    && |rs.decorators| == |reg.decorators|
    && forall i :: 0 <= i < |rs.decorators| ==> DecoratorResolved(rs.decorators[i], reg.decorators[i], reg)
  }

  /** `m1` keeps every entry of `m0`. */
  ghost predicate Extends(m0: map<string, ResolvedService>, m1: map<string, ResolvedService>)
  {
    forall k :: k in m0 ==> k in m1 && m1[k] == m0[k]
  }

  lemma AllMemoizedExtends(deps: seq<ResolvedService>, m0: map<string, ResolvedService>, m1: map<string, ResolvedService>)
    requires AllMemoized(deps, m0) && Extends(m0, m1)
    ensures AllMemoized(deps, m1)
  {
  }

  lemma DependenciesMemoizedExtends(rs: ResolvedService, m0: map<string, ResolvedService>, m1: map<string, ResolvedService>)
    requires DependenciesMemoized(rs, m0) && Extends(m0, m1)
    ensures DependenciesMemoized(rs, m1)
  {
    forall j | 0 <= j < |rs.decorators| ensures AllMemoized(rs.decorators[j].dependencies, m1) {
      AllMemoizedExtends(rs.decorators[j].dependencies, m0, m1);
    }
  }

  /** The decorator loop's memoized dependencies survive a later step, and a new decorator's join them. */
  lemma DecoratorsMemoizedStep(
    decorators: seq<ResolvedDecorator>, m0: map<string, ResolvedService>, m1: map<string, ResolvedService>,
    r: Option<ResolvedDecorator>)
    requires DecoratorsMemoized(decorators, m0) && Extends(m0, m1)
    requires r.Some? ==> AllMemoized(r.value.dependencies, m1)
    ensures DecoratorsMemoized(if r.Some? then decorators + [r.value] else decorators, m1)
  {
    var ds := if r.Some? then decorators + [r.value] else decorators;
    forall j | 0 <= j < |ds| ensures AllMemoized(ds[j].dependencies, m1) {
      if j < |decorators| {
        assert ds[j] == decorators[j];
        AllMemoizedExtends(decorators[j].dependencies, m0, m1);
      }
    }
  }

  /**
   * How the builder's state may evolve across one resolution call: diagnostics are
   * only appended, memo entries are never removed or replaced, insertion order only
   * grows, and once a diagnostic exists nothing more is memoized.
   */
  ghost predicate Progress(
    d0: seq<Diagnostic>, m0: map<string, ResolvedService>, o0: seq<string>,
    d1: seq<Diagnostic>, m1: map<string, ResolvedService>, o1: seq<string>)
  {
    && d0 <= d1
    && Extends(m0, m1)
    && o0 <= o1
    && (d0 != [] ==> m1 == m0 && o1 == o0)
  }

  lemma ProgressTransitive(
    d0: seq<Diagnostic>, m0: map<string, ResolvedService>, o0: seq<string>,
    d1: seq<Diagnostic>, m1: map<string, ResolvedService>, o1: seq<string>,
    d2: seq<Diagnostic>, m2: map<string, ResolvedService>, o2: seq<string>)
    requires Progress(d0, m0, o0, d1, m1, o1) && Progress(d1, m1, o1, d2, m2, o2)
    ensures Progress(d0, m0, o0, d2, m2, o2)
  {
  }

  /** The keys on `path` that were not memoized are still not memoized. */
  ghost predicate KeptOut(path: seq<string>, m0: map<string, ResolvedService>, m1: map<string, ResolvedService>)
  {
    forall k :: k in path && k !in m0 ==> k !in m1
  }

  /**
   * Memoizing a freshly resolved service while no error exists: the entry is new, the
   * state still progresses, and the keys below it on the path stay unmemoized.
   */
  lemma MemoizeFresh(
    d0: seq<Diagnostic>, m0: map<string, ResolvedService>, o0: seq<string>,
    d: seq<Diagnostic>, m: map<string, ResolvedService>, o: seq<string>,
    path: seq<string>, key: string, rs: ResolvedService)
    requires Progress(d0, m0, o0, d, m, o) && KeptOut(path + [key], m0, m)
    requires key !in m0 && key !in path && d == []
    ensures key !in m
    ensures Progress(d0, m0, o0, d, m[key := rs], o + [key])
    ensures KeptOut(path, m0, m[key := rs])
  {
    assert key in path + [key];
  }

  /** NDI0004's cycle text: the path read bottom to top, then the closing key, joined by " -> ". */
  function CyclePath(path: seq<string>, key: string): string
  {
    Join(" -> ", Names(path)) + " -> " + ShortName(key)
  }

  function Names(path: seq<string>): (r: seq<string>)
    ensures |r| == |path|
    ensures forall i :: 0 <= i < |path| ==> r[i] == ShortName(path[i])
  {
    seq(|path|, i requires 0 <= i < |path| => ShortName(path[i]))
  }

  /**
   * NDI0004: the name of the service on top of the path, and the whole cycle (the path
   * bottom to top, then the key that closes it) joined by " -> ".
   */
  function CycleDiagnostic(path: seq<string>, key: string): (r: Diagnostic)
    requires path != []
    ensures r.id == NDI0004 && WellFormed(r)
    ensures r.args == [Text(Names(path)[|path| - 1]), Text(Join(" -> ", Names(path + [key])))]
  {
    CyclePathJoinsClosedPath(path, key);
    Diagnostic(NDI0004, [Text(ShortName(path[|path| - 1])), Text(CyclePath(path, key))])
  }

  /** The cycle text lists the whole path and the closing key, each once, bottom to top. */
  lemma CyclePathJoinsClosedPath(path: seq<string>, key: string)
    requires path != []
    ensures CyclePath(path, key) == Join(" -> ", Names(path + [key]))
  {
    assert Names(path + [key]) == Names(path) + [ShortName(key)];
    JoinSnoc(" -> ", Names(path), ShortName(key));
  }

  /** The memo values in insertion order: `_resolvedServices.Values`. */
  function MemoValues(order: seq<string>, memo: map<string, ResolvedService>): (r: seq<ResolvedService>)
    requires forall k :: k in order ==> k in memo
    ensures |r| == |order|
    ensures forall i :: 0 <= i < |order| ==> r[i] == memo[order[i]]
  {
    seq(|order|, i requires 0 <= i < |order| => memo[order[i]])
  }

  /** `GetContainingTypeDeclarations`: one partial class header per enclosing type, outermost first. */
  method GetContainingTypeDeclarations(enclosingTypes: seq<string>) returns (declarations: seq<string>)
    ensures |declarations| == |enclosingTypes|
    ensures forall i :: 0 <= i < |declarations| ==>
              declarations[i] == "public partial class " + enclosingTypes[|enclosingTypes| - 1 - i]
  {
    // `enclosingTypes` lists the containing types from the nearest outwards; each is
    // inserted at the front, so the outermost ends up first.
    declarations := [];
    var n := 0;
    while n < |enclosingTypes|
      invariant 0 <= n <= |enclosingTypes|
      invariant |declarations| == n
      invariant forall i :: 0 <= i < n ==> declarations[i] == "public partial class " + enclosingTypes[n - 1 - i]
    {
      declarations := ["public partial class " + enclosingTypes[n]] + declarations;
      n := n + 1;
    }
  }

  // ---------------------------------------------------------------------------
  // The path stack

  /** The `Stack<ITypeSymbol>` threaded through the resolution; `items` is bottom to top. */
  class PathStack {
    var items: seq<string>

    constructor ()
      ensures items == []
    {
      items := [];
    }

    function Contains(key: string): (b: bool)
      reads this
      ensures b <==> key in items
    {
      key in items
    }

    method Push(key: string)
      modifies this
      ensures items == old(items) + [key]
    {
      items := items + [key];
    }

    method Pop() returns (key: string)
      requires items != []
      modifies this
      ensures old(items) == items + [key]
      ensures items == old(items)[..|old(items)| - 1]
    {
      key := items[|items| - 1];
      items := items[..|items| - 1];
    }
  }

  // ---------------------------------------------------------------------------
  // The builder

  /** Every diagnostic fills exactly its descriptor's placeholders. */
  ghost predicate AllWellFormed(ds: seq<Diagnostic>)
  {
    forall i :: 0 <= i < |ds| ==> WellFormed(ds[i])
  }

  /**
   * What `ResolveParameters` has achieved after its first `i` parameters: started in
   * state (`d0`, `m0`, `o0`) with `path` on the stack, it is in state (`d`, `m`, `o`)
   * holding `deps`.
   */
  ghost predicate ParametersResolved(
    parameters: seq<string>, i: nat, parent: ServiceRegistration, exclude: Option<string>,
    registrations: map<string, ServiceRegistration>, deps: seq<ResolvedService>, path: seq<string>,
    d0: seq<Diagnostic>, m0: map<string, ResolvedService>, o0: seq<string>,
    d: seq<Diagnostic>, m: map<string, ResolvedService>, o: seq<string>)
    requires i <= |parameters|
  {
    && Progress(d0, m0, o0, d, m, o)
    && KeptOut(path, m0, m)
    && AllMemoized(deps, m)
    && NoCaptive(parent.lifetime, deps)
    && (d == [] ==> DependencyTypes(deps) == ToResolve(parameters[..i], exclude))
    && (forall j :: 0 <= j < i ==> ReportedIn(parameters[j], parent, exclude, registrations, d[|d0|..]))
  }

  /** Before the first parameter nothing has been resolved and the state is as it was. */
  lemma ParametersStart(
    parameters: seq<string>, parent: ServiceRegistration, exclude: Option<string>,
    registrations: map<string, ServiceRegistration>, path: seq<string>,
    d0: seq<Diagnostic>, m0: map<string, ResolvedService>, o0: seq<string>)
    ensures ParametersResolved(parameters, 0, parent, exclude, registrations, [], path, d0, m0, o0, d0, m0, o0)
  {
    assert parameters[..0] == [];
  }

  /** The excluded (decorated-service) parameter changes nothing. */
  lemma SkipStep(
    parameters: seq<string>, i: nat, parent: ServiceRegistration, exclude: Option<string>,
    registrations: map<string, ServiceRegistration>, deps: seq<ResolvedService>, path: seq<string>,
    d0: seq<Diagnostic>, m0: map<string, ResolvedService>, o0: seq<string>,
    d: seq<Diagnostic>, m: map<string, ResolvedService>, o: seq<string>)
    requires i < |parameters|
    requires ParametersResolved(parameters, i, parent, exclude, registrations, deps, path, d0, m0, o0, d, m, o)
    requires ClassifyParameter(parameters[i], parent, exclude, registrations).Skipped?
    ensures ParametersResolved(parameters, i + 1, parent, exclude, registrations, deps, path, d0, m0, o0, d, m, o)
  {
    assert parameters[..i + 1][..i] == parameters[..i];
  }

  /** A missing or captive parameter appends its diagnostic and is skipped. */
  lemma ReportStep(
    parameters: seq<string>, i: nat, parent: ServiceRegistration, exclude: Option<string>,
    registrations: map<string, ServiceRegistration>, deps: seq<ResolvedService>, path: seq<string>,
    d0: seq<Diagnostic>, m0: map<string, ResolvedService>, o0: seq<string>,
    d: seq<Diagnostic>, m: map<string, ResolvedService>, o: seq<string>, x: Diagnostic)
    requires i < |parameters|
    requires ParametersResolved(parameters, i, parent, exclude, registrations, deps, path, d0, m0, o0, d, m, o)
    requires ClassifyParameter(parameters[i], parent, exclude, registrations) == Reported(x)
    ensures ParametersResolved(parameters, i + 1, parent, exclude, registrations, deps, path, d0, m0, o0, d + [x], m, o)
  {
    assert (d + [x])[|d0|..] == d[|d0|..] + [x];
    ReportedInGrows(parameters, i, parent, exclude, registrations, d[|d0|..], (d + [x])[|d0|..]);
  }

  /**
   * A registered, non-captive parameter: the recursive resolution moved the state
   * from (`d`, `m`, `o`) to (`d'`, `m'`, `o'`) and returned `r`, which is kept when present.
   */
  lemma RecurseStep(
    parameters: seq<string>, i: nat, parent: ServiceRegistration, exclude: Option<string>,
    registrations: map<string, ServiceRegistration>, deps: seq<ResolvedService>, path: seq<string>,
    d0: seq<Diagnostic>, m0: map<string, ResolvedService>, o0: seq<string>,
    d: seq<Diagnostic>, m: map<string, ResolvedService>, o: seq<string>,
    dependency: ServiceRegistration, r: Option<ResolvedService>,
    d': seq<Diagnostic>, m': map<string, ResolvedService>, o': seq<string>)
    requires i < |parameters|
    requires ParametersResolved(parameters, i, parent, exclude, registrations, deps, path, d0, m0, o0, d, m, o)
    requires ClassifyParameter(parameters[i], parent, exclude, registrations) == Recurse(dependency)
    requires dependency.serviceTypeFullName == parameters[i]
    requires Progress(d, m, o, d', m', o') && KeptOut(path, m, m')
    requires r.None? ==> d' != []
    requires r.Some? ==> dependency.serviceTypeFullName in m' && m'[dependency.serviceTypeFullName] == r.value
    requires r.Some? ==> r.value.sourceRegistration == dependency
    ensures ParametersResolved(parameters, i + 1, parent, exclude, registrations,
                               if r.Some? then deps + [r.value] else deps, path, d0, m0, o0, d', m', o')
  {
    assert parameters[..i + 1] == parameters[..i] + [parameters[i]];
    StateStep(path, d0, m0, o0, d, m, o, d', m', o');
    AllMemoizedExtends(deps, m, m');
    if r.Some? {
      DependencyTypesSnoc(deps, r.value);
      DependencySnoc(parent.lifetime, deps, m', r.value);
    }
    assert d[|d0|..] <= d'[|d0|..];
    ReportedInGrows(parameters, i, parent, exclude, registrations, d[|d0|..], d'[|d0|..]);
  }

  /** Two consecutive resolution calls compose into one. */
  lemma StateStep(
    path: seq<string>,
    d0: seq<Diagnostic>, m0: map<string, ResolvedService>, o0: seq<string>,
    d: seq<Diagnostic>, m: map<string, ResolvedService>, o: seq<string>,
    d': seq<Diagnostic>, m': map<string, ResolvedService>, o': seq<string>)
    requires Progress(d0, m0, o0, d, m, o) && KeptOut(path, m0, m)
    requires Progress(d, m, o, d', m', o') && KeptOut(path, m, m')
    ensures Progress(d0, m0, o0, d', m', o') && KeptOut(path, m0, m')
  {
    ProgressTransitive(d0, m0, o0, d, m, o, d', m', o');
  }

  /** A memoized, non-captive dependency extends the dependency list. */
  lemma DependencySnoc(parentLifetime: ServiceLifetime, deps: seq<ResolvedService>, m: map<string, ResolvedService>, x: ResolvedService)
    requires AllMemoized(deps, m) && NoCaptive(parentLifetime, deps)
    requires x.ServiceTypeFullName() in m && m[x.ServiceTypeFullName()] == x
    requires !Outlives(parentLifetime, x.Lifetime())
    ensures AllMemoized(deps + [x], m) && NoCaptive(parentLifetime, deps + [x])
  {
    var deps' := deps + [x];
    forall j | 0 <= j < |deps'|
      ensures deps'[j].ServiceTypeFullName() in m && m[deps'[j].ServiceTypeFullName()] == deps'[j]
      ensures !Outlives(parentLifetime, deps'[j].Lifetime())
    {
      if j < |deps| {
        assert deps'[j] == deps[j];
      }
    }
  }

  /** Once every parameter is handled, the loop's summary is the method's postcondition. */
  /**
   * What `ResolveParameters` promises, started in state (`d0`, `m0`, `o0`) with `path` on
   * the stack and ending in state (`d`, `m`, `o`) with dependencies `deps`: the state only
   * grew, the services on the path stayed unmemoized, every dependency is memoized and none
   * is captive; with no error, exactly the non-excluded parameters were resolved, in order;
   * and every missing or captive parameter was reported, whatever the other parameters did.
   */
  ghost predicate ParametersOutcome(
    parameters: seq<string>, parent: ServiceRegistration, exclude: Option<string>,
    registrations: map<string, ServiceRegistration>, deps: seq<ResolvedService>, path: seq<string>,
    d0: seq<Diagnostic>, m0: map<string, ResolvedService>, o0: seq<string>,
    d: seq<Diagnostic>, m: map<string, ResolvedService>, o: seq<string>)
  {
    && Progress(d0, m0, o0, d, m, o) && KeptOut(path, m0, m)
    && AllMemoized(deps, m) && NoCaptive(parent.lifetime, deps)
    && (d == [] ==> DependencyTypes(deps) == ToResolve(parameters, exclude))
    && (forall j :: 0 <= j < |parameters| ==> ReportedIn(parameters[j], parent, exclude, registrations, d[|d0|..]))
  }

  lemma ParametersDone(
    parameters: seq<string>, parent: ServiceRegistration, exclude: Option<string>,
    registrations: map<string, ServiceRegistration>, deps: seq<ResolvedService>, path: seq<string>,
    d0: seq<Diagnostic>, m0: map<string, ResolvedService>, o0: seq<string>,
    d: seq<Diagnostic>, m: map<string, ResolvedService>, o: seq<string>)
    requires ParametersResolved(parameters, |parameters|, parent, exclude, registrations, deps, path, d0, m0, o0, d, m, o)
    ensures ParametersOutcome(parameters, parent, exclude, registrations, deps, path, d0, m0, o0, d, m, o)
  {
    assert parameters[..|parameters|] == parameters;
  }

  /**
   * What `ResolveService`'s decorator loop has achieved after the first `i` decorators
   * of `reg`: started in state (`d0`, `m0`, `o0`) with `path` on the stack, it is in
   * state (`d`, `m`, `o`) holding `decorators`.
   */
  ghost predicate DecoratorsResolved(
    reg: ServiceRegistration, i: nat, decorators: seq<ResolvedDecorator>, path: seq<string>,
    d0: seq<Diagnostic>, m0: map<string, ResolvedService>, o0: seq<string>,
    d: seq<Diagnostic>, m: map<string, ResolvedService>, o: seq<string>)
    requires i <= |reg.decorators|
  {
    && Progress(d0, m0, o0, d, m, o)
    && KeptOut(path, m0, m)
    && DecoratorsMemoized(decorators, m)
    && (d == [] ==>
          && |decorators| == i
          && forall j :: 0 <= j < i ==> DecoratorResolved(decorators[j], reg.decorators[j], reg))
  }

  /** One decorator more: it was resolved in state (`d'`, `m'`, `o'`), or reported and skipped. */
  lemma DecoratorStep(
    reg: ServiceRegistration, i: nat, decorators: seq<ResolvedDecorator>, path: seq<string>,
    d0: seq<Diagnostic>, m0: map<string, ResolvedService>, o0: seq<string>,
    d: seq<Diagnostic>, m: map<string, ResolvedService>, o: seq<string>,
    r: Option<ResolvedDecorator>,
    d': seq<Diagnostic>, m': map<string, ResolvedService>, o': seq<string>)
    requires i < |reg.decorators|
    requires DecoratorsResolved(reg, i, decorators, path, d0, m0, o0, d, m, o)
    requires Progress(d, m, o, d', m', o') && KeptOut(path, m, m')
    requires r.None? ==> d' != []
    requires r.Some? && d' == [] ==> DecoratorResolved(r.value, reg.decorators[i], reg)
    requires r.Some? ==> AllMemoized(r.value.dependencies, m')
    ensures DecoratorsResolved(reg, i + 1, if r.Some? then decorators + [r.value] else decorators, path,
                               d0, m0, o0, d', m', o')
  {
    StateStep(path, d0, m0, o0, d, m, o, d', m', o');
    DecoratorsMemoizedStep(decorators, m, m', r);
    if r.Some? && d' == [] {
      DecoratorSnoc(reg, i, decorators, r.value);
    }
  }

  /** A resolved decorator extends the list of those resolved before it. */
  lemma DecoratorSnoc(reg: ServiceRegistration, i: nat, decorators: seq<ResolvedDecorator>, x: ResolvedDecorator)
    requires i < |reg.decorators| && |decorators| == i
    requires forall j :: 0 <= j < i ==> DecoratorResolved(decorators[j], reg.decorators[j], reg)
    requires DecoratorResolved(x, reg.decorators[i], reg)
    ensures forall j :: 0 <= j < i + 1 ==> DecoratorResolved((decorators + [x])[j], reg.decorators[j], reg)
  {
    forall j | 0 <= j < i + 1
      ensures DecoratorResolved((decorators + [x])[j], reg.decorators[j], reg)
    {
      if j < i {
        assert (decorators + [x])[j] == decorators[j];
      }
    }
  }

  /** After the first `i` registrations of `Build`'s loop: each is memoized, or an error was recorded. */
  ghost predicate ResolvedOrReported(regs: seq<ServiceRegistration>, i: nat, d: seq<Diagnostic>, m: map<string, ResolvedService>)
    requires i <= |regs|
  {
    d != [] || forall j :: 0 <= j < i ==> regs[j].serviceTypeFullName in m
  }

  /** One more registration of `Build`'s loop, whose resolution returned `r` in state (`d'`, `m'`, `o'`). */
  lemma BuildStep(
    regs: seq<ServiceRegistration>, i: nat,
    d: seq<Diagnostic>, m: map<string, ResolvedService>, o: seq<string>,
    r: Option<ResolvedService>,
    d': seq<Diagnostic>, m': map<string, ResolvedService>, o': seq<string>)
    requires i < |regs|
    requires ResolvedOrReported(regs, i, d, m)
    requires Progress(d, m, o, d', m', o')
    requires r.None? ==> d' != []
    requires r.Some? ==> regs[i].serviceTypeFullName in m'
    ensures ResolvedOrReported(regs, i + 1, d', m')
  {
    if d' == [] {
      forall j | 0 <= j < i + 1 ensures regs[j].serviceTypeFullName in m' {
        if j < i {
          assert regs[j].serviceTypeFullName in m;
        }
      }
    }
  }

  class GraphBuilder {
    const description: ServiceProviderDescription
    /** `_registrationMap`: filled by the constructor, read-only afterwards. */
    const registrationMap: map<string, ServiceRegistration>
    /** `_diagnostics`: appended to, never shortened. */
    var diagnostics: seq<Diagnostic>
    /** `_resolvedServices`. */
    var resolvedServices: map<string, ResolvedService>
    /** The keys of `_resolvedServices` in insertion order (the dictionary's enumeration order). */
    var resolvedOrder: seq<string>

    /** The registration map is the constructor's, each entry keyed by its own service type. */
    ghost predicate MapOk()
    {
      && registrationMap == RegistrationMapOf(description.registrations)
      && forall k :: k in registrationMap ==> registrationMap[k].serviceTypeFullName == k
    }

    /**
     * The memo table holds, for registered service types only, that type's registration
     * resolved as the builder's rules demand; `order` lists its keys once each.
     */
    ghost predicate MemoOk(memo: map<string, ResolvedService>, order: seq<string>)
    {
      && Distinct(order)
      && (forall k :: k in order <==> k in memo)
      && (forall i :: 0 <= i < |order| ==> EntryOk(memo, order[i]))
    }

    /** Entry `k`: its own registration, resolved as the rules demand. */
    ghost predicate EntryOk(memo: map<string, ResolvedService>, k: string)
    {
      && k in memo
      && k in registrationMap
      && memo[k].sourceRegistration == registrationMap[k]
      && WellResolved(memo[k])
      && DependenciesMemoized(memo[k], memo)
    }

    /**
     * The builder's invariant: the map is the constructor's, every diagnostic is
     * well-formed and has a cause, and the memo table is valid.
     */
    ghost predicate Valid()
      reads this
    {
      && MapOk()
      && AllWellFormed(diagnostics)
      && AllExplained(registrationMap, description.registrations, diagnostics)
      && MemoOk(resolvedServices, resolvedOrder)
    }

    /** A path is a duplicate-free sequence of registered service types. */
    ghost predicate PathOk(path: seq<string>)
    {
      Distinct(path) && forall k :: k in path ==> k in registrationMap
    }

    /**
     * `reg` is being resolved: it is registered, its type is on top of the path, and the
     * path is a duplicate-free chain of dependencies.
     */
    ghost predicate Resolving(path: seq<string>, reg: ServiceRegistration)
    {
      && PathOk(path) && PathChain(registrationMap, path)
      && path != [] && path[|path| - 1] == reg.serviceTypeFullName
      && reg.serviceTypeFullName in registrationMap && registrationMap[reg.serviceTypeFullName] == reg
    }

    /** Pushing an unvisited registered type keeps the path valid, and the path is shorter than the map. */
    lemma PathPush(path: seq<string>, key: string)
      requires PathOk(path) && key !in path && key in registrationMap
      ensures PathOk(path + [key])
      ensures |path| < |registrationMap.Keys|
    {
      DistinctSnoc(path, key);
      DistinctLengthBound(path + [key], registrationMap.Keys);
    }

    /** Every memoized key has a valid entry. */
    lemma EntryOf(memo: map<string, ResolvedService>, order: seq<string>, k: string)
      requires MemoOk(memo, order) && k in memo
      ensures EntryOk(memo, k)
    {
      var i :| 0 <= i < |order| && order[i] == k;
    }

    /** Adding a well-resolved service under a fresh key keeps the memo table valid. */
    lemma MemoInsert(memo: map<string, ResolvedService>, order: seq<string>, key: string, rs: ResolvedService)
      requires MemoOk(memo, order)
      requires key !in memo && key in registrationMap
      requires rs.sourceRegistration == registrationMap[key]
      requires WellResolved(rs) && DependenciesMemoized(rs, memo)
      ensures MemoOk(memo[key := rs], order + [key])
    {
      var memo', order' := memo[key := rs], order + [key];
      forall i | 0 <= i < |order'| ensures EntryOk(memo', order'[i]) {
        if i < |order| {
          assert order'[i] == order[i];
          EntryKept(memo, order[i], key, rs);
        } else {
          DependenciesMemoizedExtends(rs, memo, memo');
        }
      }
      assert key !in order;
      DistinctSnoc(order, key);
    }

    /** An entry stays valid when another key is added. */
    lemma EntryKept(memo: map<string, ResolvedService>, k: string, key: string, rs: ResolvedService)
      requires EntryOk(memo, k) && key !in memo
      ensures EntryOk(memo[key := rs], k)
    {
      assert memo[key := rs][k] == memo[k];
      DependenciesMemoizedExtends(memo[k], memo, memo[key := rs]);
    }

    constructor (description: ServiceProviderDescription)
      ensures this.description == description
      ensures registrationMap == RegistrationMapOf(description.registrations)
      ensures diagnostics == DuplicateDiagnosticsOf(description.registrations)
      ensures resolvedServices == map[] && resolvedOrder == []
      ensures Valid()
    {
      var regs := description.registrations;
      var m: map<string, ServiceRegistration> := map[];
      var ds: seq<Diagnostic> := [];
      for i := 0 to |regs|
        invariant m == RegistrationMapOf(regs[..i])
        invariant ds == DuplicateDiagnosticsOf(regs[..i])
      {
        assert regs[..i + 1][..i] == regs[..i];
        var reg := regs[i];
        if reg.serviceTypeFullName in m {
          ds := ds + [DuplicateRegistrationDiagnostic(reg)];
        } else {
          m := m[reg.serviceTypeFullName := reg];
        }
      }
      assert regs[..|regs|] == regs;
      RegistrationMapSelfKeyed(regs);
      DuplicatesAreNDI0010(regs);
      DuplicatesExplained(m, regs);
      this.description := description;
      registrationMap := m;
      diagnostics := ds;
      resolvedServices := map[];
      resolvedOrder := [];
    }

    /** `_diagnostics.Add(d)`, for a well-formed diagnostic with cause `c`. */
    method Report(d: Diagnostic, ghost c: Cause)
      requires Valid()
      requires WellFormed(d) && Explains(registrationMap, description.registrations, c, d)
      modifies this`diagnostics
      ensures Valid()
      ensures diagnostics == old(diagnostics) + [d]
    {
      ExplainedSnoc(registrationMap, description.registrations, diagnostics, c, d);
      diagnostics := diagnostics + [d];
    }

    /** `SelectConstructor`: the ladder's choice, appending its diagnostic on rejection. */
    method SelectConstructor(impl: ServiceImplementationType, ghost owner: string) returns (ctor: Option<ConstructorInfo>)
      requires Valid()
      requires owner in registrationMap && registrationMap[owner].implementationType == impl
      modifies this`diagnostics
      ensures Valid()
      ensures ChooseConstructor(impl).Selected? ==>
                ctor == Some(ChooseConstructor(impl).ctor) && diagnostics == old(diagnostics)
      ensures ChooseConstructor(impl).Rejected? ==>
                ctor == None && diagnostics == old(diagnostics) + [ChooseConstructor(impl).diagnostic]
    {
      var selection := ChooseConstructor(impl);
      match selection
      case Selected(c) =>
        ctor := Some(c);
      case Rejected(d) =>
        Report(d, ConstructorRejected(owner));
        ctor := None;
    }

    /** `SelectDecoratorConstructor`: as `SelectConstructor`, for a decorator of `serviceToDecorate`. */
    method SelectDecoratorConstructor(decorator: DecoratorInfo, serviceToDecorate: string) returns (ctor: Option<ConstructorInfo>)
      requires Valid()
      requires serviceToDecorate in registrationMap && decorator in registrationMap[serviceToDecorate].decorators
      modifies this`diagnostics
      ensures Valid()
      ensures ChooseDecoratorConstructor(decorator, serviceToDecorate).Selected? ==>
                ctor == Some(ChooseDecoratorConstructor(decorator, serviceToDecorate).ctor) &&
                diagnostics == old(diagnostics)
      ensures ChooseDecoratorConstructor(decorator, serviceToDecorate).Rejected? ==>
                ctor == None &&
                diagnostics == old(diagnostics) + [ChooseDecoratorConstructor(decorator, serviceToDecorate).diagnostic]
    {
      var selection := ChooseDecoratorConstructor(decorator, serviceToDecorate);
      match selection
      case Selected(c) =>
        ctor := Some(c);
      case Rejected(d) =>
        Report(d, DecoratorRejected(serviceToDecorate, decorator));
        ctor := None;
    }

    /**
     * `ResolveService`. Every diagnostic is an error (`AllDescriptorsAreErrors`), so the
     * contracts write "an error has been recorded" as `diagnostics != []`.
     */
    method ResolveService(registration: ServiceRegistration, path: PathStack) returns (r: Option<ResolvedService>)
      requires Valid()
      requires registration.serviceTypeFullName in registrationMap
      requires registrationMap[registration.serviceTypeFullName] == registration
      requires PathOk(path.items) && PathChain(registrationMap, path.items)
      // the service is a dependency of the one on top of the path
      requires path.items != [] ==> DependsOn(registrationMap, path.items[|path.items| - 1], registration.serviceTypeFullName)
      modifies this`diagnostics, this`resolvedServices, this`resolvedOrder, path
      decreases |registrationMap.Keys| - |path.items|, 1
      ensures Valid()
      ensures path.items == old(path.items)
      ensures Progress(old(diagnostics), old(resolvedServices), old(resolvedOrder), diagnostics, resolvedServices, resolvedOrder)
      ensures KeptOut(old(path.items), old(resolvedServices), resolvedServices)
      // memoized: the cached node, nothing reported
      ensures registration.serviceTypeFullName in old(resolvedServices) ==>
                && r == Some(old(resolvedServices)[registration.serviceTypeFullName])
                && diagnostics == old(diagnostics)
                && resolvedServices == old(resolvedServices) && resolvedOrder == old(resolvedOrder)
      // on the path: exactly one NDI0004, no result, memo untouched
      ensures registration.serviceTypeFullName !in old(resolvedServices) && registration.serviceTypeFullName in old(path.items) ==>
                && r.None?
                && diagnostics == old(diagnostics) + [CycleDiagnostic(old(path.items), registration.serviceTypeFullName)]
                && resolvedServices == old(resolvedServices) && resolvedOrder == old(resolvedOrder)
      ensures r.Some? ==> registration.serviceTypeFullName in resolvedServices
      ensures r.Some? ==> resolvedServices[registration.serviceTypeFullName] == r.value
      ensures r.Some? ==> r.value.sourceRegistration == registration
      // failure is never silent
      ensures r.None? ==> diagnostics != []
      // a new node is memoized only while no error exists anywhere
      ensures registration.serviceTypeFullName !in old(resolvedServices) && r.Some? ==> diagnostics == []
    {
      var key := registration.serviceTypeFullName;
      if key in resolvedServices {
        EntryOf(resolvedServices, resolvedOrder, key);
        return Some(resolvedServices[key]);
      }

      if path.Contains(key) {
        var d := CycleDiagnostic(path.items, key);
        Report(d, Cycle(path.items, key));
        return None;
      }

      r := ResolveFresh(registration, path);
    }

    /**
     * `ResolveService` past its two early exits: push, select the constructor, resolve
     * its parameters and the decorators, pop, and memoize only if no error exists.
     */
    method ResolveFresh(registration: ServiceRegistration, path: PathStack) returns (r: Option<ResolvedService>)
      requires Valid()
      requires registration.serviceTypeFullName in registrationMap
      requires registrationMap[registration.serviceTypeFullName] == registration
      requires PathOk(path.items) && PathChain(registrationMap, path.items)
      requires path.items != [] ==> DependsOn(registrationMap, path.items[|path.items| - 1], registration.serviceTypeFullName)
      requires registration.serviceTypeFullName !in resolvedServices
      requires registration.serviceTypeFullName !in path.items
      modifies this`diagnostics, this`resolvedServices, this`resolvedOrder, path
      decreases |registrationMap.Keys| - |path.items|, 0
      ensures Valid()
      ensures path.items == old(path.items)
      ensures Progress(old(diagnostics), old(resolvedServices), old(resolvedOrder), diagnostics, resolvedServices, resolvedOrder)
      ensures KeptOut(old(path.items), old(resolvedServices), resolvedServices)
      ensures r.None? ==> diagnostics != []
      ensures r.Some? ==>
                && registration.serviceTypeFullName in resolvedServices
                && resolvedServices[registration.serviceTypeFullName] == r.value
                && r.value.sourceRegistration == registration
                && diagnostics == []
    {
      var key := registration.serviceTypeFullName;
      PathPush(path.items, key);
      PathChainSnoc(registrationMap, path.items, key);
      path.Push(key);

      var ctor := SelectConstructor(registration.implementationType, key);
      if ctor.None? {
        var _ := path.Pop();
        assert (old(path.items) + [key])[..|old(path.items)|] == old(path.items);
        return None;
      }

      var dependencies, decorators := ResolveDependencies(registration, ctor.value, path);
      ghost var d1, m1, o1 := diagnostics, resolvedServices, resolvedOrder;
      assert Valid();

      var _ := path.Pop();
      assert (old(path.items) + [key])[..|old(path.items)|] == old(path.items);
      assert diagnostics == d1 && resolvedServices == m1 && resolvedOrder == o1;
      assert Valid();

      HasErrorIffNonEmpty(diagnostics);
      if HasError(diagnostics) {
        return None;
      }

      var resolved := ResolvedService(registration, ctor.value, dependencies, decorators);
      ghost var d0, m0, o0 := old(diagnostics), old(resolvedServices), old(resolvedOrder);
      MemoizeFresh(d0, m0, o0, diagnostics, m1, o1, old(path.items), key, resolved);
      Memoize(key, resolved);
      assert resolvedServices == m1[key := resolved] && resolvedOrder == o1 + [key];
      assert Progress(d0, m0, o0, diagnostics, resolvedServices, resolvedOrder);
      return Some(resolved);
    }

    /** `_resolvedServices[key] = resolved` for a fresh, well-resolved service. */
    method Memoize(key: string, resolved: ResolvedService)
      requires Valid()
      requires key !in resolvedServices && key in registrationMap
      requires resolved.sourceRegistration == registrationMap[key]
      requires WellResolved(resolved) && DependenciesMemoized(resolved, resolvedServices)
      modifies this`resolvedServices, this`resolvedOrder
      ensures Valid()
      ensures resolvedServices == old(resolvedServices)[key := resolved]
      ensures resolvedOrder == old(resolvedOrder) + [key]
    {
      MemoInsert(resolvedServices, resolvedOrder, key, resolved);
      resolvedServices := resolvedServices[key := resolved];
      resolvedOrder := resolvedOrder + [key];
    }

    /**
     * The middle of `ResolveService`, with the service on the path: the selected
     * constructor's parameters, then the decorators in declaration order.
     */
    method ResolveDependencies(registration: ServiceRegistration, ctor: ConstructorInfo, path: PathStack)
      returns (dependencies: seq<ResolvedService>, decorators: seq<ResolvedDecorator>)
      requires Valid()
      requires Resolving(path.items, registration)
      requires ChooseConstructor(registration.implementationType) == Selected(ctor)
      modifies this`diagnostics, this`resolvedServices, this`resolvedOrder, path
      decreases |registrationMap.Keys| - |path.items|, 6
      ensures Valid()
      ensures path.items == old(path.items)
      ensures Progress(old(diagnostics), old(resolvedServices), old(resolvedOrder), diagnostics, resolvedServices, resolvedOrder)
      ensures KeptOut(old(path.items), old(resolvedServices), resolvedServices)
      ensures diagnostics == [] ==> WellResolved(ResolvedService(registration, ctor, dependencies, decorators))
      ensures DependenciesMemoized(ResolvedService(registration, ctor, dependencies, decorators), resolvedServices)
    {
      dependencies := ResolveParameters(ctor.parameterTypeFullNames, registration, path, None, None);
      ToResolveNone(ctor.parameterTypeFullNames);
      ghost var d1, m1, o1 := diagnostics, resolvedServices, resolvedOrder;
      decorators := ResolveDecorators(registration, path);
      ProgressTransitive(old(diagnostics), old(resolvedServices), old(resolvedOrder), d1, m1, o1,
                         diagnostics, resolvedServices, resolvedOrder);
      AllMemoizedExtends(dependencies, m1, resolvedServices);
    }

    /** `ResolveService`'s decorator loop: each declared decorator in order, a failed one skipped. */
    method ResolveDecorators(registration: ServiceRegistration, path: PathStack)
      returns (decorators: seq<ResolvedDecorator>)
      requires Valid()
      requires Resolving(path.items, registration)
      modifies this`diagnostics, this`resolvedServices, this`resolvedOrder, path
      decreases |registrationMap.Keys| - |path.items|, 5
      ensures Valid()
      ensures path.items == old(path.items)
      ensures Progress(old(diagnostics), old(resolvedServices), old(resolvedOrder), diagnostics, resolvedServices, resolvedOrder)
      ensures KeptOut(old(path.items), old(resolvedServices), resolvedServices)
      ensures diagnostics == [] ==>
                && |decorators| == |registration.decorators|
                && forall j :: 0 <= j < |decorators| ==> DecoratorResolved(decorators[j], registration.decorators[j], registration)
      ensures DecoratorsMemoized(decorators, resolvedServices)
    {
      decorators := [];
      ghost var d0, m0, o0, p0 := diagnostics, resolvedServices, resolvedOrder, path.items;
      for i := 0 to |registration.decorators|
        invariant Valid()
        invariant path.items == p0
        invariant DecoratorsResolved(registration, i, decorators, p0, d0, m0, o0, diagnostics, resolvedServices, resolvedOrder)
      {
        ghost var d1, m1, o1 := diagnostics, resolvedServices, resolvedOrder;
        var decorator := ResolveDecorator(registration.decorators[i], registration, path);
        DecoratorStep(registration, i, decorators, p0, d0, m0, o0, d1, m1, o1, decorator,
                      diagnostics, resolvedServices, resolvedOrder);
        if decorator.Some? {
          decorators := decorators + [decorator.value];
        }
      }
    }

    /** One iteration of `ResolveService`'s decorator loop: the decorator's constructor and its other parameters. */
    method ResolveDecorator(decorator: DecoratorInfo, registration: ServiceRegistration, path: PathStack)
      returns (resolved: Option<ResolvedDecorator>)
      requires Valid()
      requires Resolving(path.items, registration) && decorator in registration.decorators
      modifies this`diagnostics, this`resolvedServices, this`resolvedOrder, path
      decreases |registrationMap.Keys| - |path.items|, 4
      ensures Valid()
      ensures path.items == old(path.items)
      ensures Progress(old(diagnostics), old(resolvedServices), old(resolvedOrder), diagnostics, resolvedServices, resolvedOrder)
      ensures KeptOut(old(path.items), old(resolvedServices), resolvedServices)
      // a decorator without a usable constructor is skipped, and exactly its rejection recorded
      ensures resolved.None? ==> diagnostics != []
      ensures resolved.None? <==> ChooseDecoratorConstructor(decorator, registration.serviceTypeFullName).Rejected?
      ensures resolved.None? ==>
                && diagnostics == old(diagnostics) + [ChooseDecoratorConstructor(decorator, registration.serviceTypeFullName).diagnostic]
                && resolvedServices == old(resolvedServices) && resolvedOrder == old(resolvedOrder)
      ensures resolved.Some? && diagnostics == [] ==> DecoratorResolved(resolved.value, decorator, registration)
      ensures resolved.Some? ==> AllMemoized(resolved.value.dependencies, resolvedServices)
    {
      var ctor := SelectDecoratorConstructor(decorator, registration.serviceTypeFullName);
      if ctor.None? {
        return None;
      }
      var dependencies := ResolveParameters(ctor.value.parameterTypeFullNames, registration, path,
                                            Some(registration.serviceTypeFullName), Some(decorator));
      resolved := Some(ResolvedDecorator(decorator, ctor.value, dependencies));
    }

    /**
     * What `ResolveParameters` has achieved after its first `i` parameters, relative to
     * the state `d0`, `m0`, `o0` it started from with path `path`.
     */
    ghost predicate ParametersSoFar(
      parameters: seq<string>, i: nat, parent: ServiceRegistration, exclude: Option<string>, via: Option<DecoratorInfo>,
      dependencies: seq<ResolvedService>,
      path: seq<string>, d0: seq<Diagnostic>, m0: map<string, ResolvedService>, o0: seq<string>)
      reads this
      requires i <= |parameters|
    {
      && Resolving(path, parent)
      && parameters == ParametersOf(parent, via) && exclude == ExcludeFor(via, parent.serviceTypeFullName)
      && ParametersResolved(parameters, i, parent, exclude, registrationMap, dependencies, path,
                            d0, m0, o0, diagnostics, resolvedServices, resolvedOrder)
    }

    /** `ResolveParameters`: one lookup per parameter, in order; failures are reported and skipped. */
    method ResolveParameters(
      parameters: seq<string>, parent: ServiceRegistration, path: PathStack, exclude: Option<string>,
      ghost via: Option<DecoratorInfo>)
      returns (dependencies: seq<ResolvedService>)
      requires Valid()
      // the parameters of `parent`'s selected constructor, or of its decorator `via`'s
      requires Resolving(path.items, parent)
      requires parameters == ParametersOf(parent, via) && exclude == ExcludeFor(via, parent.serviceTypeFullName)
      modifies this`diagnostics, this`resolvedServices, this`resolvedOrder, path
      decreases |registrationMap.Keys| - |path.items|, 3
      ensures Valid()
      ensures path.items == old(path.items)
      ensures ParametersOutcome(parameters, parent, exclude, registrationMap, dependencies, old(path.items),
                                old(diagnostics), old(resolvedServices), old(resolvedOrder),
                                diagnostics, resolvedServices, resolvedOrder)
    {
      dependencies := [];
      ghost var d0, m0, o0, p0 := diagnostics, resolvedServices, resolvedOrder, path.items;
      ParametersStart(parameters, parent, exclude, registrationMap, p0, d0, m0, o0);
      for i := 0 to |parameters|
        invariant Valid()
        invariant path.items == p0
        invariant ParametersSoFar(parameters, i, parent, exclude, via, dependencies, p0, d0, m0, o0)
      {
        ghost var outcome;
        dependencies, outcome := ResolveParameter(parameters, i, parent, path, exclude, via, dependencies, d0, m0, o0);
      }
      ParametersDone(parameters, parent, exclude, registrationMap, dependencies, p0,
                     d0, m0, o0, diagnostics, resolvedServices, resolvedOrder);
    }

    /** One iteration of `ResolveParameters`' loop: skip, report, or resolve the dependency. */
    method ResolveParameter(
      parameters: seq<string>, i: nat, parent: ServiceRegistration, path: PathStack, exclude: Option<string>,
      ghost via: Option<DecoratorInfo>, dependencies: seq<ResolvedService>,
      ghost d0: seq<Diagnostic>, ghost m0: map<string, ResolvedService>, ghost o0: seq<string>)
      returns (dependencies': seq<ResolvedService>, ghost outcome: ParameterOutcome)
      requires i < |parameters|
      requires Valid()
      requires ParametersSoFar(parameters, i, parent, exclude, via, dependencies, path.items, d0, m0, o0)
      modifies this`diagnostics, this`resolvedServices, this`resolvedOrder, path
      decreases |registrationMap.Keys| - |path.items|, 2
      ensures Valid()
      ensures path.items == old(path.items)
      ensures ParametersSoFar(parameters, i + 1, parent, exclude, via, dependencies', path.items, d0, m0, o0)
      ensures outcome == ClassifyParameter(parameters[i], parent, exclude, registrationMap)
      // skipped or reported: at most the one diagnostic is appended, and nothing else changes
      ensures !outcome.Recurse? ==>
                && diagnostics == old(diagnostics) + (if outcome.Reported? then [outcome.diagnostic] else [])
                && resolvedServices == old(resolvedServices) && resolvedOrder == old(resolvedOrder)
                && dependencies' == dependencies
      // resolved without any error: the dependency's memoized service is appended
      ensures outcome.Recurse? && diagnostics == [] ==>
                && parameters[i] in resolvedServices
                && dependencies' == dependencies + [resolvedServices[parameters[i]]]
    {
      dependencies' := dependencies;
      var classified := ClassifyParameter(parameters[i], parent, exclude, registrationMap);
      outcome := classified;
      match classified
      case Skipped =>
        SkipStep(parameters, i, parent, exclude, registrationMap, dependencies, path.items,
                 d0, m0, o0, diagnostics, resolvedServices, resolvedOrder);
      case Reported(d) =>
        ReportStep(parameters, i, parent, exclude, registrationMap, dependencies, path.items,
                   d0, m0, o0, diagnostics, resolvedServices, resolvedOrder, d);
        Report(d, ParameterReported(parent.serviceTypeFullName, via, parameters[i]));
      case Recurse(dependencyRegistration) =>
        ghost var d1, m1, o1 := diagnostics, resolvedServices, resolvedOrder;
        assert DependsOnVia(registrationMap, parent.serviceTypeFullName, parameters[i], via);
        var dependency := ResolveService(dependencyRegistration, path);
        RecurseStep(parameters, i, parent, exclude, registrationMap, dependencies, path.items,
                    d0, m0, o0, d1, m1, o1, dependencyRegistration, dependency,
                    diagnostics, resolvedServices, resolvedOrder);
        if dependency.Some? {
          dependencies' := dependencies + [dependency.value];
        }
    }

    /** A loop that memoized every registration leaves a memo table covering exactly the registered types. */
    lemma AllResolved(memo: map<string, ResolvedService>, order: seq<string>)
      requires MapOk() && MemoOk(memo, order)
      requires ResolvedOrReported(description.registrations, |description.registrations|, [], memo)
      ensures memo.Keys == registrationMap.Keys
      ensures forall i :: 0 <= i < |MemoValues(order, memo)| ==> WellResolved(MemoValues(order, memo)[i])
    {
      MemoCoversRegistrations(memo, order);
      MemoValuesWellResolved(memo, order);
    }

    lemma MemoCoversRegistrations(memo: map<string, ResolvedService>, order: seq<string>)
      requires MapOk() && MemoOk(memo, order)
      requires ResolvedOrReported(description.registrations, |description.registrations|, [], memo)
      ensures memo.Keys == registrationMap.Keys
    {
      var regs := description.registrations;
      RegistrationMapKeys(regs);
      forall k | k in registrationMap ensures k in memo {
        var j :| 0 <= j < |regs| && regs[j].serviceTypeFullName == k;
      }
      forall k | k in memo ensures k in registrationMap {
        EntryOf(memo, order, k);
      }
    }

    lemma MemoValuesWellResolved(memo: map<string, ResolvedService>, order: seq<string>)
      requires MemoOk(memo, order)
      ensures forall i :: 0 <= i < |MemoValues(order, memo)| ==> WellResolved(MemoValues(order, memo)[i])
    {
      forall i | 0 <= i < |MemoValues(order, memo)| ensures WellResolved(MemoValues(order, memo)[i]) {
        assert EntryOk(memo, order[i]);
      }
    }

    /** The memoised services, in resolution order, have pairwise different service types. */
    lemma ResolvedTypesDistinct(memo: map<string, ResolvedService>, order: seq<string>)
      requires MapOk() && MemoOk(memo, order)
      ensures forall i, j :: 0 <= i < j < |MemoValues(order, memo)| ==>
                MemoValues(order, memo)[i].ServiceTypeFullName() != MemoValues(order, memo)[j].ServiceTypeFullName()
    {
      var services := MemoValues(order, memo);
      forall i | 0 <= i < |services| ensures services[i].ServiceTypeFullName() == order[i] {
        assert EntryOk(memo, order[i]);
      }
    }

    /** A memoized service is among the memo values. */
    lemma MemoizedAmongValues(memo: map<string, ResolvedService>, order: seq<string>, x: ResolvedService)
      requires MemoOk(memo, order)
      requires x.ServiceTypeFullName() in memo && memo[x.ServiceTypeFullName()] == x
      ensures x in MemoValues(order, memo)
    {
      var i :| 0 <= i < |order| && order[i] == x.ServiceTypeFullName();
      assert MemoValues(order, memo)[i] == x;
    }

    /** The memo values are closed under dependency: each one's dependencies, and its decorators', are among them. */
    lemma DependenciesClosed(memo: map<string, ResolvedService>, order: seq<string>)
      requires MemoOk(memo, order)
      ensures var services := MemoValues(order, memo);
        forall i, j :: 0 <= i < |services| && 0 <= j < |services[i].dependencies| ==>
          services[i].dependencies[j] in services
      ensures var services := MemoValues(order, memo);
        forall i, j, k :: 0 <= i < |services| && 0 <= j < |services[i].decorators| &&
                          0 <= k < |services[i].decorators[j].dependencies| ==>
          services[i].decorators[j].dependencies[k] in services
    {
      var services := MemoValues(order, memo);
      forall i, j | 0 <= i < |services| && 0 <= j < |services[i].dependencies|
        ensures services[i].dependencies[j] in services
      {
        assert EntryOk(memo, order[i]);
        MemoizedAmongValues(memo, order, services[i].dependencies[j]);
      }
      forall i, j, k | 0 <= i < |services| && 0 <= j < |services[i].decorators| &&
                       0 <= k < |services[i].decorators[j].dependencies|
        ensures services[i].decorators[j].dependencies[k] in services
      {
        assert EntryOk(memo, order[i]);
        assert AllMemoized(services[i].decorators[j].dependencies, memo);
        MemoizedAmongValues(memo, order, services[i].decorators[j].dependencies[k]);
      }
    }

    /** `Build`: resolve every registration, then hand out a blueprint only if no error was recorded. */
    method Build() returns (blueprint: Option<ContainerBlueprint>, reported: seq<Diagnostic>)
      requires Valid()
      requires diagnostics == DuplicateDiagnosticsOf(description.registrations)
      requires resolvedServices == map[] && resolvedOrder == []
      modifies this`diagnostics, this`resolvedServices, this`resolvedOrder
      ensures Valid()
      ensures reported == diagnostics
      ensures old(diagnostics) <= diagnostics
      // nothing is reported without a cause
      ensures forall x :: x in reported ==> Explained(registrationMap, description.registrations, x)
      // a duplicate registration stops everything before any resolution
      ensures old(diagnostics) != [] ==> blueprint.None? && diagnostics == old(diagnostics) && resolvedServices == map[]
      // all or nothing
      ensures blueprint.Some? <==> !HasError(diagnostics)
      ensures blueprint.Some? ==>
                blueprint.value == ContainerBlueprint(description.containerName, description.namespace,
                                                      MemoValues(resolvedOrder, resolvedServices),
                                                      description.containingTypeDeclarations)
      // on success every registered service type has its resolved service
      ensures blueprint.Some? ==> resolvedServices.Keys == registrationMap.Keys
      // every service handed to the code generator is resolved as the rules demand
      ensures blueprint.Some? ==>
                forall i :: 0 <= i < |blueprint.value.services| ==> WellResolved(blueprint.value.services[i])
      // and each service type appears once, so the generated `Resolve` chain reaches every service
      ensures blueprint.Some? ==>
                forall i, j :: 0 <= i < j < |blueprint.value.services| ==>
                  blueprint.value.services[i].ServiceTypeFullName() != blueprint.value.services[j].ServiceTypeFullName()
      // and every dependency, of a service or of one of its decorators, is itself a blueprint service
      ensures blueprint.Some? ==>
                forall i, j :: 0 <= i < |blueprint.value.services| && 0 <= j < |blueprint.value.services[i].dependencies| ==>
                  blueprint.value.services[i].dependencies[j] in blueprint.value.services
      ensures blueprint.Some? ==>
                forall i, j, k :: 0 <= i < |blueprint.value.services| && 0 <= j < |blueprint.value.services[i].decorators| &&
                                  0 <= k < |blueprint.value.services[i].decorators[j].dependencies| ==>
                  blueprint.value.services[i].decorators[j].dependencies[k] in blueprint.value.services
    {
      if diagnostics != [] {
        HasErrorIffNonEmpty(diagnostics);
        return None, diagnostics;
      }

      var regs := description.registrations;
      DistinctRegistrationsAllMapped(regs);
      for i := 0 to |regs|
        invariant Valid()
        invariant old(diagnostics) <= diagnostics
        invariant ResolvedOrReported(regs, i, diagnostics, resolvedServices)
      {
        var path := new PathStack();
        ghost var d, m, o := diagnostics, resolvedServices, resolvedOrder;
        var resolved := ResolveService(regs[i], path);
        BuildStep(regs, i, d, m, o, resolved, diagnostics, resolvedServices, resolvedOrder);
      }

      HasErrorIffNonEmpty(diagnostics);
      if HasError(diagnostics) {
        return None, diagnostics;
      }

      AllResolved(resolvedServices, resolvedOrder);
      ResolvedTypesDistinct(resolvedServices, resolvedOrder);
      DependenciesClosed(resolvedServices, resolvedOrder);
      var services := MemoValues(resolvedOrder, resolvedServices);
      blueprint := Some(ContainerBlueprint(description.containerName, description.namespace, services,
                                           description.containingTypeDeclarations));
      reported := diagnostics;
    }
  }
}
