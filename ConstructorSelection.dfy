/**
 * The constructor ladder of `GraphBuilder.SelectConstructor` and
 * `GraphBuilder.SelectDecoratorConstructor`, lifted out of the builder as pure
 * functions: the filters and the maximum are LINQ expressions in the source.
 * The builder's methods call these and append the rejection diagnostic.
 */
module ConstructorSelection {
  import opened BlueprintModels
  import opened Diagnostics
  import opened Seqs

  /** The outcome of the ladder: the chosen constructor, or the diagnostic that replaces it. */
  datatype Selection = Selected(ctor: ConstructorInfo) | Rejected(diagnostic: Diagnostic)

  function Arity(c: ConstructorInfo): nat
  {
    |c.parameterTypeFullNames|
  }

  /** `Constructors.Where(c => c.DeclaredAccessibility == Accessibility.Public)`. */
  function PublicConstructors(cs: seq<ConstructorInfo>): seq<ConstructorInfo>
  {
    Filter(cs, (c: ConstructorInfo) => c.isPublic)
  }

  /** The candidates carrying `[Inject]`. */
  function InjectConstructors(cs: seq<ConstructorInfo>): seq<ConstructorInfo>
  {
    Filter(cs, (c: ConstructorInfo) => c.hasInjectAttribute)
  }

  /** The candidates with exactly `arity` parameters. */
  function WithArity(cs: seq<ConstructorInfo>, arity: nat): seq<ConstructorInfo>
  {
    Filter(cs, (c: ConstructorInfo) => Arity(c) == arity)
  }

  /** Decorator candidates: public, with exactly one parameter of the decorated service type. */
  function DecoratorCandidates(cs: seq<ConstructorInfo>, serviceToDecorate: string): seq<ConstructorInfo>
  {
    Filter(cs, (c: ConstructorInfo) => c.isPublic && Occurrences(c.parameterTypeFullNames, serviceToDecorate) == 1)
  }

  /** `candidates.Max(c => c.Parameters.Length)`. */
  function MaxArity(cs: seq<ConstructorInfo>): (m: nat)
    requires cs != []
    ensures forall i :: 0 <= i < |cs| ==> Arity(cs[i]) <= m
    ensures exists i :: 0 <= i < |cs| && Arity(cs[i]) == m
  {
    if |cs| == 1 then Arity(cs[0])
    else
      var rest := MaxArity(cs[1..]);
      assert forall i :: 1 <= i < |cs| ==> cs[i] == cs[1..][i - 1];
      if Arity(cs[0]) >= rest then Arity(cs[0])
      else
        var j :| 0 <= j < |cs[1..]| && Arity(cs[1..][j]) == rest;
        assert Arity(cs[j + 1]) == rest;
        rest
  }

  /** The candidates of greatest arity: never empty. */
  function Greediest(cs: seq<ConstructorInfo>): (g: seq<ConstructorInfo>)
    requires cs != []
    ensures g != []
    ensures forall c :: c in g ==> c in cs && Arity(c) == MaxArity(cs)
  {
    var m := MaxArity(cs);
    var i :| 0 <= i < |cs| && Arity(cs[i]) == m;
    assert cs[i] in WithArity(cs, m);
    WithArity(cs, m)
  }

  /**
   * `Greediest` misses no candidate of greatest arity, and holds more than one
   * exactly on a tie: two candidates share the greatest arity.
   */
  lemma GreediestComplete(cs: seq<ConstructorInfo>)
    requires cs != []
    ensures forall i :: 0 <= i < |cs| && Arity(cs[i]) == MaxArity(cs) ==> cs[i] in Greediest(cs)
    ensures |Greediest(cs)| > 1 <==>
              exists i, j :: 0 <= i < j < |cs| && Arity(cs[i]) == MaxArity(cs) && Arity(cs[j]) == MaxArity(cs)
  {
    var m := MaxArity(cs);
    FilterHasTwo(cs, (c: ConstructorInfo) => Arity(c) == m);
  }

  /**
   * Steps 2 to 6 of the ladder, shared by both selectors once the candidate list
   * is known to be non-empty: `[Inject]` first, then the single candidate, then the
   * unique greediest; two `[Inject]` constructors or a tie at the maximum reject.
   */
  function ChooseAmong(candidates: seq<ConstructorInfo>, displayName: string, tieId: DiagnosticId): (r: Selection)
    requires candidates != []
    requires ArgumentCount(tieId) == 2
    ensures r.Selected? ==> r.ctor in candidates
    ensures r.Rejected? ==> WellFormed(r.diagnostic) && r.diagnostic.id in {NDI0009, tieId}
  {
    var injects := InjectConstructors(candidates);
    if |injects| > 1 then Rejected(Diagnostic(NDI0009, [Text(displayName)]))
    else if |injects| == 1 then Selected(injects[0])
    else if |candidates| == 1 then Selected(candidates[0])
    else
      var greediest := Greediest(candidates);
      if |greediest| > 1 then Rejected(Diagnostic(tieId, [Text(displayName), Number(MaxArity(candidates))]))
      else Selected(greediest[0])
  }

  /** The ladder's order of precedence, and the two ambiguous situations that reject. */
  lemma ChooseAmongLadder(candidates: seq<ConstructorInfo>, displayName: string, tieId: DiagnosticId)
    requires candidates != []
    requires ArgumentCount(tieId) == 2
    // an [Inject] marker, when there is exactly one, beats every arity consideration
    ensures var r := ChooseAmong(candidates, displayName, tieId);
      |InjectConstructors(candidates)| == 1 ==>
        r.Selected? && r.ctor.hasInjectAttribute && r.ctor == InjectConstructors(candidates)[0]
    ensures |InjectConstructors(candidates)| > 1 ==>
              ChooseAmong(candidates, displayName, tieId) == Rejected(Diagnostic(NDI0009, [Text(displayName)]))
    // without markers: the only candidate, or the unique one of greatest arity
    ensures |InjectConstructors(candidates)| == 0 && |candidates| == 1 ==>
              ChooseAmong(candidates, displayName, tieId) == Selected(candidates[0])
    ensures var r := ChooseAmong(candidates, displayName, tieId);
      |InjectConstructors(candidates)| == 0 && |candidates| > 1 && r.Selected? ==>
        Greediest(candidates) == [r.ctor] && Arity(r.ctor) == MaxArity(candidates)
    ensures |InjectConstructors(candidates)| == 0 && |candidates| > 1 && |Greediest(candidates)| > 1 ==>
              ChooseAmong(candidates, displayName, tieId) ==
              Rejected(Diagnostic(tieId, [Text(displayName), Number(MaxArity(candidates))]))
    // rejection happens exactly in the two ambiguous situations
    ensures ChooseAmong(candidates, displayName, tieId).Rejected? <==>
              |InjectConstructors(candidates)| > 1 ||
              (|InjectConstructors(candidates)| == 0 && |candidates| > 1 && |Greediest(candidates)| > 1)
  {
    var injects := InjectConstructors(candidates);
    if |injects| == 1 {
      assert injects[0] in injects;
    }
  }

  /** `SelectConstructor`'s decision: no public constructor gives NDI0003, otherwise the ladder with NDI0008 on a tie. */
  function ChooseConstructor(impl: ServiceImplementationType): (r: Selection)
    ensures r.Selected? ==> r.ctor in impl.constructors && r.ctor.isPublic
    ensures r.Rejected? ==> WellFormed(r.diagnostic) && r.diagnostic.id in {NDI0003, NDI0008, NDI0009}
    ensures r == Rejected(Diagnostic(NDI0003, [Text(DisplayName(impl.fullName))])) <==>
              PublicConstructors(impl.constructors) == []
  {
    var candidates := PublicConstructors(impl.constructors);
    if candidates == [] then Rejected(Diagnostic(NDI0003, [Text(DisplayName(impl.fullName))]))
    else ChooseAmong(candidates, DisplayName(impl.fullName), NDI0008)
  }

  /**
   * `SelectDecoratorConstructor`'s decision: no public constructor taking the decorated service
   * exactly once gives NDI0014, otherwise the ladder with NDI0013 on a tie.
   */
  function ChooseDecoratorConstructor(decorator: DecoratorInfo, serviceToDecorate: string): (r: Selection)
    ensures r.Selected? ==> r.ctor in decorator.constructors && r.ctor.isPublic
    ensures r.Selected? ==> Occurrences(r.ctor.parameterTypeFullNames, serviceToDecorate) == 1
    ensures r.Rejected? ==> WellFormed(r.diagnostic) && r.diagnostic.id in {NDI0014, NDI0013, NDI0009}
    ensures r == Rejected(Diagnostic(NDI0014, [Text(ShortName(decorator.fullName)), Text(ShortName(serviceToDecorate))])) <==>
              DecoratorCandidates(decorator.constructors, serviceToDecorate) == []
  {
    var candidates := DecoratorCandidates(decorator.constructors, serviceToDecorate);
    if candidates == [] then
      Rejected(Diagnostic(NDI0014, [Text(ShortName(decorator.fullName)), Text(ShortName(serviceToDecorate))]))
    else ChooseAmong(candidates, DisplayName(decorator.fullName), NDI0013)
  }
}
