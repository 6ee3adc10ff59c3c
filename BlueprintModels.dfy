/**
 * The value records that flow between the parser, the graph builder and the
 * code generator: registrations, constructors, decorators and the resolved plan.
 * Every C# record here has get-only properties, so each becomes a datatype; the
 * one settable property (`ServiceRegistration.Decorators`) is modelled by
 * `WithDecorators`, which builds a new value.
 */
module BlueprintModels {
  import opened Wrappers

  /** `ServiceLifetime`; the C# enum's underlying values order the members. */
  datatype ServiceLifetime = Transient | Scoped | Singleton

  /** The enum's underlying integer value (declaration order). */
  function Rank(l: ServiceLifetime): nat
  {
    match l
    case Transient => 0
    case Scoped => 1
    case Singleton => 2
  }

  /** C# `a > b` on the enum: `a` outlives `b`. */
  predicate Outlives(a: ServiceLifetime, b: ServiceLifetime)
  {
    Rank(a) > Rank(b)
  }

  /** The enum's `ToString()`, used when a lifetime is printed into generated code. */
  function LifetimeName(l: ServiceLifetime): string
  {
    match l
    case Transient => "Transient"
    case Scoped => "Scoped"
    case Singleton => "Singleton"
  }

  /** `>` is a strict total order: Transient < Scoped < Singleton. */
  lemma OutlivesIsStrictTotalOrder(a: ServiceLifetime, b: ServiceLifetime, c: ServiceLifetime)
    ensures !Outlives(a, a)
    ensures Outlives(a, b) ==> !Outlives(b, a)
    ensures Outlives(a, b) && Outlives(b, c) ==> Outlives(a, c)
    ensures a == b || Outlives(a, b) || Outlives(b, a)
    ensures Outlives(Singleton, Scoped) && Outlives(Scoped, Transient)
  {
  }

  /**
   * `ConstructorInfo`: ordered parameter type names and the `[Inject]` flag. The
   * graph builder also asks the constructor's accessibility, so `isPublic` is kept too.
   */
  datatype ConstructorInfo = ConstructorInfo(
    parameterTypeFullNames: seq<string>,
    hasInjectAttribute: bool,
    isPublic: bool)

  /** `ServiceImplementationType` (its source location is not modelled). */
  datatype ServiceImplementationType = ServiceImplementationType(
    fullName: string,
    constructors: seq<ConstructorInfo>)

  /** `DecoratorInfo` (its source location is not modelled). */
  datatype DecoratorInfo = DecoratorInfo(
    fullName: string,
    constructors: seq<ConstructorInfo>)

  /** `ServiceRegistration` (its source location is not modelled). */
  datatype ServiceRegistration = ServiceRegistration(
    serviceTypeFullName: string,
    implementationType: ServiceImplementationType,
    lifetime: ServiceLifetime,
    isDisposable: bool,
    decorators: seq<DecoratorInfo>)

  /** The record's constructor: every field from its argument, `Decorators` starts empty. */
  function NewRegistration(
    serviceTypeFullName: string,
    implementationType: ServiceImplementationType,
    lifetime: ServiceLifetime,
    isDisposable: bool): (r: ServiceRegistration)
    ensures r.decorators == []
    ensures r.serviceTypeFullName == serviceTypeFullName && r.implementationType == implementationType
    ensures r.lifetime == lifetime && r.isDisposable == isDisposable
  {
    ServiceRegistration(serviceTypeFullName, implementationType, lifetime, isDisposable, [])
  }

  /** The `Decorators` setter: only that member changes. */
  function WithDecorators(reg: ServiceRegistration, decorators: seq<DecoratorInfo>): (r: ServiceRegistration)
    ensures r.decorators == decorators
    ensures r.(decorators := reg.decorators) == reg
  {
    reg.(decorators := decorators)
  }

  /** Setting `Decorators` twice keeps only the last value; every other member is fixed. */
  lemma {:induction false} SetDecoratorsTwice(reg: ServiceRegistration, first: seq<DecoratorInfo>, second: seq<DecoratorInfo>)
    ensures WithDecorators(WithDecorators(reg, first), second) == WithDecorators(reg, second)
    ensures WithDecorators(reg, reg.decorators) == reg
  {
  }

  /** `ResolvedDecorator`: the decorator, its chosen constructor, and the dependencies other than the decorated service. */
  datatype ResolvedDecorator = ResolvedDecorator(
    sourceDecorator: DecoratorInfo,
    selectedConstructor: ConstructorInfo,
    dependencies: seq<ResolvedService>)

  /** `ResolvedService`; its two computed properties read through to the registration. */
  datatype ResolvedService = ResolvedService(
    sourceRegistration: ServiceRegistration,
    selectedConstructor: ConstructorInfo,
    dependencies: seq<ResolvedService>,
    decorators: seq<ResolvedDecorator>)
  {
    function ServiceTypeFullName(): string { sourceRegistration.serviceTypeFullName }
    function Lifetime(): ServiceLifetime { sourceRegistration.lifetime }
  }

  /** `ServiceProviderDescription`: what the parser hands to the graph builder. */
  datatype ServiceProviderDescription = ServiceProviderDescription(
    containerFullName: string,
    containerName: string,
    namespace: Option<string>,
    containingTypeDeclarations: seq<string>,
    registrations: seq<ServiceRegistration>)

  /** `ContainerBlueprint`: what the graph builder hands to the code generator. */
  datatype ContainerBlueprint = ContainerBlueprint(
    containerName: string,
    namespace: Option<string>,
    services: seq<ResolvedService>,
    containingTypeDeclarations: seq<string>)

  // ---------------------------------------------------------------------------
  // Type names as the diagnostics print them

  /** How a character moves the nesting of type-argument lists. */
  function Nesting(c: char): int
  {
    if c == '<' then 1 else if c == '>' then -1 else 0
  }

  /** The net nesting of `s`: its '<' count minus its '>' count. */
  function Depth(s: string): int
  {
    if s == [] then 0 else Nesting(s[0]) + Depth(s[1..])
  }

  /** Started at nesting `level`, no prefix of `s` brings the nesting below `floor`. */
  ghost predicate StaysAbove(s: string, level: int, floor: int)
  {
    forall k :: 0 <= k <= |s| ==> level + Depth(s[..k]) >= floor
  }

  /** Balanced type-argument text: every '>' closes an earlier '<', and every '<' is closed. */
  ghost predicate Balanced(s: string)
  {
    StaysAbove(s, 0, 0) && Depth(s) == 0
  }

  /** The characters of `s` outside every type-argument list, when scanning starts at nesting `level`. */
  function StripFrom(s: string, level: nat): (r: string)
    ensures |r| <= |s| && '<' !in r && '>' !in r
  {
    if s == [] then []
    else if s[0] == '<' then StripFrom(s[1..], level + 1)
    else if s[0] == '>' then StripFrom(s[1..], if level == 0 then 0 else level - 1)
    else if level == 0 then [s[0]] + StripFrom(s[1..], 0)
    else StripFrom(s[1..], level)
  }

  /** The nesting after scanning `s` from `level`. */
  function LevelAfter(s: string, level: nat): nat
  {
    if s == [] then level
    else if s[0] == '<' then LevelAfter(s[1..], level + 1)
    else if s[0] == '>' then LevelAfter(s[1..], if level == 0 then 0 else level - 1)
    else LevelAfter(s[1..], level)
  }

  /** A name with every type-argument list removed: "Outer<T>.Inner<U>" becomes "Outer.Inner". */
  function WithoutTypeArguments(fullName: string): string
  {
    StripFrom(fullName, 0)
  }

  /** Scanning `a + b` is scanning `a`, then `b` from where `a` left the nesting. */
  lemma {:induction false} StripAppend(a: string, b: string, level: nat)
    ensures StripFrom(a + b, level) == StripFrom(a, level) + StripFrom(b, LevelAfter(a, level))
    ensures LevelAfter(a + b, level) == LevelAfter(b, LevelAfter(a, level))
    decreases |a|
  {
    if a != [] {
      assert (a + b)[0] == a[0] && (a + b)[1..] == a[1..] + b;
      var next: nat := if a[0] == '<' then level + 1 else if a[0] == '>' then (if level == 0 then 0 else level - 1) else level;
      StripAppend(a[1..], b, next);
    } else {
      assert a + b == b;
    }
  }

  /**
   * Text that never brings the nesting below `floor` leaves the nesting at `level`
   * plus its depth; inside an argument list (`floor` at least 1) it contributes nothing.
   */
  lemma {:induction false} ScanAbove(a: string, level: nat, floor: nat)
    requires StaysAbove(a, level, floor)
    ensures LevelAfter(a, level) == level + Depth(a)
    ensures floor >= 1 ==> StripFrom(a, level) == []
    decreases |a|
  {
    if a != [] {
      assert level + Depth(a[..1]) >= floor;
      assert Depth(a[..1]) == Nesting(a[0]) by {
        assert a[..1][0] == a[0] && a[..1][1..] == [];
      }
      var next: nat := level + Nesting(a[0]);
      forall k | 0 <= k <= |a| - 1
        ensures next + Depth(a[1..][..k]) >= floor
      {
        assert a[..k + 1][0] == a[0] && a[..k + 1][1..] == a[1..][..k];
        assert level + Depth(a[..k + 1]) >= floor;
      }
      ScanAbove(a[1..], next, floor);
    }
  }

  /** A balanced argument list `<args>` vanishes and leaves the nesting where it was. */
  lemma BalancedGroupVanishes(args: string, level: nat)
    requires Balanced(args)
    ensures StripFrom("<" + args + ">", 0) == []
    ensures LevelAfter("<" + args + ">", level) == level
  {
    forall k | 0 <= k <= |args| ensures 1 + Depth(args[..k]) >= 1 { }
    ScanAbove(args, 1, 1);
    forall k | 0 <= k <= |args| ensures level + 1 + Depth(args[..k]) >= 1 { }
    ScanAbove(args, level + 1, 1);
    var group := "<" + args + ">";
    assert group == "<" + (args + ">");
    StripAppend(args, ">", 1);
    StripAppend(args, ">", level + 1);
  }

  /** Scanning balanced text from the outside ends outside. */
  lemma BalancedEndsOutside(s: string)
    requires Balanced(s)
    ensures LevelAfter(s, 0) == 0
  {
    ScanAbove(s, 0, 0);
  }

  /** A separator of a qualified name: the '.' after a namespace or outer type, or the ':' of `global::`. */
  predicate IsQualifier(c: char)
  {
    c == '.' || c == ':'
  }

  /** The last segment of a qualified name: the text after its last separator. */
  function LastSegment(qualified: string): string
  {
    if |qualified| == 0 || IsQualifier(qualified[|qualified| - 1]) then ""
    else LastSegment(qualified[..|qualified| - 1]) + [qualified[|qualified| - 1]]
  }

  /** The last segment is the longest suffix without a separator. */
  lemma {:induction false} LastSegmentIsSuffix(qualified: string)
    ensures var r := LastSegment(qualified);
      && |r| <= |qualified| && r == qualified[|qualified| - |r|..]
      && '.' !in r && ':' !in r
      && (|r| < |qualified| ==> IsQualifier(qualified[|qualified| - |r| - 1]))
  {
    if |qualified| > 0 && !IsQualifier(qualified[|qualified| - 1]) {
      var init := qualified[..|qualified| - 1];
      LastSegmentIsSuffix(init);
      var rest := LastSegment(init);
      assert init[|init| - |rest|..] + [qualified[|qualified| - 1]] == qualified[|qualified| - |rest| - 1..];
    }
  }

  /** A character of an identifier. */
  predicate IsIdentifierChar(c: char)
  {
    ('a' <= c <= 'z') || ('A' <= c <= 'Z') || ('0' <= c <= '9') || c == '_'
  }

  /** A plain C# identifier: a non-empty run of letters, digits and underscores. */
  predicate IsIdentifier(s: string)
  {
    s != [] && forall i :: 0 <= i < |s| ==> IsIdentifierChar(s[i])
  }

  /**
   * The special types the fully qualified format prints as C# keywords, with the
   * `Name` Roslyn gives each: that of the `System` type behind the keyword.
   */
  function SystemTypeName(keyword: string): (r: Option<string>)
    ensures r.Some? ==> r.value != [] && forall i :: 0 <= i < |r.value| ==> IsIdentifierChar(r.value[i])
  {
    if keyword == "bool" then Some("Boolean")
    else if keyword == "byte" then Some("Byte")
    else if keyword == "sbyte" then Some("SByte")
    else if keyword == "char" then Some("Char")
    else if keyword == "decimal" then Some("Decimal")
    else if keyword == "double" then Some("Double")
    else if keyword == "float" then Some("Single")
    else if keyword == "int" then Some("Int32")
    else if keyword == "uint" then Some("UInt32")
    else if keyword == "long" then Some("Int64")
    else if keyword == "ulong" then Some("UInt64")
    else if keyword == "short" then Some("Int16")
    else if keyword == "ushort" then Some("UInt16")
    else if keyword == "object" then Some("Object")
    else if keyword == "string" then Some("String")
    else if keyword == "void" then Some("Void")
    else None
  }

  /** An identifier has no separator, no bracket and no `?`. */
  lemma IdentifierHasNoPunctuation(s: string)
    requires IsIdentifier(s)
    ensures '.' !in s && ':' !in s && '<' !in s && '>' !in s && ']' !in s && '?' !in s
  {
  }

  /** Text without brackets is scanned unchanged from the outside. */
  lemma {:induction false} StripPlain(s: string)
    requires '<' !in s && '>' !in s
    ensures StripFrom(s, 0) == s && LevelAfter(s, 0) == 0
    decreases |s|
  {
    if s != [] {
      assert s[1..] == s[1..];
      StripPlain(s[1..]);
    }
  }

  /**
   * Roslyn's `ISymbol.Name` for a type known by its fully qualified name. Every
   * type-argument list is dropped, then: an array type is unnamed, a nullable value
   * type is `Nullable`, a keyword names its `System` type, and any other type is
   * named by the last segment, without the `global::` alias, the namespace and the
   * outer types. So "global::My.Repo<global::My.User>" is "Repo",
   * "global::Ns.Outer<T>.Inner" is "Inner" and "string" is "String".
   */
  function ShortName(fullName: string): string
  {
    var stem := WithoutTypeArguments(fullName);
    if stem != [] && stem[|stem| - 1] == ']' then ""
    else if stem != [] && stem[|stem| - 1] == '?' then "Nullable"
    else if IsIdentifier(stem) && SystemTypeName(stem).Some? then SystemTypeName(stem).value
    else LastSegment(stem)
  }

  /** A type's name holds no qualifier and no type-argument text; an identifier other than a keyword is its own name. */
  lemma ShortNameIsUnqualified(fullName: string)
    ensures var r := ShortName(fullName);
      '.' !in r && ':' !in r && '<' !in r && '>' !in r
    ensures IsIdentifier(fullName) && SystemTypeName(fullName).None? ==> ShortName(fullName) == fullName
  {
    var stem := WithoutTypeArguments(fullName);
    LastSegmentIsSuffix(stem);
    assert '<' !in stem[|stem| - |LastSegment(stem)|..] && '>' !in stem[|stem| - |LastSegment(stem)|..];
    if IsIdentifier(stem) && SystemTypeName(stem).Some? {
      IdentifierHasNoPunctuation(SystemTypeName(stem).value);
    }
    if IsIdentifier(fullName) && SystemTypeName(fullName).None? {
      IdentifierHasNoPunctuation(fullName);
      StripPlain(fullName);
      LastSegmentIsSuffix(fullName);
    }
  }

  /** The last segment of `a.b` or `a:b` is `b`, when `b` has no separator. */
  lemma LastSegmentOf(a: string, c: char, b: string)
    requires IsQualifier(c) && '.' !in b && ':' !in b
    ensures LastSegment(a + [c] + b) == b
  {
    var s := a + [c] + b;
    LastSegmentIsSuffix(s);
    assert s[|a|] == c;
    assert forall i :: 0 <= i < |b| ==> s[|a| + 1 + i] == b[i];
  }

  /** The stem of `qualifier` + separator + identifier: the qualifier's stem, the separator, the identifier. */
  lemma QualifiedStem(qualifier: string, c: char, name: string)
    requires Balanced(qualifier) && IsQualifier(c) && IsIdentifier(name)
    ensures WithoutTypeArguments(qualifier + [c] + name) == WithoutTypeArguments(qualifier) + [c] + name
    ensures LevelAfter(qualifier + [c] + name, 0) == 0
  {
    IdentifierHasNoPunctuation(name);
    BalancedEndsOutside(qualifier);
    StripPlain([c] + name);
    assert qualifier + [c] + name == qualifier + ([c] + name);
    StripAppend(qualifier, [c] + name, 0);
  }

  /** A nested or namespaced type is named by its last segment: `Ns.Outer<T>.Inner` is "Inner". */
  lemma ShortNameOfQualified(qualifier: string, name: string)
    requires Balanced(qualifier) && IsIdentifier(name)
    ensures ShortName(qualifier + "." + name) == name
  {
    IdentifierHasNoPunctuation(name);
    QualifiedStem(qualifier, '.', name);
    var stem := WithoutTypeArguments(qualifier) + ['.'] + name;
    assert qualifier + "." + name == qualifier + ['.'] + name;
    assert stem[|stem| - 1] == name[|name| - 1];
    assert !IsIdentifier(stem) by {
      assert stem[|stem| - |name| - 1] == '.';
    }
    LastSegmentOf(WithoutTypeArguments(qualifier), '.', name);
  }

  /** A generic type is named without its type arguments: `Ns.Repo<Arg>` is "Repo". */
  lemma ShortNameOfGeneric(qualifier: string, name: string, typeArguments: string)
    requires Balanced(qualifier) && IsIdentifier(name) && Balanced(typeArguments)
    ensures ShortName(qualifier + "." + name + "<" + typeArguments + ">") == name
  {
    var qualified := qualifier + "." + name;
    assert qualified == qualifier + ['.'] + name;
    QualifiedStem(qualifier, '.', name);
    BalancedGroupVanishes(typeArguments, 0);
    assert qualified + "<" + typeArguments + ">" == qualified + ("<" + typeArguments + ">");
    var group := "<" + typeArguments + ">";
    StripAppend(qualified, group, 0);
    assert WithoutTypeArguments(qualified + group) == WithoutTypeArguments(qualified) + [];
    assert WithoutTypeArguments(qualified + group) == WithoutTypeArguments(qualified);
    ShortNameOfQualified(qualifier, name);
  }

  /** The `global::` alias is dropped: `global::Foo` is "Foo". */
  lemma ShortNameOfGlobal(name: string)
    requires IsIdentifier(name)
    ensures ShortName("global::" + name) == name
  {
    IdentifierHasNoPunctuation(name);
    var global := "global::" + name;
    assert global == "global:" + [':'] + name;
    StripPlain(global);
    assert global[|global| - 1] == name[|name| - 1];
    assert !IsIdentifier(global) by {
      assert global[6] == ':';
    }
    LastSegmentOf("global:", ':', name);
  }

  /** A keyword names its `System` type: `string` is "String", `int` is "Int32". */
  lemma ShortNameOfKeyword(keyword: string)
    requires IsIdentifier(keyword) && SystemTypeName(keyword).Some?
    ensures ShortName(keyword) == SystemTypeName(keyword).value
  {
    IdentifierHasNoPunctuation(keyword);
    StripPlain(keyword);
    assert keyword[|keyword| - 1] in keyword;
  }

  /** An array type has the empty name, whatever its element type. */
  lemma ShortNameOfArray(element: string)
    requires Balanced(element)
    ensures ShortName(element + "[]") == ""
  {
    BalancedEndsOutside(element);
    StripAppend(element, "[]", 0);
    StripPlain("[]");
  }

  /** A nullable value type `T?` is named "Nullable". */
  lemma ShortNameOfNullable(element: string)
    requires Balanced(element)
    ensures ShortName(element + "?") == "Nullable"
  {
    BalancedEndsOutside(element);
    StripAppend(element, "?", 0);
    StripPlain("?");
  }

  /** `s` begins with the `global::` alias. */
  predicate StartsWithAlias(s: string)
  {
    |s| >= 8 && s[..8] == "global::"
  }

  /**
   * `ToDisplayString()` of a type known by its fully qualified name: the same text
   * without any `global::` alias, so "global::A.B<global::C>" prints as "A.B<C>".
   */
  function DisplayName(fullName: string): (r: string)
    ensures |r| <= |fullName|
    ensures ':' !in fullName ==> r == fullName
    decreases |fullName|
  {
    if StartsWithAlias(fullName) then
      assert fullName[6] == fullName[..8][6] == ':';
      DisplayName(fullName[8..])
    else if fullName == [] then []
    else [fullName[0]] + DisplayName(fullName[1..])
  }

  /** An alias-qualified name prints without the alias. */
  lemma DisplayNameOfGlobal(name: string)
    requires ':' !in name
    ensures DisplayName("global::" + name) == name
  {
    assert ("global::" + name)[..8] == "global::";
    assert ("global::" + name)[8..] == name;
  }

  /**
   * A character that cannot be part of the alias splits the printing: the text on
   * either side is printed on its own.
   */
  lemma {:induction false} DisplayNameSplits(a: string, c: char, b: string)
    requires c !in "global:"
    ensures DisplayName(a + [c] + b) == DisplayName(a) + [c] + DisplayName(b)
    decreases |a|, 1
  {
    if StartsWithAlias(a) {
      SplitsAfterAlias(a, c, b);
    } else if a == [] {
      DisplayNameCharStep([], c, b);
      assert [] + [c] + b == [c] + b;
    } else {
      SplitsAfterChar(a, c, b);
    }
  }

  /** `DisplayNameSplits` when `a` begins with the alias. */
  lemma {:induction false} SplitsAfterAlias(a: string, c: char, b: string)
    requires c !in "global:" && StartsWithAlias(a)
    ensures DisplayName(a + [c] + b) == DisplayName(a) + [c] + DisplayName(b)
    decreases |a|, 0
  {
    DisplayNameAliasStep(a, [c] + b);
    DisplayNameAliasStep(a, []);
    assert a + [c] + b == a + ([c] + b) && a[8..] + ([c] + b) == a[8..] + [c] + b && a + [] == a;
    DisplayNameSplits(a[8..], c, b);
  }

  /** `DisplayNameSplits` when `a` begins with a character printed as it is. */
  lemma {:induction false} SplitsAfterChar(a: string, c: char, b: string)
    requires c !in "global:" && !StartsWithAlias(a) && a != []
    ensures DisplayName(a + [c] + b) == DisplayName(a) + [c] + DisplayName(b)
    decreases |a|, 0
  {
    DisplayNameCharStep(a, c, b);
    DisplayNameSplits(a[1..], c, b);
  }

  /** An alias at the front is skipped. */
  lemma DisplayNameAliasStep(a: string, rest: string)
    requires StartsWithAlias(a)
    ensures DisplayName(a + rest) == DisplayName(a[8..] + rest)
  {
    var s := a + rest;
    assert s[..8] == a[..8] && s[8..] == a[8..] + rest;
  }

  /** A character that does not begin an alias is printed as it is. */
  lemma DisplayNameCharStep(a: string, c: char, b: string)
    requires c !in "global:" && !StartsWithAlias(a)
    ensures a != [] ==> DisplayName(a + [c] + b) == [a[0]] + DisplayName(a[1..] + [c] + b)
    ensures a != [] ==> DisplayName(a) == [a[0]] + DisplayName(a[1..])
    ensures a == [] ==> DisplayName([c] + b) == [c] + DisplayName(b)
  {
    var s := a + [c] + b;
    if |a| < 8 {
      AliasNeedsItsLetters(s, |a|);
    } else {
      assert s[..8] == a[..8];
    }
    assert s[1..] == if a == [] then b else a[1..] + [c] + b;
  }

  /** The alias's first eight characters are its own letters: a position holding another character rules it out. */
  lemma AliasNeedsItsLetters(s: string, k: nat)
    requires k < 8 && k < |s| && s[k] !in "global:"
    ensures !StartsWithAlias(s)
  {
  }

  /** A generic type prints its arguments without the alias too: "global::A<global::B>" prints as "A<B>". */
  lemma DisplayNameOfGeneric(name: string, argument: string)
    requires ':' !in name && ':' !in argument
    ensures DisplayName("global::" + name + "<" + "global::" + argument + ">") == name + "<" + argument + ">"
  {
    var left, right := "global::" + name, "global::" + argument;
    DisplayNameOfGlobal(name);
    DisplayNameOfGlobal(argument);
    DisplayNameOfGroup(left, right);
    assert "global::" + name + "<" + "global::" + argument + ">" == left + ['<'] + right + ['>'];
    assert name + ['<'] + argument + ['>'] == name + "<" + argument + ">";
  }

  /** A type argument list is displayed by displaying the type and its argument. */
  lemma DisplayNameOfGroup(left: string, right: string)
    ensures DisplayName(left + ['<'] + right + ['>']) == DisplayName(left) + ['<'] + DisplayName(right) + ['>']
  {
    DisplayNameSplits(right, '>', []);
    assert right + ['>'] + [] == right + ['>'];
    DisplayNameSplits(left, '<', right + ['>']);
    assert left + ['<'] + right + ['>'] == left + ['<'] + (right + ['>']);
  }
}
