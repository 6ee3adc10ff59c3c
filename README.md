# CSharpDIFramework source generator: graph builder and code generator

CSharpDIFramework is a compile-time dependency-injection container. A Roslyn
source generator reads the registrations a user declares with attributes on a
`partial` container class. It checks them and writes the container's code. This
project models the two central stages of that generator and proves properties
of them:

- **Graph builder** (`GraphBuilder.dfy`, `ConstructorSelection.dfy`). The
  builder indexes registrations by service type and reports duplicates. It then
  resolves every registration depth-first:
  - it chooses a constructor through the `[Inject]` / single / greediest ladder;
  - it resolves each parameter, and reports missing services, captive
    dependencies and cycles;
  - it resolves the declared decorators;
  - it memoises each result.

  A blueprint is produced only when no error was recorded, and every
  recorded diagnostic can be traced to its cause in the registrations: a
  duplicate, a rejected constructor, a missing or captive parameter, or a
  cycle along a chain of dependencies. The builder is a
  `class` whose fields are the source's diagnostics list and resolved-services
  dictionary. Its methods carry `modifies` clauses. The path stack is a small
  `class` of its own.
- **Code generator** (`CodeGenerator.dfy`). This covers:
  - type-name sanitising and the singleton field and factory names;
  - constructor argument lists and the nested `new` expression that wraps a
    service in its decorators;
  - the singleton and disposable-singleton selections;
  - the `if` / `else if` chain of the root `Resolve<TService>()`;
  - the braces that open and close the types that contain the container.
- **Supporting values**:
  - the blueprint records (`BlueprintModels.dfy`);
  - the diagnostic descriptor table (`Diagnostics.dfy`);
  - the value-equality array wrapper (`EquatableArray.dfy`);
  - LINQ-style sequence helpers (`Seqs.dfy`).

Roslyn symbols are represented by their fully qualified names, so symbol
equality is string equality. `ISymbol.Name` is derived from that name
(`BlueprintModels.ShortName`). Every type-argument list is dropped. Then the
`Name` is taken by case:
- an array type has the empty `Name`;
- a nullable value type is named "Nullable";
- a keyword is named by its `System` type;
- any other type is named by its last segment, without the `global::` alias,
  the namespace and the outer types.

So "global::My.Repo<global::My.User>" is named "Repo",
"global::Ns.Outer<T>.Inner" is "Inner" and "string" is "String".
`ToDisplayString()` is the fully qualified name with every `global::` removed
(`BlueprintModels.DisplayName`). NDI0003, NDI0008, NDI0009, NDI0010 and NDI0013
name the type that way. The builder's constructor ladder works on
Roslyn's `IMethodSymbol`. Here that becomes `ConstructorInfo`, with an
`isPublic` flag added for the accessibility filter. `_resolvedServices` is a
`Dictionary` enumerated in insertion order, so it is modelled as a map plus the
sequence of its keys in insertion order (`resolvedOrder`). Some builder methods
take a `ghost` parameter that the source does not have: `SelectConstructor`'s
`owner` and `ResolveParameters`' `via` name the registration and the decorator
whose constructor is being used. They carry no data into the computation and
serve only to state why a diagnostic is reported.

Every descriptor in the table is an error (`Diagnostics.AllDescriptorsAreErrors`).
So "some diagnostic has severity Error" is the same as "the diagnostic list is
non-empty" (`Diagnostics.HasErrorIffNonEmpty`), and the builder's contracts use
the simpler form.

`GraphBuilder.cs` reads members that the records in `BlueprintModels.cs` do not
declare, such as `ContainerSymbol`, `ServiceType`, `DecoratorTypes` and the
locations. The model follows the logic of `GraphBuilder.cs` over the fields the
records do declare.

## Model

| member | source | states |
|---|---|---|
| BlueprintModels.OutlivesIsStrictTotalOrder | CSharpDIFramework.SourceGenerators/BlueprintModels.cs:17-22 | The lifetime comparison `>` used by the captive check is irreflexive, transitive and total on Transient < Scoped < Singleton. |
| BlueprintModels.NewRegistration | CSharpDIFramework.SourceGenerators/BlueprintModels.cs:52-65 | The record constructor stores each argument unchanged and starts `Decorators` empty. |
| BlueprintModels.WithDecorators | CSharpDIFramework.SourceGenerators/BlueprintModels.cs:64 | The `Decorators` setter changes that member and nothing else. |
| BlueprintModels.SetDecoratorsTwice | CSharpDIFramework.SourceGenerators/BlueprintModels.cs:64 | Setting `Decorators` twice keeps only the last value. Setting it to its current value changes nothing. |
| BlueprintModels.ShortNameIsUnqualified | CSharpDIFramework.SourceGenerators/GraphBuilder.cs:95 | A symbol's `Name` holds no `.`, `:`, `<` or `>`. An identifier that is not a keyword is its own `Name`. |
| BlueprintModels.ShortNameOfQualified | CSharpDIFramework.SourceGenerators/GraphBuilder.cs:161-162 | The namespace and the outer types are dropped, including an outer type's type arguments: `Ns.Repo` is named "Repo" and `Ns.Outer<T>.Inner` is named "Inner". |
| BlueprintModels.ShortNameOfGeneric | CSharpDIFramework.SourceGenerators/GraphBuilder.cs:184-186 | The type arguments are dropped as well: `Ns.Repo<Arg>` is named "Repo", whatever `Arg` is. |
| BlueprintModels.ShortNameOfGlobal | CSharpDIFramework.SourceGenerators/GraphBuilder.cs:286-287 | The `global::` alias is dropped: `global::Foo` is named "Foo". |
| BlueprintModels.ShortNameOfKeyword | CSharpDIFramework.SourceGenerators/GraphBuilder.cs:161 | A keyword type is named by its `System` type: `string` is named "String" and `int` is named "Int32". |
| BlueprintModels.ShortNameOfArray | CSharpDIFramework.SourceGenerators/GraphBuilder.cs:161 | An array type `T[]` has the empty `Name`. |
| BlueprintModels.ShortNameOfNullable | CSharpDIFramework.SourceGenerators/GraphBuilder.cs:161 | A nullable value type `T?` is named "Nullable". |
| BlueprintModels.DisplayName | CSharpDIFramework.SourceGenerators/GraphBuilder.cs:27 | `ToDisplayString()` is never longer than the fully qualified name, and leaves a name without `:` unchanged. |
| BlueprintModels.DisplayNameOfGlobal | CSharpDIFramework.SourceGenerators/GraphBuilder.cs:218 | `global::N` is displayed as `N`. |
| BlueprintModels.DisplayNameSplits | CSharpDIFramework.SourceGenerators/GraphBuilder.cs:236 | Text on both sides of a character that is not part of `global:` is displayed separately, so every `global::` is dropped wherever it occurs. |
| BlueprintModels.DisplayNameOfGroup | CSharpDIFramework.SourceGenerators/GraphBuilder.cs:259 | A generic type is displayed as its displayed name followed by its displayed type argument in angle brackets. |
| BlueprintModels.DisplayNameOfGeneric | CSharpDIFramework.SourceGenerators/GraphBuilder.cs:306 | `global::Repo<global::User>` is displayed as `Repo<User>`. |
| Diagnostics.Descriptor | CSharpDIFramework.SourceGenerators/Diagnostics.cs:7-169 | Every descriptor is enabled by default, has category `CSharpDIFramework.Usage` and severity Error, and takes between one and four message arguments. Its id is "NDI00" followed by its number, and it has its own title and message. |
| Diagnostics.Ordinal | CSharpDIFramework.SourceGenerators/Diagnostics.cs:7-169 | The descriptors are numbered 1 to 20 in declaration order. |
| Diagnostics.Code | CSharpDIFramework.SourceGenerators/Diagnostics.cs:7-169 | The id of descriptor number n is "NDI00" followed by n in two decimal digits. |
| Diagnostics.ArgumentCount | CSharpDIFramework.SourceGenerators/Diagnostics.cs:7-169 | Every message has between one and four placeholders. |
| Diagnostics.AllDescriptorsAreErrors | CSharpDIFramework.SourceGenerators/Diagnostics.cs:7-169 | Every one of the twenty descriptors has default severity Error. |
| Diagnostics.DescriptorIdsDistinct | CSharpDIFramework.SourceGenerators/Diagnostics.cs:7-169 | The twenty descriptor ids NDI0001 to NDI0020 are pairwise distinct. |
| Diagnostics.HasErrorIffNonEmpty | CSharpDIFramework.SourceGenerators/GraphBuilder.cs:50 | `Any(d => d.Severity == Error)` holds exactly when the diagnostic list is non-empty. |
| Diagnostics.ErrorsPersist | CSharpDIFramework.SourceGenerators/GraphBuilder.cs:131 | The diagnostic list only grows, so an error once recorded stays recorded. |
| Diagnostics.BuilderDescriptorArities | CSharpDIFramework.SourceGenerators/Diagnostics.cs:34-131 | NDI0004, 0005, 0008 and 0013 take two message arguments. NDI0011 and 0015 take four. |
| ConstructorSelection.MaxArity | CSharpDIFramework.SourceGenerators/GraphBuilder.cs:252 | `Max(c => c.Parameters.Length)` bounds every candidate's arity, and some candidate reaches it. |
| ConstructorSelection.Greediest | CSharpDIFramework.SourceGenerators/GraphBuilder.cs:253 | The candidates of maximal arity: a non-empty subset of the candidates, all of maximal arity. |
| ConstructorSelection.GreediestComplete | CSharpDIFramework.SourceGenerators/GraphBuilder.cs:253-262 | Every candidate of maximal arity is in `Greediest`. It holds more than one constructor exactly when two candidates share the maximal arity, which is the tie the source tests. |
| ConstructorSelection.ChooseAmong | CSharpDIFramework.SourceGenerators/GraphBuilder.cs:224-265 | The chosen constructor is one of the candidates. A rejection is a well-formed NDI0009 or tie diagnostic. |
| ConstructorSelection.ChooseAmongLadder | CSharpDIFramework.SourceGenerators/GraphBuilder.cs:224-265 | The ladder steps in order. A single `[Inject]` constructor wins. Two or more `[Inject]` constructors give NDI0009. A lone candidate wins. Otherwise the unique greediest constructor wins, and a tie gives the tie diagnostic with the maximal arity. Rejection happens exactly in the two ambiguous cases. |
| ConstructorSelection.ChooseConstructor | CSharpDIFramework.SourceGenerators/GraphBuilder.cs:203-266 | The chosen constructor is public and belongs to the type. NDI0003 is reported exactly when there is no public constructor, and it names the type as `ToDisplayString()` shows it. Rejections are NDI0003, NDI0008 or NDI0009 with well-formed arguments. |
| ConstructorSelection.ChooseDecoratorConstructor | CSharpDIFramework.SourceGenerators/GraphBuilder.cs:268-338 | The chosen constructor is public and takes the decorated service exactly once. NDI0014 is reported exactly when no such constructor exists. Rejections are NDI0014, NDI0013 or NDI0009. |
| GraphBuilder.RegistrationMapKeys | CSharpDIFramework.SourceGenerators/GraphBuilder.cs:21-35 | The map built by the constructor has one key per registered service type. |
| GraphBuilder.RegistrationMapSelfKeyed | CSharpDIFramework.SourceGenerators/GraphBuilder.cs:21-35 | Every map entry is stored under its own registration's service type. |
| GraphBuilder.RegistrationMapKeepsFirst | CSharpDIFramework.SourceGenerators/GraphBuilder.cs:23-34 | The entry for a service type is the first registration of that type. Later ones are dropped. |
| GraphBuilder.DuplicatesCounted | CSharpDIFramework.SourceGenerators/GraphBuilder.cs:23-30 | The number of NDI0010 diagnostics is the number of registrations minus the number of distinct service types. |
| GraphBuilder.RegistrationMapOf | CSharpDIFramework.SourceGenerators/GraphBuilder.cs:21-35 | The first registration always keeps its entry in the map. |
| GraphBuilder.DuplicateDiagnosticsOf | CSharpDIFramework.SourceGenerators/GraphBuilder.cs:21-35 | There are fewer duplicate reports than registrations, because the first registration is never reported. |
| GraphBuilder.NoDuplicatesStep | CSharpDIFramework.SourceGenerators/GraphBuilder.cs:23-33 | A registration adds an NDI0010 exactly when its service type is already registered. |
| GraphBuilder.DuplicatesAreNDI0010 | CSharpDIFramework.SourceGenerators/GraphBuilder.cs:25-29 | Each constructor diagnostic is a well-formed NDI0010. It names a registered service type as `ToDisplayString()` shows it. |
| GraphBuilder.NoDuplicatesIff | CSharpDIFramework.SourceGenerators/GraphBuilder.cs:21-35 | The constructor reports nothing exactly when the registrations' service types are pairwise distinct. |
| GraphBuilder.DistinctRegistrationsAllMapped | CSharpDIFramework.SourceGenerators/GraphBuilder.cs:21-35 | Without duplicates, every registration is the map's entry for its own type. |
| GraphBuilder.NotRegisteredDiagnostic | CSharpDIFramework.SourceGenerators/GraphBuilder.cs:157-164 | An unregistered parameter gives a well-formed NDI0005. |
| GraphBuilder.CaptiveDiagnostic | CSharpDIFramework.SourceGenerators/GraphBuilder.cs:173-189 | As written: NDI0015 exactly when the parent's implementation type differs from its service type, and NDI0011 otherwise. |
| GraphBuilder.CaptiveDiagnosticMisfires | CSharpDIFramework.SourceGenerators/GraphBuilder.cs:173-179 | An ordinary interface-to-class singleton that depends on a scoped service is classified with NDI0015 by the builder's rule as written, but with NDI0011 by the intended one. |
| GraphBuilder.IntendedCaptiveDiagnostic | CSharpDIFramework.SourceGenerators/GraphBuilder.cs:168-190 | Corrected: NDI0015 exactly for the parameters of a decorator, and NDI0011 otherwise. Only the descriptor is corrected. The arguments are as written, so NDI0015 still names the decorated implementation. |
| GraphBuilder.ClassifyParameter | CSharpDIFramework.SourceGenerators/GraphBuilder.cs:148-198 | Per parameter: it is skipped exactly when it is the excluded type. NDI0005 is reported exactly when it is unregistered. A captive diagnostic is reported exactly when the parent strictly outlives the dependency, and it is NDI0015 exactly when the parent's implementation type differs from its service type. Otherwise it recurses into the registered dependency, which is not outlived. |
| GraphBuilder.IntendedClassifyParameter | CSharpDIFramework.SourceGenerators/GraphBuilder.cs:168-190 | Corrected classification: a captive dependency is NDI0015 exactly when a decorator's parameters are walked, which is when a type is excluded. |
| GraphBuilder.ClassifyAgreesWithIntended | CSharpDIFramework.SourceGenerators/GraphBuilder.cs:148-198 | The written and the corrected classification agree on every input except the descriptor of a captive dependency. They agree entirely whenever "implementation differs from service type" coincides with "a decorator's parameter". |
| GraphBuilder.CaptiveRuleTable | CSharpDIFramework.SourceGenerators/GraphBuilder.cs:169 | Singleton→Scoped/Transient and Scoped→Transient are reported. Equal lifetimes and longer-lived dependencies are resolved. |
| GraphBuilder.ToResolveNone | CSharpDIFramework.SourceGenerators/GraphBuilder.cs:150 | With no excluded type, every parameter is looked up. |
| GraphBuilder.PathChainSnoc | CSharpDIFramework.SourceGenerators/GraphBuilder.cs:104 | Pushing a type that the top of the path depends on keeps the path a chain of dependencies. |
| GraphBuilder.ExplainedSnoc | CSharpDIFramework.SourceGenerators/GraphBuilder.cs:96-100 | Appending a diagnostic that has a cause keeps every diagnostic explained. |
| GraphBuilder.DuplicatesExplained | CSharpDIFramework.SourceGenerators/GraphBuilder.cs:23-30 | Each duplicate-registration diagnostic of the constructor is explained by a duplicate. |
| GraphBuilder.DependenciesMemoizedExtends | CSharpDIFramework.SourceGenerators/GraphBuilder.cs:137 | A service whose dependencies are memoised keeps that property when the memo grows. |
| GraphBuilder.DecoratorsMemoizedStep | CSharpDIFramework.SourceGenerators/GraphBuilder.cs:119-126 | A further decorator whose dependencies are memoised keeps all decorators' dependencies memoised. |
| GraphBuilder.MemoizeFresh | CSharpDIFramework.SourceGenerators/GraphBuilder.cs:136-137 | Memoising a new service while no error exists adds a new entry. The state only progresses, and the keys below it on the path stay unmemoised. |
| GraphBuilder.CyclePathJoinsClosedPath | CSharpDIFramework.SourceGenerators/GraphBuilder.cs:95-99 | The NDI0004 cycle text is the path from bottom to top followed by the closing type, all joined by " -> ". |
| GraphBuilder.CycleDiagnostic | CSharpDIFramework.SourceGenerators/GraphBuilder.cs:95-99 | NDI0004 is well-formed. Its arguments are the name of the service on top of the path, and the whole cycle joined by " -> ": the path from bottom to top, then the closing type. |
| GraphBuilder.MemoValues | CSharpDIFramework.SourceGenerators/GraphBuilder.cs:61 | `_resolvedServices.Values` lists the entries in insertion order, one per key. |
| GraphBuilder.GetContainingTypeDeclarations | CSharpDIFramework.SourceGenerators/GraphBuilder.cs:69-80 | One "public partial class" header per enclosing type. Front insertion puts the outermost type first. |
| GraphBuilder.PathStack.Push | CSharpDIFramework.SourceGenerators/GraphBuilder.cs:104 | Push puts the key on top of the stack. |
| GraphBuilder.PathStack.Pop | CSharpDIFramework.SourceGenerators/GraphBuilder.cs:110 | Pop removes and returns the top key. |
| GraphBuilder.PathStack.Contains | CSharpDIFramework.SourceGenerators/GraphBuilder.cs:92 | Contains is membership in the stack. |
| GraphBuilder.SkipStep | CSharpDIFramework.SourceGenerators/GraphBuilder.cs:150-153 | The excluded parameter leaves the loop invariant of `ResolveParameters` intact. |
| GraphBuilder.ReportStep | CSharpDIFramework.SourceGenerators/GraphBuilder.cs:155-191 | Appending a missing-service or captive diagnostic keeps the loop invariant of `ResolveParameters`. |
| GraphBuilder.RecurseStep | CSharpDIFramework.SourceGenerators/GraphBuilder.cs:193-197 | A recursive resolution that progressed the state keeps the loop invariant. It appends the dependency exactly when one was returned. |
| GraphBuilder.DecoratorStep | CSharpDIFramework.SourceGenerators/GraphBuilder.cs:117-127 | A decorator that was resolved or skipped keeps the decorator loop's invariant. |
| GraphBuilder.BuildStep | CSharpDIFramework.SourceGenerators/GraphBuilder.cs:45-48 | After each registration of `Build`'s loop, every visited service type is memoised, or an error is recorded. |
| GraphBuilder.GraphBuilder.PathPush | CSharpDIFramework.SourceGenerators/GraphBuilder.cs:92-104 | Pushing a registered type not yet on the path keeps the path duplicate-free, and the path is shorter than the registration map. This bounds the recursion. |
| GraphBuilder.GraphBuilder.EntryOf | CSharpDIFramework.SourceGenerators/GraphBuilder.cs:86-89 | A cached entry belongs to its own registration and is resolved by the builder's rules. |
| GraphBuilder.GraphBuilder.MemoInsert | CSharpDIFramework.SourceGenerators/GraphBuilder.cs:136-137 | Inserting a well-resolved service whose dependencies are already memoised, under a fresh key, keeps the memo table valid. |
| GraphBuilder.GraphBuilder.Report | CSharpDIFramework.SourceGenerators/GraphBuilder.cs:157-164 | `_diagnostics.Add(d)` appends exactly `d` and nothing else changes. The builder stays valid because `d` has a cause. |
| GraphBuilder.GraphBuilder.Memoize | CSharpDIFramework.SourceGenerators/GraphBuilder.cs:137 | `_resolvedServices[key] = resolved` adds exactly that entry, at the end of the insertion order. |
| GraphBuilder.GraphBuilder.constructor | CSharpDIFramework.SourceGenerators/GraphBuilder.cs:16-36 | The map and the duplicate diagnostics are what the loop builds over the registrations. The memo is empty, and the builder is valid. |
| GraphBuilder.GraphBuilder.SelectConstructor | CSharpDIFramework.SourceGenerators/GraphBuilder.cs:203-266 | Returns the ladder's choice, or appends its rejection diagnostic and returns null. Nothing else changes. |
| GraphBuilder.GraphBuilder.SelectDecoratorConstructor | CSharpDIFramework.SourceGenerators/GraphBuilder.cs:268-338 | The same as SelectConstructor, for a decorator of the given service. |
| GraphBuilder.GraphBuilder.ResolveService | CSharpDIFramework.SourceGenerators/GraphBuilder.cs:82-139 | A cached service is returned unchanged. A type already on the path appends exactly the NDI0004 diagnostic, and that cycle follows a chain of dependencies. A fresh success memoises the registration's own service, and happens only when no error exists. Null implies an error was recorded, and every diagnostic has a cause. The path is restored, and the memo only grows. |
| GraphBuilder.GraphBuilder.ResolveFresh | CSharpDIFramework.SourceGenerators/GraphBuilder.cs:104-138 | It pushes, selects, resolves and pops. It memoises only when no error has been recorded. |
| GraphBuilder.GraphBuilder.ResolveDependencies | CSharpDIFramework.SourceGenerators/GraphBuilder.cs:114-127 | With no error, the selected constructor, its dependencies and its decorators form a well-resolved service. All of their dependencies are memoised. |
| GraphBuilder.GraphBuilder.ResolveDecorators | CSharpDIFramework.SourceGenerators/GraphBuilder.cs:116-127 | With no error, there is one resolved decorator per declared decorator, in declaration order. Their dependencies are memoised. |
| GraphBuilder.GraphBuilder.ResolveDecorator | CSharpDIFramework.SourceGenerators/GraphBuilder.cs:119-126 | It returns null exactly when the decorator's constructor is rejected. It then appends exactly that rejection and leaves the memo unchanged. Otherwise it returns the decorator with the dependencies of its other parameters. |
| GraphBuilder.GraphBuilder.ResolveParameters | CSharpDIFramework.SourceGenerators/GraphBuilder.cs:141-201 | Every dependency is the memoised service of its type, and none is captive. With no error, the dependency types are the non-excluded parameter types in order. Every missing or captive parameter has its diagnostic among the new ones. |
| GraphBuilder.GraphBuilder.ResolveParameter | CSharpDIFramework.SourceGenerators/GraphBuilder.cs:148-198 | One parameter, classified as the source does. The excluded one changes nothing. A missing or captive one appends exactly its one diagnostic, is not recursed into, and changes nothing else. A resolved one without error appends the memoised service of its type. The loop invariant of `ResolveParameters` is kept. |
| GraphBuilder.GraphBuilder.AllResolved | CSharpDIFramework.SourceGenerators/GraphBuilder.cs:45-61 | Once every registration is memoised, the memo covers exactly the registered types, and every value is well resolved. |
| GraphBuilder.GraphBuilder.MemoCoversRegistrations | CSharpDIFramework.SourceGenerators/GraphBuilder.cs:45-61 | Once every registration is memoised or reported with no error, the memo's keys are exactly the registered types. |
| GraphBuilder.GraphBuilder.MemoValuesWellResolved | CSharpDIFramework.SourceGenerators/GraphBuilder.cs:61 | Every memoised service is well resolved. |
| GraphBuilder.GraphBuilder.MemoizedAmongValues | CSharpDIFramework.SourceGenerators/GraphBuilder.cs:61 | A memoised service is among `_resolvedServices.Values`. |
| GraphBuilder.GraphBuilder.DependenciesClosed | CSharpDIFramework.SourceGenerators/GraphBuilder.cs:61 | The memoised services are closed under dependency: each dependency of a service, or of one of its decorators, is itself a memoised service. |
| GraphBuilder.GraphBuilder.ResolvedTypesDistinct | CSharpDIFramework.SourceGenerators/GraphBuilder.cs:61 | The memoised services have pairwise different service types. |
| GraphBuilder.GraphBuilder.Build | CSharpDIFramework.SourceGenerators/GraphBuilder.cs:38-67 | Duplicates stop everything before resolution. A blueprint exists exactly when no error was recorded. Its services cover every registered type once, each well resolved, and every dependency of a service or of its decorators is itself a blueprint service. The diagnostics are returned either way, and each has a cause: a duplicate, a rejected constructor, a missing or captive parameter of a selected constructor, or a cycle along a chain of dependencies. |
| EquatableArrays.Default | CSharpDIFramework.SourceGenerators/Helpers/EquatableArray.cs:20 | The `default` struct holds a null array. |
| EquatableArrays.Empty | CSharpDIFramework.SourceGenerators/Helpers/EquatableArray.cs:15 | `Empty` holds a zero-length array that is not null. |
| EquatableArrays.FromArray | CSharpDIFramework.SourceGenerators/Helpers/EquatableArray.cs:26-29 | The array constructor keeps the elements and their count. |
| EquatableArrays.FromList | CSharpDIFramework.SourceGenerators/Helpers/EquatableArray.cs:31-34 | The list constructor copies the elements in order into an array that is not null. |
| EquatableArrays.AsSpan | CSharpDIFramework.SourceGenerators/Helpers/EquatableArray.cs:96-99 | A null array reads as empty. Otherwise the span is the array. |
| EquatableArrays.Count | CSharpDIFramework.SourceGenerators/Helpers/EquatableArray.cs:36 | `Count` is the span's length, and 0 for null. |
| EquatableArrays.SequenceEqual | CSharpDIFramework.SourceGenerators/Helpers/EquatableArray.cs:63 | `SequenceEqual` holds exactly when the two sequences are equal. |
| EquatableArrays.Equals | CSharpDIFramework.SourceGenerators/Helpers/EquatableArray.cs:61-64 | Two arrays are equal exactly when their spans are. |
| EquatableArrays.OpEquality | CSharpDIFramework.SourceGenerators/Helpers/EquatableArray.cs:115-118 | `==` is `Equals`. |
| EquatableArrays.OpInequality | CSharpDIFramework.SourceGenerators/Helpers/EquatableArray.cs:126-129 | `!=` is the negation of `Equals`. |
| EquatableArrays.EqualsIsEquivalence | CSharpDIFramework.SourceGenerators/Helpers/EquatableArray.cs:61-72 | Value equality is reflexive, symmetric and transitive, and `!=` negates `==`. |
| EquatableArrays.FromListEquality | CSharpDIFramework.SourceGenerators/Helpers/EquatableArray.cs:31-34 | Arrays built from lists are equal exactly when the lists are. |
| EquatableArrays.DefaultEqualsEmpty | CSharpDIFramework.SourceGenerators/Helpers/EquatableArray.cs:15 | The null array equals `Empty`, and both have count 0. |
| EquatableArrays.MixSnoc | CSharpDIFramework.SourceGenerators/Helpers/EquatableArray.cs:84-87 | Adding one more element is one more `Add` step of the hasher. |
| EquatableArrays.HashOf | CSharpDIFramework.SourceGenerators/Helpers/EquatableArray.cs:75-90 | The hash is 0 for a null array and the finalised seed for no elements. Otherwise it is the finalised hash of adding the last element to the mix of the others. |
| EquatableArrays.GetHashCode | CSharpDIFramework.SourceGenerators/Helpers/EquatableArray.cs:75-90 | Returns 0 for null. Otherwise it returns the finalised hash of the elements, added in order. |
| EquatableArrays.EqualNonNullArraysHashAlike | CSharpDIFramework.SourceGenerators/Helpers/EquatableArray.cs:75-90 | Equal arrays that are not null hash alike. |
| EquatableArrays.DefaultAndEmptyHashApart | CSharpDIFramework.SourceGenerators/Helpers/EquatableArray.cs:77-80 | As written: for a hasher whose finalised seed is non-zero, the null array and `Empty` are equal but hash differently. |
| EquatableArrays.EqualArraysHashAlike | CSharpDIFramework.SourceGenerators/Helpers/EquatableArray.cs:75-90 | Corrected hash: any two equal arrays hash alike, null included. |
| EquatableArrays.StableHashAgreesOnNonNull | CSharpDIFramework.SourceGenerators/Helpers/EquatableArray.cs:82-89 | The corrected hash agrees with the written one on every array that is not null. |
| CodeGenerator.ReplaceDoubleColons | CSharpDIFramework.SourceGenerators/CodeGenerator.cs:393 | `Replace("::", "__")` preserves the length and touches only colons. A leading "::" becomes "__", and no "::" survives. |
| CodeGenerator.ReplaceDoubleColonsResumes | CSharpDIFramework.SourceGenerators/CodeGenerator.cs:393 | The scan resumes after each replaced pair and otherwise after one character, so ":::" becomes "__:". |
| CodeGenerator.ReplaceDoubleColonsSplits | CSharpDIFramework.SourceGenerators/CodeGenerator.cs:393 | The replacement works piecewise across any character that is not a colon. |
| CodeGenerator.ReplacePunctuation | CSharpDIFramework.SourceGenerators/CodeGenerator.cs:394-397 | Each of `.`, `<`, `>` and `,` becomes `_`. Every other character is kept. |
| CodeGenerator.SanitizeTypeName | CSharpDIFramework.SourceGenerators/CodeGenerator.cs:389-398 | The result has the same length and contains no `.`, `<`, `>`, `,` or "::". Punctuation becomes `_`, and every other character except a colon is unchanged. |
| CodeGenerator.SanitizeMergesSeparators | CSharpDIFramework.SourceGenerators/CodeGenerator.cs:389-398 | Names that differ only in one of `._<>,` sanitise alike. The mapping is not injective. |
| CodeGenerator.SingletonFieldName | CSharpDIFramework.SourceGenerators/CodeGenerator.cs:400-403 | "_singleton_" followed by the sanitised name. It has no `.<>,`. |
| CodeGenerator.FactoryMethodName | CSharpDIFramework.SourceGenerators/CodeGenerator.cs:405-408 | "Create_" followed by the sanitised name. It has no `.<>,`. |
| CodeGenerator.NamesFollowSanitizedNames | CSharpDIFramework.SourceGenerators/CodeGenerator.cs:400-408 | Two field names, or two factory names, are equal exactly when the sanitised names are. A field name never equals a factory name. |
| CodeGenerator.RequestedTypeOfResolveCall | CSharpDIFramework.SourceGenerators/CodeGenerator.cs:468 | Reading a generated `ctx.Resolve<T>()` call back gives exactly `T`. |
| CodeGenerator.Arguments | CSharpDIFramework.SourceGenerators/CodeGenerator.cs:445-470 | There is one argument per parameter, in order. |
| CodeGenerator.Argument | CSharpDIFramework.SourceGenerators/CodeGenerator.cs:447-469 | `IResolver` gets the context, and the decorated type gets the decorated instance ("" when there is none). Every other parameter gets a `Resolve` call that reads back as exactly its own type. |
| CodeGenerator.GenerateArgumentList | CSharpDIFramework.SourceGenerators/CodeGenerator.cs:439-473 | No parameters give "". A single parameter gives its own argument, and the first parameter's argument always begins the list. |
| CodeGenerator.ArgumentListSnoc | CSharpDIFramework.SourceGenerators/CodeGenerator.cs:472 | No parameters give "". One more parameter appends ", " and its argument. |
| CodeGenerator.RenderArgTrees | CSharpDIFramework.SourceGenerators/CodeGenerator.cs:439-473 | Rendering the argument trees yields `GenerateArgumentList`'s arguments. |
| CodeGenerator.GenerateInstanceCreation | CSharpDIFramework.SourceGenerators/CodeGenerator.cs:410-434 | The loop's text is the rendering of the creation tree over all decorators. |
| CodeGenerator.UndecoratedCreation | CSharpDIFramework.SourceGenerators/CodeGenerator.cs:413-418 | With no decorators, the service is built as `new Impl(args)`. |
| CodeGenerator.DecoratorChain | CSharpDIFramework.SourceGenerators/CodeGenerator.cs:421-431 | The decorators in reverse declaration order, then the implementation. |
| CodeGenerator.InnerIndexOfArgTrees | CSharpDIFramework.SourceGenerators/CodeGenerator.cs:461-465 | The base call nests nothing. A decorator taking the decorated type nests the inner expression there. |
| CodeGenerator.LastDecoratorOutermost | CSharpDIFramework.SourceGenerators/CodeGenerator.cs:421-431 | When each decorator's constructor takes the service type, the nesting runs from the last declared decorator outermost to the implementation innermost. |
| CodeGenerator.DecoratedInstancePassedPerOccurrence | CSharpDIFramework.SourceGenerators/CodeGenerator.cs:461-465 | The inner instance is passed once for each occurrence of the decorated type among the parameters. |
| CodeGenerator.Singletons | CSharpDIFramework.SourceGenerators/CodeGenerator.cs:34 | A service is among the singletons exactly when it is a blueprint service with Singleton lifetime. |
| CodeGenerator.SingletonsKeepOrder | CSharpDIFramework.SourceGenerators/CodeGenerator.cs:34 | The selection keeps blueprint order. |
| CodeGenerator.DisposableSingletons | CSharpDIFramework.SourceGenerators/CodeGenerator.cs:369-372 | A service is disposed exactly when it is a singleton and disposable. |
| CodeGenerator.DisposableAmongSingletons | CSharpDIFramework.SourceGenerators/CodeGenerator.cs:369-372 | The disposed services are the disposable singletons, in singleton order. |
| CodeGenerator.DisposedFieldsAreDeclared | CSharpDIFramework.SourceGenerators/CodeGenerator.cs:34-36 | Every field `Dispose` touches is a declared singleton field. |
| CodeGenerator.BranchBodyFor | CSharpDIFramework.SourceGenerators/CodeGenerator.cs:163-177 | A singleton, and only a singleton, returns its own lazy field. A transient or scoped service throws the scope message, which names the service and the lifetime "Transient" or "Scoped". |
| CodeGenerator.RootMessage | CSharpDIFramework.SourceGenerators/CodeGenerator.cs:168-176 | The scope message has the service's full name at offset 9 and the lifetime name right after "' has a ". It is 114 characters longer than the two names. |
| CodeGenerator.RootMessageIdentifiesService | CSharpDIFramework.SourceGenerators/CodeGenerator.cs:168-176 | Two scope messages for the same lifetime are equal only for the same service. |
| CodeGenerator.GenerateResolveBranches | CSharpDIFramework.SourceGenerators/CodeGenerator.cs:153-183 | There is one branch per service, in order. The first branch is "if" and the rest are "else if". |
| CodeGenerator.ChainBranchSnoc | CSharpDIFramework.SourceGenerators/CodeGenerator.cs:160-183 | Appending the next service's branch, opened by "if" only at position 0, extends the chain by one. |
| CodeGenerator.DispatchFirstMatch | CSharpDIFramework.SourceGenerators/CodeGenerator.cs:153-190 | An `if` / `else if` chain runs the first branch that tests the requested type. |
| CodeGenerator.DispatchNoMatch | CSharpDIFramework.SourceGenerators/CodeGenerator.cs:189-191 | A type no branch tests reaches the final not-registered throw. |
| CodeGenerator.ResolveChainDispatch | CSharpDIFramework.SourceGenerators/CodeGenerator.cs:153-192 | The generated `Resolve` gives each service type its first service's body, and every other type the not-registered throw. |
| CodeGenerator.Indent | CSharpDIFramework.SourceGenerators/CodeGenerator.cs:24 | `new string(' ', level * 4)`: exactly 4·level spaces. |
| CodeGenerator.OpenContainingTypes | CSharpDIFramework.SourceGenerators/CodeGenerator.cs:21-27 | Each declaration and its "{" at level k. The final level is the number of declarations. |
| CodeGenerator.CloseContainingTypes | CSharpDIFramework.SourceGenerators/CodeGenerator.cs:46-49 | One "}" per level, innermost first. |
| CodeGenerator.OpeningDepth | CSharpDIFramework.SourceGenerators/CodeGenerator.cs:22-27 | After k declarations the brace depth is k. |
| CodeGenerator.ClosingDepth | CSharpDIFramework.SourceGenerators/CodeGenerator.cs:46-49 | k closing lines lower the depth by k. |
| CodeGenerator.ContainingTypesBalance | CSharpDIFramework.SourceGenerators/CodeGenerator.cs:22-49 | The opening and closing braces balance, and no prefix of the closing lines goes below zero. Each "}" sits at the indentation of the "{" it closes. |
| CodeGenerator.ClosingMatchesOpening | CSharpDIFramework.SourceGenerators/CodeGenerator.cs:24-49 | The j-th closing "}" has the indentation of the "{" of the level it closes. |

## Left out

- `SourceGenerator.cs`, `BlueprintParser.cs` and `BlueprintValidator.cs` are not part of this model. They hold the Roslyn pipeline, attribute parsing and validation. They are the only producers of NDI0001, 0002, 0006, 0007, 0012, 0016, 0017, 0018, 0019 and 0020, and of module merging and scope tags. Here only their descriptors are tabled.
- `LocationInfo`, `DiagnosticInfo` and source locations in general are not modelled. A diagnostic is its descriptor and its message arguments.
- The `CSharpDIFramework.Core` attribute and interface files declare only the runtime API. They are not modelled.
- Most of `Generate`'s template text is not modelled: the header lines, the namespace line, the class line, the singleton fields, the container constructor, the factories, `CreateScope`, the scope class and `GenerateDummyContainer`. So is how the generated container behaves at run time. The model covers the selections, names, expressions, branch chain and brace nesting these are built from.
- The `ScopedToTag` branch of `GenerateResolveMethod` is left out, because `ServiceLifetime` has no such member.
- The `IContainer` branch of `GenerateArgumentList` is left out, because it compares with `Constants.ContainerInterfaceName`, which `Constants` does not declare.
- `System.HashCode` is abstract. Its per-process random seed, its mixing step and its finaliser are parameters, so no concrete hash value is computed.
- The non-generic `Equals(object)`, `GetArray` and the two enumerators are not modelled separately. The enumerators read the same elements as `AsSpan`.
- Detection of `[Inject]` through Roslyn attribute data becomes a `hasInjectAttribute` flag, and accessibility becomes an `isPublic` flag.
- GraphBuilder.GraphBuilder.ResolveService: on failure, the contract states that an error has been recorded and that every diagnostic has a cause. It does not give the exact list appended by nested resolutions. The exact effects are stated per step: NDI0004 on a cycle (`ResolveService`), the rejection of constructor selection (`SelectConstructor`, `SelectDecoratorConstructor`), and one diagnostic per missing or captive parameter (`ResolveParameter`).
- GraphBuilder.GraphBuilder.ResolveFresh: the same holds as for ResolveService. A failure is stated as "an error exists, and every diagnostic has a cause", not as the exact diagnostics.
- GraphBuilder.GraphBuilder.ResolveDependencies: its contract states the dependencies and decorators only when no error exists. With an error, it states that every diagnostic has a cause, not the exact list appended.
- GraphBuilder.GraphBuilder.ResolveDecorators: states the resolved decorators only when no error exists. With an error, it does not give the exact list appended by the decorators' nested resolutions.
- GraphBuilder.GraphBuilder.ResolveDecorator: a rejected constructor is stated exactly. After a successful selection, the diagnostics appended by the parameters' nested resolutions are not listed.
- The builder's contracts allow the resolution to stop at the first error. The source goes on and reports every error, and no contract promises that every problem in the registrations is reported. This applies to ResolveService, ResolveFresh, ResolveDependencies, ResolveDecorators, ResolveDecorator and Build.
- BlueprintModels.ShortName: tuple types, pointer and function-pointer types, `nint` and `nuint`, and identifiers escaped with `@` are not modelled. Their Roslyn `Name` differs from the rule above.
- BlueprintModels.ShortNameIsUnqualified: does not promise that a `Name` is no longer than the full name, because a keyword's `Name` can be longer (`int` is named "Int32").
- BlueprintModels.DisplayName: the full name is taken to be Roslyn's fully qualified format, which differs from `ToDisplayString()` only in the `global::` alias. Formats that differ in other ways are not modelled.
- GraphBuilder.GraphBuilder.Build: the namespace, the container name and the containing type declarations are taken from the description. The source computes all three from the container symbol (`GetContainingTypeDeclarations` is modelled on its own).
- GraphBuilder.GraphBuilder.Build: the contracts say why each diagnostic is reported. They do not state the converse, that a graph with no duplicate, no rejected constructor, no missing or captive parameter and no cycle always yields a blueprint.
- `Generate` and `GenerateArgumentList` call `GetArray()!` (CodeGenerator.cs:34 and 446). For a `default` `EquatableArray` that dereferences null and throws. The model's `seq` parameters are never null, so that exception is not modelled.
- The argument-list and creation-tree functions assume a non-null decorated instance. A null one is rendered as "", as `string.Join` would.

## Findings

| source | as written | input that shows it | evidently intended | confidence | as-written member | corrected member |
|---|---|---|---|---|---|---|
| CSharpDIFramework.SourceGenerators/Helpers/EquatableArray.cs:77-89 | `GetHashCode` returns 0 for a null array, but `Equals` treats a null array as empty. | `default(EquatableArray<T>)` and `EquatableArray<T>.Empty` compare equal, yet hash 0 and `HashCode.ToHashCode()` of no elements. The latter is non-zero for almost every per-process seed. | Equal arrays hash alike: hash the elements of `AsSpan()` whether or not the array is null. | high, not executed | EquatableArrays.DefaultAndEmptyHashApart | EquatableArrays.EqualArraysHashAlike |
| CSharpDIFramework.SourceGenerators/GraphBuilder.cs:173-179 | A captive dependency is reported as a decorator's (NDI0015) whenever the parent's implementation type differs from its service type. | A singleton `ICaptiveSingleton` implemented by `CaptiveSingleton` whose constructor takes the scoped `ICaptiveScoped`. No decorator is involved, yet NDI0015 is reported. The repository's diagnostic scenario for this case (`CSharpDIFramework.Tests/Diagnostics/DiagnosticScenarios.cs`, line 259) expects NDI0011. | NDI0015 only for the parameters of a decorator, which are the ones resolved with the decorated type excluded. NDI0011 for a service's own constructor. The builder keeps the rule as written. `ClassifyAgreesWithIntended` shows the two rules differ only in this descriptor. | high, not executed | GraphBuilder.CaptiveDiagnosticMisfires | GraphBuilder.IntendedClassifyParameter |
