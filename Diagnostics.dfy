/**
 * The diagnostic descriptor table (`Diagnostics`) and the diagnostics the
 * generator reports. A reported diagnostic is its descriptor plus the message
 * arguments; its source location is not modelled.
 */
module Diagnostics {
  import opened BlueprintModels

  /** One constructor per descriptor of the table. */
  datatype DiagnosticId =
    | NDI0001 | NDI0002 | NDI0003 | NDI0004 | NDI0005
    | NDI0006 | NDI0007 | NDI0008 | NDI0009 | NDI0010
    | NDI0011 | NDI0012 | NDI0013 | NDI0014 | NDI0015
    | NDI0016 | NDI0017 | NDI0018 | NDI0019 | NDI0020

  /** Roslyn's `DiagnosticSeverity`. */
  datatype DiagnosticSeverity = Hidden | Info | Warning | Error

  /** Roslyn's `DiagnosticDescriptor`, with the number of `{n}` placeholders of its message. */
  datatype DiagnosticDescriptor = DiagnosticDescriptor(
    id: string,
    title: string,
    messageFormat: string,
    category: string,
    defaultSeverity: DiagnosticSeverity,
    isEnabledByDefault: bool,
    argumentCount: nat)

  const Usage := "CSharpDIFramework.Usage"

  /**
   * The static readonly descriptor fields, in declaration order: each is an error of
   * category `CSharpDIFramework.Usage`, enabled by default.
   */
  function Descriptor(id: DiagnosticId): (r: DiagnosticDescriptor)
    ensures r.id == CodeOf(Ordinal(id))
    ensures r.title == Title(id) && r.messageFormat == MessageFormat(id)
    ensures r.category == Usage && r.defaultSeverity == Error && r.isEnabledByDefault
    ensures 1 <= r.argumentCount <= 4
  {
    DiagnosticDescriptor(Code(id), Title(id), MessageFormat(id), Usage, DefaultSeverity(id), true, ArgumentCount(id))
  }

  /** The number of a descriptor: its position in the table, 1 to 20. */
  function Ordinal(id: DiagnosticId): (n: nat)
    ensures 1 <= n <= 20
  {
    match id
    case NDI0001 => 1
    case NDI0002 => 2
    case NDI0003 => 3
    case NDI0004 => 4
    case NDI0005 => 5
    case NDI0006 => 6
    case NDI0007 => 7
    case NDI0008 => 8
    case NDI0009 => 9
    case NDI0010 => 10
    case NDI0011 => 11
    case NDI0012 => 12
    case NDI0013 => 13
    case NDI0014 => 14
    case NDI0015 => 15
    case NDI0016 => 16
    case NDI0017 => 17
    case NDI0018 => 18
    case NDI0019 => 19
    case NDI0020 => 20
  }

  function Digit(d: nat): char
    requires d < 10
  {
    "0123456789"[d]
  }

  /** The code of descriptor number `n`: "NDI00" and two decimal digits. */
  function CodeOf(n: nat): string
    requires n < 100
  {
    "NDI00" + [Digit(n / 10), Digit(n % 10)]
  }

  /** The descriptor's id, e.g. "NDI0004". */
  function Code(id: DiagnosticId): (r: string)
    ensures r == CodeOf(Ordinal(id))
  {
    match id
    case NDI0001 => "NDI0001"
    case NDI0002 => "NDI0002"
    case NDI0003 => "NDI0003"
    case NDI0004 => "NDI0004"
    case NDI0005 => "NDI0005"
    case NDI0006 => "NDI0006"
    case NDI0007 => "NDI0007"
    case NDI0008 => "NDI0008"
    case NDI0009 => "NDI0009"
    case NDI0010 => "NDI0010"
    case NDI0011 => "NDI0011"
    case NDI0012 => "NDI0012"
    case NDI0013 => "NDI0013"
    case NDI0014 => "NDI0014"
    case NDI0015 => "NDI0015"
    case NDI0016 => "NDI0016"
    case NDI0017 => "NDI0017"
    case NDI0018 => "NDI0018"
    case NDI0019 => "NDI0019"
    case NDI0020 => "NDI0020"
  }

  /** The descriptor's title. */
  function Title(id: DiagnosticId): string
  {
    match id
    case NDI0001 => "Container must be partial"
    case NDI0002 => "Current attribute is not correct"
    case NDI0003 => "No suitable public constructor found"
    case NDI0004 => "Cyclic dependency detected"
    case NDI0005 => "Service not registered"
    case NDI0006 => "Implementation type not assignable"
    case NDI0007 => "Cannot instantiate abstract type"
    case NDI0008 => "Ambiguous constructors"
    case NDI0009 => "Multiple [Inject] constructors"
    case NDI0010 => "Duplicate services registration"
    case NDI0011 => "Invalid lifestyle mismatch"
    case NDI0012 => "Decorator for unregistered service"
    case NDI0013 => "Ambiguous decorator constructors"
    case NDI0014 => "Decorator missing required parameter"
    case NDI0015 => "Decorator has captive dependency"
    case NDI0016 => "Duplicate decorator registration"
    case NDI0017 => "Imported type is not a module"
    case NDI0018 => "A user registers a service with both [ScopedTo] and [Singleton] or [Transient]"
    case NDI0019 => "A user registers a service with multiple lifetime attributes (e.g., [Scoped] and [Transient])"
    case NDI0020 => "Mismatched scope tag dependency"
  }

  /** The descriptor's message format; `{n}` marks the n-th argument. */
  function MessageFormat(id: DiagnosticId): string
  {
    match id
    case NDI0001 => "The container class '{0}' must be declared as partial"
    case NDI0002 => "The attribute '{0}' is not applicable to the current context"
    case NDI0003 => "The implementation type '{0}' has no public parameterless constructor. A public constructor is required for instantiation."
    case NDI0004 => "A cyclic dependency was detected for service '{0}'. Cycle path: {1}."
    case NDI0005 => "The service '{0}' is required by '{1}' but is not registered in the container"
    case NDI0006 => "The implementation type '{0}' cannot be assigned to service type '{1}'"
    case NDI0007 => "The implementation type '{0}' is abstract or an interface and cannot be instantiated"
    case NDI0008 => "The implementation type '{0}' has multiple public constructors with {1} parameters. Please use the [Inject] attribute to specify which constructor to use."
    case NDI0009 => "The implementation type '{0}' has multiple constructors marked with the [Inject] attribute. Only one is permitted."
    case NDI0010 => "The service type '{0}' is registered multiple times with the same implementation and constructor signature. Duplicate registrations are not allowed."
    case NDI0011 => "Service '{0}' with a '{1}' lifetime cannot depend on service '{2}' with a shorter '{3}' lifetime. This creates a captive dependency."
    case NDI0012 => "Cannot apply decorator '{0}' because the service '{1}' has not been registered"
    case NDI0013 => "The decorator '{0}' has multiple candidate constructors with {1} parameters. Please use the [Inject] attribute to specify which one to use."
    case NDI0014 => "The decorator '{0}' must have a public constructor with exactly one parameter of the decorated service type '{1}'"
    case NDI0015 => "The decorator '{0}', which inherits a '{1}' lifetime from its service, cannot depend on service '{2}' with a shorter '{3}' lifetime"
    case NDI0016 => "The decorator '{0}' is already registered for service '{1}'. Applying the same decorator multiple times is not allowed."
    case NDI0017 => "The type '{0}' is not a valid module because it is not marked with the [RegisterModule] attribute"
    case NDI0018 => "The [ScopedTo] lifetime is a form of Scoped lifetime and cannot be combined with '{0}'. Remove the conflicting attribute from service '{1}'."
    case NDI0019 => "Service '{0}' has multiple lifetime definitions ('{1}' and '{2}'). Please specify only one lifetime per registration."
    case NDI0020 => "Service '{0}' (scoped to tag '{1}') cannot depend on service '{2}' (scoped to tag '{3}'). The container cannot guarantee that the dependency's lifetime will outlive the parent's."
  }

  /** The descriptor's severity. */
  function DefaultSeverity(id: DiagnosticId): DiagnosticSeverity
  {
    match id
    case NDI0001 => Error
    case NDI0002 => Error
    case NDI0003 => Error
    case NDI0004 => Error
    case NDI0005 => Error
    case NDI0006 => Error
    case NDI0007 => Error
    case NDI0008 => Error
    case NDI0009 => Error
    case NDI0010 => Error
    case NDI0011 => Error
    case NDI0012 => Error
    case NDI0013 => Error
    case NDI0014 => Error
    case NDI0015 => Error
    case NDI0016 => Error
    case NDI0017 => Error
    case NDI0018 => Error
    case NDI0019 => Error
    case NDI0020 => Error
  }

  /** How many `{n}` placeholders the message format has. */
  function ArgumentCount(id: DiagnosticId): (r: nat)
    ensures 1 <= r <= 4
  {
    match id
    case NDI0001 => 1
    case NDI0002 => 1
    case NDI0003 => 1
    case NDI0004 => 2
    case NDI0005 => 2
    case NDI0006 => 2
    case NDI0007 => 1
    case NDI0008 => 2
    case NDI0009 => 1
    case NDI0010 => 1
    case NDI0011 => 4
    case NDI0012 => 2
    case NDI0013 => 2
    case NDI0014 => 2
    case NDI0015 => 4
    case NDI0016 => 2
    case NDI0017 => 1
    case NDI0018 => 2
    case NDI0019 => 3
    case NDI0020 => 4
  }

  /** A message argument as `Diagnostic.Create` receives it: a name, a count or a lifetime. */
  datatype MessageArg = Text(text: string) | Number(number: int) | LifetimeArg(lifetime: ServiceLifetime)

  /** A reported diagnostic: which descriptor, and the arguments filling its placeholders. */
  datatype Diagnostic = Diagnostic(id: DiagnosticId, args: seq<MessageArg>)

  function Severity(d: Diagnostic): DiagnosticSeverity
  {
    DefaultSeverity(d.id)
  }

  /** The arguments fill exactly the placeholders of the descriptor's message. */
  predicate WellFormed(d: Diagnostic)
  {
    |d.args| == ArgumentCount(d.id)
  }

  /** `diagnostics.Any(d => d.Severity == DiagnosticSeverity.Error)`. */
  predicate HasError(ds: seq<Diagnostic>)
  {
    exists i :: 0 <= i < |ds| && Severity(ds[i]) == Error
  }

  /** Every descriptor of the table is an error; none is a warning. */
  lemma AllDescriptorsAreErrors(id: DiagnosticId)
    ensures DefaultSeverity(id) == Error
  {
  }

  /** The twenty descriptor ids are pairwise distinct. */
  lemma DescriptorIdsDistinct(a: DiagnosticId, b: DiagnosticId)
    ensures Code(a) == Code(b) ==> a == b
  {
  }

  /** Because every descriptor is an error, "any error" means "any diagnostic at all". */
  lemma {:induction false} HasErrorIffNonEmpty(ds: seq<Diagnostic>)
    ensures HasError(ds) <==> ds != []
  {
    if ds != [] {
      AllDescriptorsAreErrors(ds[0].id);
      assert Severity(ds[0]) == Error;
    }
  }

  /** The diagnostic list is append-only, so once an error is recorded it stays recorded. */
  lemma ErrorsPersist(before: seq<Diagnostic>, after: seq<Diagnostic>)
    requires before <= after
    ensures HasError(before) ==> HasError(after)
  {
    if HasError(before) {
      var i :| 0 <= i < |before| && Severity(before[i]) == Error;
      assert after[i] == before[i];
    }
  }

  /** The argument shapes the graph builder relies on. */
  lemma BuilderDescriptorArities()
    ensures ArgumentCount(NDI0011) == 4 && ArgumentCount(NDI0015) == 4
    ensures ArgumentCount(NDI0004) == 2 && ArgumentCount(NDI0005) == 2
    ensures ArgumentCount(NDI0008) == 2 && ArgumentCount(NDI0013) == 2
  {
  }
}
