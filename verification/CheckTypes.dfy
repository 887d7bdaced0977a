/** What a check reads and records: services, the load of each, and the findings of a load. */
module CheckTypes {

  /** A loaded service's schema: the services its decorator arguments name, and everything else it holds. */
  datatype Schema = Schema(references: seq<string>, content: string)

  datatype Severity = Error | Warning

  /** One finding. `service` is its owner, empty until the finding is attributed. */
  datatype Diagnostic = Diagnostic(
    service: string, file: string, line: int, column: int, severity: Severity, message: string)
  {
    /** What makes two findings of one service the same: everything but the owner. */
    function Key(): Diagnostic {
      this.(service := "")
    }
  }

  /** A discovered service. `edges` are the services its config names. */
  datatype Service = Service(name: string, dir: string, edges: seq<string>)

  /** The error a load returns: a located finding or a list of them, a failed dependency, several
      errors joined, context around one, or a message alone. */
  datatype LoadError =
    | Located(finding: Diagnostic)
    | LocatedList(findings: seq<Diagnostic>)
    | DependencyFailed(name: string)
    | Joined(errors: seq<LoadError>)
    | Wrapped(message: string, inner: LoadError)
    | Plain(message: string)

  /** What the load of a service ends with once it has read every schema it asks for. */
  datatype Verdict =
    | Loaded(schema: Schema, extra: seq<Diagnostic>, rewrote: bool)
    | Refused(error: LoadError)

  datatype Outcome = Outcome(warnings: seq<Diagnostic>, verdict: Verdict)

  function NamesOf(services: seq<Service>): set<string> {
    set s | s in services :: s.name
  }

  /** A service's load: the services it asks for, in order, the services its decorator arguments name,
      which its schema records when it has one, and what it makes of the schemas it asks for. */
  datatype Load = Load(asks: seq<string>, named: seq<string>, finish: seq<Schema> -> Outcome)

  /** The tree on disk: what discovery finds, and what loading each service does. */
  datatype Tree = Tree(services: seq<Service>, loads: map<string, Load>)
  {
    /** The names of the services. */
    function Names(): set<string> {
      loads.Keys
    }

    /** Discovery refuses two services of one name, and every service can be loaded. */
    ghost predicate Valid() {
      && (forall i, j | 0 <= i < j < |services| :: services[i].name != services[j].name)
      && Names() == NamesOf(services)
    }

    /** A load reads only services its config names. */
    ghost predicate ReadsAreEdges() {
      forall s, d | s in services && s.name in loads && d in loads[s.name].asks :: d in s.edges
    }

    /** A schema records the services its decorator arguments name. */
    ghost predicate NamesAreRecorded() {
      forall s, schemas {:trigger loads[s.name].finish(schemas)} | s in services && s.name in loads ::
        var verdict := loads[s.name].finish(schemas).verdict;
        verdict.Loaded? ==> verdict.schema.references == loads[s.name].named
    }

    /** A refused load says why. */
    ghost predicate RefusalsAreExplained() {
      forall s, schemas {:trigger loads[s.name].finish(schemas)} | s in services && s.name in loads ::
        var verdict := loads[s.name].finish(schemas).verdict;
        verdict.Refused? ==> Findings(verdict.error, s.dir) != []
    }
  }

  /** Whether an error holds a finding with a location or a blocking dependency. */
  predicate CarriesLocation(e: LoadError) {
    match e
    case Located(_) => true
    case LocatedList(_) => true
    case DependencyFailed(_) => true
    case Joined(errors) => exists x | x in errors :: CarriesLocation(x)
    case Wrapped(_, inner) => CarriesLocation(inner)
    case Plain(_) => false
  }

  /** A finding with its file made absolute: a relative path is relative to the service's directory. */
  function Anchored(dir: string, d: Diagnostic): Diagnostic {
    if d.file == "" || d.file[0] == '/' then d else d.(file := dir + "/" + d.file)
  }

  function AnchoredAll(dir: string, ds: seq<Diagnostic>, severity: Severity): (r: seq<Diagnostic>)
    ensures |r| == |ds|
    ensures forall d | d in r :: d.severity == severity
  {
    if ds == [] then [] else [Anchored(dir, ds[0]).(severity := severity)] + AnchoredAll(dir, ds[1..], severity)
  }

  /** The findings of an error, in order, each an error. A failed dependency is none. */
  function Findings(e: LoadError, dir: string): (r: seq<Diagnostic>)
    ensures forall d | d in r :: d.severity == Error
  {
    match e
    case Located(d) => AnchoredAll(dir, [d], Error)
    case LocatedList(ds) => AnchoredAll(dir, ds, Error)
    case DependencyFailed(_) => []
    case Joined(errors) => FindingsOfAll(errors, dir)
    case Wrapped(message, inner) => if CarriesLocation(inner) then Findings(inner, dir) else [PlainFinding(message)]
    case Plain(message) => [PlainFinding(message)]
  }

  function PlainFinding(message: string): Diagnostic {
    Diagnostic("", "", 0, 0, Error, message)
  }

  function FindingsOfAll(errors: seq<LoadError>, dir: string): (r: seq<Diagnostic>)
    ensures forall d | d in r :: d.severity == Error
  {
    if errors == [] then [] else Findings(errors[0], dir) + FindingsOfAll(errors[1..], dir)
  }

  /** The services whose failure an error reports. */
  function BlockersOf(e: LoadError): set<string> {
    match e
    case DependencyFailed(name) => {name}
    case Joined(errors) => set x, n | x in errors && n in BlockersOf(x) :: n
    case Wrapped(_, inner) => if CarriesLocation(inner) then BlockersOf(inner) else {}
    case _ => {}
  }

  /** An error that holds nothing: empty lists, joined or wrapped. */
  predicate Hollow(e: LoadError) {
    match e
    case LocatedList(ds) => ds == []
    case Joined(errors) => forall x | x in errors :: Hollow(x)
    case Wrapped(_, inner) => CarriesLocation(inner) && Hollow(inner)
    case _ => false
  }

  /** Splitting an error loses it only when it holds nothing: anything else leaves a finding or a blocker. */
  lemma {:induction false} ErrorsAreReported(e: LoadError, dir: string)
    ensures Findings(e, dir) == [] && BlockersOf(e) == {} <==> Hollow(e)
  {
    match e
    case Joined(errors) =>
      NoFindingsOfAll(errors, dir);
      forall x | x in errors { ErrorsAreReported(x, dir); }
      assert (forall x | x in errors :: BlockersOf(x) == {}) ==> BlockersOf(e) == {};
      if x :| x in errors && BlockersOf(x) != {} {
        var n :| n in BlockersOf(x);
        assert n in BlockersOf(e);
      }
    case Wrapped(_, inner) => ErrorsAreReported(inner, dir);
    case _ =>
  }

  lemma {:induction false} NoFindingsOfAll(errors: seq<LoadError>, dir: string)
    ensures FindingsOfAll(errors, dir) == [] <==> forall x | x in errors :: Findings(x, dir) == []
  {
    if errors != [] {
      NoFindingsOfAll(errors[1..], dir);
      assert errors[0] in errors && forall x | x in errors :: x == errors[0] || x in errors[1..];
      assert forall x | x in errors[1..] :: x in errors;
    }
  }

  predicate HoldsFile(s: Service, file: string) {
    s.dir + "/" <= file
  }

  /** The service whose directory holds a file, the first of the discovered ones, or "". */
  function OwnerOf(services: seq<Service>, file: string): (owner: string)
    ensures owner != "" ==> exists s :: s in services && s.name == owner && HoldsFile(s, file)
  {
    if services == [] then ""
    else if HoldsFile(services[0], file) then services[0].name
    else OwnerOf(services[1..], file)
  }

  ghost predicate IsFirstHolder(services: seq<Service>, i: nat, file: string)
    requires i < |services|
  {
    HoldsFile(services[i], file) && forall j | 0 <= j < i :: !HoldsFile(services[j], file)
  }

  /** A file's owner is the first service whose directory holds it; it is "" when there is none. */
  lemma {:induction false} OwnerIsFirst(services: seq<Service>, file: string)
    ensures (forall s | s in services :: !HoldsFile(s, file)) ==> OwnerOf(services, file) == ""
    ensures (exists s :: s in services && HoldsFile(s, file)) ==>
      exists i :: 0 <= i < |services| && IsFirstHolder(services, i, file) && OwnerOf(services, file) == services[i].name
    ensures (forall s | s in services :: s.name != "") && OwnerOf(services, file) == "" ==>
      forall s | s in services :: !HoldsFile(s, file)
  {
    if services != [] {
      if HoldsFile(services[0], file) {
        assert IsFirstHolder(services, 0, file);
      } else {
        OwnerIsFirst(services[1..], file);
        var rest := services[1..];
        if i :| 0 <= i < |rest| && IsFirstHolder(rest, i, file) && OwnerOf(rest, file) == rest[i].name {
          assert IsFirstHolder(services, i + 1, file) && services[i + 1] == rest[i];
        }
      }
    }
  }
}
