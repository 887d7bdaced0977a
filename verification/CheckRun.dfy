/** The check engine as functions of its state: what loading a service does to the schemas, the
    results and the bookkeeping of one run. `Checker` holds that state in objects. */
module CheckRun {
  import opened CheckTypes
  import opened LeastLoads

  /** What is recorded of one service: whether its load failed, what blocked it, and the findings in its files. */
  datatype Result = Result(failed: bool, blockedBy: set<string>, diagnostics: seq<Diagnostic>)
  {
    /** The findings already recorded are not recorded again. */
    function Add(d: Diagnostic): Result {
      if exists e :: e in diagnostics && e.Key() == d.Key() then this
      else this.(diagnostics := diagnostics + [d])
    }

    predicate HasError() {
      exists d :: d in diagnostics && d.severity == Error
    }
  }

  const NoResult := Result(false, {}, [])

  type Results = map<string, Result>

  datatype State = State(
    schemas: Schemas, results: Results, rewrote: seq<string>,
    loading: set<string>, done: set<string>, checked: seq<string>)

  /** What a load that asks for a service is told. */
  datatype Answer = Ready(schema: Schema) | Blocked | ReadWhileItLoads | NotFound

  /** What reading the services a load asks for gives: their schemas, or the first that is not there. */
  datatype Reading = Read(schemas: seq<Schema>) | Stopped(name: string, answer: Answer)

  predicate IsService(t: Tree, name: string) {
    name in t.Names()
  }

  function ServiceNamed(t: Tree, name: string): (s: Service)
    requires t.Valid() && IsService(t, name)
    ensures s in t.services && s.name == name
  {
    FirstNamed(t.services, name)
  }

  function FirstNamed(services: seq<Service>, name: string): (s: Service)
    requires exists s :: s in services && s.name == name
    ensures s in services && s.name == name
  {
    if services[0].name == name then services[0] else FirstNamed(services[1..], name)
  }

  function Unstarted(t: Tree, st: State): set<string> {
    t.Names() - st.done - st.loading
  }

  /** Nothing is forgotten: what st records, st' records too. */
  ghost predicate Extends(t: Tree, st: State, st': State) {
    && st'.loading == st.loading
    && st.done <= st'.done <= st.done + t.Names()
    && st.loading * (st'.done - st.done) == {}
    && Below(st.schemas, st'.schemas)
    && (forall n | n in st'.schemas :: n in st.schemas || n in st'.done - st.done)
    && (forall n | n in st'.done - st.done :: n !in st.schemas)
    && Grown(st.results, st'.results)
  }

  ghost predicate Grown(r: Results, r': Results) {
    forall n | n in r ::
      && n in r'
      && (r[n].failed ==> r'[n].failed)
      && r[n].blockedBy <= r'[n].blockedBy
      && (r[n].HasError() ==> r'[n].HasError())
  }

  /** Loads a service unless the run has started it: asks for what it reads, then records what came of it. */
  function Check(t: Tree, st: State, s: Service): (st': State)
    requires t.Valid() && s in t.services
    ensures st'.loading == st.loading
    ensures st.done <= st'.done && s.name in st'.done + st'.loading
    ensures st.results.Keys <= st'.results.Keys
    decreases Unstarted(t, st), 0
  {
    if s.name in st.done || s.name in st.loading then st
    else
      var entered := Enter(st, s.name);
      var (reading, st1) := ReadAll(t, entered, t.loads[s.name].asks, []);
      Leave(Record(t, st1, s, reading), s.name)
  }

  lemma CheckUnfolds(t: Tree, st: State, s: Service, reading: Reading, st1: State)
    requires t.Valid() && s in t.services && s.name !in st.done && s.name !in st.loading
    requires ReadAll(t, Enter(st, s.name), t.loads[s.name].asks, []) == (reading, st1)
    ensures Check(t, st, s) == Leave(Record(t, st1, s, reading), s.name)
  {
  }

  function Enter(st: State, name: string): State {
    st.(loading := st.loading + {name},
        checked := st.checked + [name],
        results := if name in st.results then st.results else st.results[name := NoResult])
  }

  function Leave(st: State, name: string): State {
    st.(loading := st.loading - {name}, done := st.done + {name})
  }

  /** Asks for each service in turn, up to the first that is not ready. `got` are the schemas so far. */
  function ReadAll(t: Tree, st: State, asks: seq<string>, got: seq<Schema>): (r: (Reading, State))
    requires t.Valid()
    ensures r.1.loading == st.loading && st.done <= r.1.done
    ensures st.results.Keys <= r.1.results.Keys
    decreases Unstarted(t, st), 2, |asks|
  {
    if asks == [] then (Read(got), st)
    else
      var (answer, st1) := Dependency(t, st, asks[0]);
      assert Unstarted(t, st1) <= Unstarted(t, st);
      if answer.Ready? then ReadAll(t, st1, asks[1..], got + [answer.schema])
      else (Stopped(asks[0], answer), st1)
  }

  /** Answers a load that asks for a service, checking that service when nothing is recorded of it yet. */
  function Dependency(t: Tree, st: State, name: string): (r: (Answer, State))
    requires t.Valid()
    ensures r.1.loading == st.loading && st.done <= r.1.done
    ensures st.results.Keys <= r.1.results.Keys
    decreases Unstarted(t, st), 1
  {
    var st1 := if IsFresh(t, st, name) then Check(t, st, ServiceNamed(t, name)) else st;
    (AnswerFor(st1, name), st1)
  }

  /** Whether the dependency loader checks a service before it answers. */
  predicate IsFresh(t: Tree, st: State, name: string) {
    && name !in st.done && name !in st.loading && name !in st.schemas
    && IsService(t, name)
    && !HasFailed(st, name)
  }

  predicate HasFailed(st: State, name: string) {
    name in st.results && st.results[name].failed
  }

  function AnswerFor(st: State, name: string): Answer {
    if name in st.schemas then Ready(st.schemas[name])
    else if HasFailed(st, name) then Blocked
    else if name in st.loading then ReadWhileItLoads
    else NotFound
  }

  /** Records what the load of s found. */
  function Record(t: Tree, st: State, s: Service, reading: Reading): (st': State)
    requires t.Valid() && s in t.services
    ensures st' == st.(schemas := st'.schemas, results := st'.results, rewrote := st'.rewrote)
    ensures st.results.Keys <= st'.results.Keys
  {
    if reading.Stopped? then
      var error := Wrapped("reading " + reading.name, ErrorOf(reading));
      Fail(t, st, s, [], error)
    else
      var outcome := t.loads[s.name].finish(reading.schemas);
      var warnings := AnchoredAll(s.dir, outcome.warnings, Warning);
      match outcome.verdict
      case Refused(error) => Fail(t, st, s, warnings, error)
      case Loaded(schema, extra, rewrote) =>
        st.(schemas := st.schemas[s.name := schema],
            results := Attribute(t.services, st.results, s.name, warnings + AnchoredAll(s.dir, extra, Error)),
            rewrote := if rewrote then st.rewrote + [s.name] else st.rewrote)
  }

  /** What a load that was stopped fails with. */
  function ErrorOf(reading: Reading): LoadError
    requires reading.Stopped?
  {
    match reading.answer
    case ReadWhileItLoads => Plain("schema service " + reading.name + " is read while it loads")
    case NotFound => Plain("schema service " + reading.name + " not found")
    case _ => DependencyFailed(reading.name)
  }

  function Fail(t: Tree, st: State, s: Service, warnings: seq<Diagnostic>, error: LoadError): (st': State)
    ensures st' == st.(results := st'.results) && st.results.Keys <= st'.results.Keys
  {
    var r := ResultOf(st.results, s.name);
    var failed := r.(failed := true, blockedBy := r.blockedBy + BlockersOf(error));
    st.(results := Attribute(t.services, st.results[s.name := failed], s.name, warnings + Findings(error, s.dir)))
  }

  function ResultOf(results: Results, name: string): Result {
    if name in results then results[name] else NoResult
  }

  /** Gives each finding to the owner of its file, or to the service loaded when the file has none. An owner
      that is not the service loaded is added to what blocks it. */
  function Attribute(services: seq<Service>, results: Results, name: string, findings: seq<Diagnostic>): (r: Results)
    ensures results.Keys <= r.Keys
    decreases |findings|
  {
    if findings == [] then results
    else Attribute(services, AttributeOne(services, results, name, findings[0]), name, findings[1..])
  }

  function AttributeOne(services: seq<Service>, results: Results, name: string, d: Diagnostic): Results {
    var owner := FindingOwner(services, name, d);
    var r := ResultOf(results, name);
    var results1 := if owner == name then results else results[name := r.(blockedBy := r.blockedBy + {owner})];
    results1[owner := ResultOf(results1, owner).Add(d.(service := owner))]
  }

  function FindingOwner(services: seq<Service>, name: string, d: Diagnostic): (owner: string)
    ensures owner == name || exists s :: s in services && s.name == owner
  {
    var owner := if d.file == "" then "" else OwnerOf(services, d.file);
    if owner == "" then name else owner
  }

  /** Checks each service in turn. */
  function CheckAll(t: Tree, st: State, services: seq<Service>): (st': State)
    requires t.Valid() && forall s | s in services :: s in t.services
    ensures st'.loading == st.loading && st.done <= st'.done
    ensures forall s | s in services :: s.name in st'.done + st'.loading
    decreases |services|
  {
    if services == [] then st else CheckAll(t, Check(t, st, services[0]), services[1..])
  }

  /** A run starts from what the last one kept: the results and the schemas of the services that are
      discovered and not to be checked again. */
  function Start(schemas: Schemas, results: Results, t: Tree, toCheck: seq<Service>): State {
    var kept := KeptSchemas(schemas, results.Keys, t.Names(), toCheck);
    State(kept, KeptResults(results, t.Names(), toCheck), [], {}, {}, [])
  }

  /** The schemas of services that are discovered, or that no result records. */
  function KnownSchemas(schemas: Schemas, recorded: set<string>, services: set<string>): Schemas {
    map n | n in schemas && (n in recorded ==> n in services) :: schemas[n]
  }

  function KnownResults(results: Results, services: set<string>): Results {
    map n | n in results && n in services :: results[n]
  }

  /** The schemas a run keeps: those known, less those of the services to check. */
  function KeptSchemas(schemas: Schemas, recorded: set<string>, services: set<string>, toCheck: seq<Service>): Schemas {
    Without(KnownSchemas(schemas, recorded, services), NamesOf(toCheck))
  }

  function KeptResults(results: Results, services: set<string>, toCheck: seq<Service>): Results {
    Renewed(KnownResults(results, services), NamesOf(toCheck))
  }

  function Without(schemas: Schemas, names: set<string>): Schemas {
    map n | n in schemas && n !in names :: schemas[n]
  }

  function Renewed(results: Results, names: set<string>): Results {
    map n | n in results.Keys + names :: if n in names then NoResult else results[n]
  }

  /** One run's loads. */
  function Run(schemas: Schemas, results: Results, t: Tree, toCheck: seq<Service>): State
    requires t.Valid() && forall s | s in toCheck :: s in t.services
  {
    CheckAll(t, Start(schemas, results, t, toCheck), toCheck)
  }
}
