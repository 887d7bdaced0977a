/** What a check reports: each service's status, and every finding. */
module CheckReport {
  import opened CheckTypes
  import opened CheckRun
  import opened Order

  datatype Status = Ok | Failing | BlockedBy(names: seq<string>)

  datatype ServiceReport = ServiceReport(name: string, status: Status)

  datatype Report = Report(
    ok: bool, checked: seq<string>, errors: nat, warnings: nat,
    services: seq<ServiceReport>, diagnostics: seq<Diagnostic>)

  function Errors(ds: seq<Diagnostic>): nat {
    if ds == [] then 0 else (if ds[0].severity == Error then 1 else 0) + Errors(ds[1..])
  }

  lemma {:induction false} ErrorsCount(ds: seq<Diagnostic>)
    ensures Errors(ds) > 0 <==> exists d :: d in ds && d.severity == Error
    ensures Errors(ds) <= |ds|
  {
    if ds != [] {
      ErrorsCount(ds[1..]);
      assert ds[0] in ds;
      assert forall d | d in ds :: d == ds[0] || d in ds[1..];
    }
  }

  ghost function StatusOf(results: Results, name: string): Status {
    var r := ResultOf(results, name);
    if Errors(r.diagnostics) > 0 then Failing
    else if r.failed then BlockedBy(SortedNames(r.blockedBy - {name}))
    else Ok
  }

  /** A service is failing when one of its own findings is an error; it is blocked when it failed without one, by
      each other service that blocks it. */
  lemma StatusMeans(results: Results, name: string)
    ensures var r, status := ResultOf(results, name), StatusOf(results, name);
      && (status.Failing? <==> exists d :: d in r.diagnostics && d.severity == Error)
      && (status.BlockedBy? <==> r.failed && forall d | d in r.diagnostics :: d.severity == Warning)
      && (status.BlockedBy? ==>
            Sorted(status.names) && forall n :: n in status.names <==> n in r.blockedBy && n != name)
  {
    ErrorsCount(ResultOf(results, name).diagnostics);
  }

  /** The general findings, then every service's, in build order. */
  function DiagnosticsOf(general: seq<Diagnostic>, results: Results, scope: seq<Service>): seq<Diagnostic> {
    if scope == [] then general
    else
      var last := scope[|scope| - 1];
      DiagnosticsOf(general, results, scope[..|scope| - 1]) + ResultOf(results, last.name).diagnostics
  }

  /** What a report of `scope` says of the results recorded. */
  ghost predicate Reports(report: Report, general: seq<Diagnostic>, results: Results, checked: seq<string>,
      scope: seq<Service>) {
    && report.checked == checked
    && report.diagnostics == DiagnosticsOf(general, results, scope)
    && report.errors == Errors(report.diagnostics)
    && report.errors + report.warnings == |report.diagnostics|
    && report.ok == (report.errors == 0)
    && |report.services| == |scope|
    && forall i | 0 <= i < |scope| ::
      report.services[i] == ServiceReport(scope[i].name, StatusOf(results, scope[i].name))
  }

  /** Every finding reported is a general one or a service's, and each of those is reported. */
  lemma {:induction false} DiagnosticsHold(general: seq<Diagnostic>, results: Results, scope: seq<Service>,
      d: Diagnostic)
    ensures d in DiagnosticsOf(general, results, scope) <==>
      d in general || exists s :: s in scope && d in ResultOf(results, s.name).diagnostics
  {
    if scope != [] {
      var front, last := scope[..|scope| - 1], scope[|scope| - 1];
      DiagnosticsHold(general, results, front, d);
      assert scope == front + [last];
      assert forall s :: s in scope <==> s in front || s == last;
    }
  }

  /** A report is OK exactly when no general finding is an error and no service in scope has one. */
  lemma OkMeansNoErrors(report: Report, general: seq<Diagnostic>, results: Results, checked: seq<string>,
      scope: seq<Service>)
    requires Reports(report, general, results, checked, scope)
    ensures report.ok <==>
      (forall d | d in general :: d.severity != Error) && forall s | s in scope :: !ResultOf(results, s.name).HasError()
  {
    ErrorsCount(report.diagnostics);
    forall d ensures d in report.diagnostics <==>
      d in general || exists s :: s in scope && d in ResultOf(results, s.name).diagnostics
    {
      DiagnosticsHold(general, results, scope, d);
    }
  }

  /** The findings reported are the general ones, then those of each service in scope, in the order of the scope. */
  lemma {:induction false} DiagnosticsAreInOrder(general: seq<Diagnostic>, results: Results, scope: seq<Service>,
      i: nat)
    requires i < |scope|
    ensures general <= DiagnosticsOf(general, results, scope)
    ensures DiagnosticsOf(general, results, scope[..i]) + ResultOf(results, scope[i].name).diagnostics
      <= DiagnosticsOf(general, results, scope)
  {
    var front, last := scope[..|scope| - 1], scope[|scope| - 1];
    if i < |front| {
      DiagnosticsAreInOrder(general, results, front, i);
      assert front[..i] == scope[..i];
    } else if front != [] {
      DiagnosticsAreInOrder(general, results, front, 0);
    }
  }

  lemma {:induction false} ErrorsOneMore(ds: seq<Diagnostic>, d: Diagnostic)
    ensures Errors(ds + [d]) == Errors(ds) + if d.severity == Error then 1 else 0
  {
    if ds != [] {
      ErrorsOneMore(ds[1..], d);
      assert (ds + [d])[1..] == ds[1..] + [d];
    }
  }

  /** Errors are counted one by one. */
  lemma {:induction false} ErrorsAreCounted(ds: seq<Diagnostic>)
    ensures Errors(ds) == |set i | 0 <= i < |ds| && ds[i].severity == Error|
  {
    if ds != [] {
      var n := |ds| - 1;
      var front, last := ds[..n], ds[n];
      ErrorsAreCounted(front);
      ErrorsOneMore(front, last);
      assert ds == front + [last];
      assert (set i | 0 <= i < |ds| && ds[i].severity == Error)
        == (set i | 0 <= i < n && front[i].severity == Error) + if last.severity == Error then {n} else {};
    }
  }
}
