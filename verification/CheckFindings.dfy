/** What a run records, in terms of what each of its loads read: whose each finding is, and why each service
    failed, was blocked or had its sentinel rewritten. */
module CheckFindings {
  import opened CheckTypes
  import opened CheckRun
  import opened ErrorLeaves

  // Whose a finding is

  ghost predicate IsNamedHolder(services: seq<Service>, i: int, file: string) {
    0 <= i < |services| && IsFirstHolder(services, i, file) && services[i].name != ""
  }

  /** A finding of a load belongs to the first service whose directory holds its file, or to the service loaded
      when none does. */
  ghost predicate Belongs(services: seq<Service>, loaded: string, file: string, owner: string) {
    if exists i :: IsNamedHolder(services, i, file)
    then exists i :: IsNamedHolder(services, i, file) && services[i].name == owner
    else owner == loaded
  }

  lemma OwnerBelongs(services: seq<Service>, name: string, d: Diagnostic, owner: string)
    ensures Belongs(services, name, d.file, owner) <==> owner == FindingOwner(services, name, d)
  {
    OwnerIsFirst(services, d.file);
    if i :| 0 <= i < |services| && IsFirstHolder(services, i, d.file) {
      assert services[i] in services && HoldsFile(services[i], d.file);
      assert forall j | 0 <= j < |services| && IsFirstHolder(services, j, d.file) :: j == i;
      assert OwnerOf(services, d.file) == services[i].name;
      assert d.file != "";
      assert IsNamedHolder(services, i, d.file) <==> services[i].name != "";
    } else {
      assert forall i :: !IsNamedHolder(services, i, d.file);
    }
  }

  // Attribution

  /** A service's findings are its own, and each is recorded once. */
  ghost predicate IsTidy(n: string, ds: seq<Diagnostic>) {
    (forall d | d in ds :: d.service == n) && forall i, j | 0 <= i < j < |ds| :: ds[i] != ds[j]
  }

  ghost predicate AreTidy(results: Results) {
    forall n | n in results :: IsTidy(n, results[n].diagnostics)
  }

  lemma AddsOnce(r: Result, n: string, d: Diagnostic)
    requires IsTidy(n, r.diagnostics) && d.service == n
    ensures var r' := r.Add(d);
      && r'.failed == r.failed && r'.blockedBy == r.blockedBy && IsTidy(n, r'.diagnostics)
      && r.diagnostics <= r'.diagnostics
      && forall e :: e in r'.diagnostics <==> e in r.diagnostics || e == d
  {
    if e :| e in r.diagnostics && e.Key() == d.Key() {
      assert e == d;
    } else {
      assert d in r.diagnostics ==> exists e :: e in r.diagnostics && e.Key() == d.Key();
    }
  }

  /** What some findings of a load add to those of a service. */
  ghost predicate Gains(services: seq<Service>, loaded: string, findings: seq<Diagnostic>, n: string, e: Diagnostic) {
    exists d :: d in findings && Belongs(services, loaded, d.file, n) && e == d.(service := n)
  }

  /** The other services whose files they are in. */
  ghost predicate Names(services: seq<Service>, loaded: string, findings: seq<Diagnostic>, n: string) {
    n != loaded && exists d :: d in findings && Belongs(services, loaded, d.file, n)
  }

  ghost function FoundIn(results: Results, n: string): seq<Diagnostic> {
    ResultOf(results, n).diagnostics
  }

  ghost function BlockersIn(results: Results, n: string): set<string> {
    ResultOf(results, n).blockedBy
  }

  ghost predicate IsFoundAfter(services: seq<Service>, results: Results, name: string, findings: seq<Diagnostic>,
      results': Results, n: string, e: Diagnostic) {
    e in FoundIn(results', n) <==> e in FoundIn(results, n) || Gains(services, name, findings, n, e)
  }

  ghost predicate IsBlockedAfter(services: seq<Service>, results: Results, name: string, findings: seq<Diagnostic>,
      results': Results, n: string, o: string) {
    o in BlockersIn(results', n) <==> o in BlockersIn(results, n) || (n == name && Names(services, name, findings, o))
  }

  /** Attributing findings gives each to the service it belongs to, and blocks the load by those but itself. */
  ghost predicate Attributed(services: seq<Service>, results: Results, name: string, findings: seq<Diagnostic>,
      results': Results) {
    && AreTidy(results') && results.Keys <= results'.Keys
    && (forall n :: ResultOf(results', n).failed == ResultOf(results, n).failed)
    && (forall n :: FoundIn(results, n) <= FoundIn(results', n))
    && (forall n, e :: IsFoundAfter(services, results, name, findings, results', n, e))
    && (forall n, o :: IsBlockedAfter(services, results, name, findings, results', n, o))
  }

  lemma OneIsAttributed(services: seq<Service>, results: Results, name: string, d: Diagnostic)
    requires AreTidy(results) && name in results
    ensures Attributed(services, results, name, [d], AttributeOne(services, results, name, d))
  {
    hide Belongs, Result.Add, FindingOwner, Gains, Names, AreTidy;
    var owner := FindingOwner(services, name, d);
    var r := ResultOf(results, name);
    var results1 := if owner == name then results else results[name := r.(blockedBy := r.blockedBy + {owner})];
    OneGains(services, name, d);
    TidyResult(results, owner);
    TidyResult(results, name);
    AddsOnce(ResultOf(results1, owner), owner, d.(service := owner));
    TidyUpdates(results, name, r.blockedBy + {owner}, owner, ResultOf(results1, owner).Add(d.(service := owner)));
  }

  lemma TidyResult(results: Results, n: string)
    requires AreTidy(results)
    ensures IsTidy(n, ResultOf(results, n).diagnostics)
  {
  }

  lemma TidyUpdates(results: Results, name: string, blockers: set<string>, owner: string, r: Result)
    requires AreTidy(results) && name in results && IsTidy(owner, r.diagnostics)
    ensures AreTidy(results[owner := r])
    ensures AreTidy(results[name := results[name].(blockedBy := blockers)][owner := r])
  {
    hide IsTidy;
  }

  lemma OneGains(services: seq<Service>, name: string, d: Diagnostic)
    ensures var owner := FindingOwner(services, name, d);
      && (forall n, e :: Gains(services, name, [d], n, e) <==> n == owner && e == d.(service := owner))
      && (forall b :: Names(services, name, [d], b) <==> b == owner != name)
  {
    hide Belongs, FindingOwner;
    var owner := FindingOwner(services, name, d);
    forall n ensures Belongs(services, name, d.file, n) <==> n == owner { OwnerBelongs(services, name, d, n); }
    assert d in [d];
  }

  lemma {:induction false} AllAreAttributed(services: seq<Service>, results: Results, name: string,
      findings: seq<Diagnostic>)
    requires AreTidy(results) && name in results
    ensures Attributed(services, results, name, findings, Attribute(services, results, name, findings))
    decreases |findings|
  {
    hide AreTidy, AttributeOne, Belongs;
    if findings != [] {
      var d, rest := findings[0], findings[1..];
      var results1 := AttributeOne(services, results, name, d);
      OneIsAttributed(services, results, name, d);
      AllAreAttributed(services, results1, name, rest);
      AttributionJoins(services, results, name, [d], results1, rest, Attribute(services, results1, name, rest));
      assert findings == [d] + rest;
    }
  }

  lemma AttributionJoins(services: seq<Service>, results: Results, name: string, a: seq<Diagnostic>, results1: Results,
      b: seq<Diagnostic>, results2: Results)
    requires Attributed(services, results, name, a, results1) && Attributed(services, results1, name, b, results2)
    ensures Attributed(services, results, name, a + b, results2)
  {
    hide AreTidy, Belongs, ResultOf, FoundIn, BlockersIn;
    forall n, e ensures IsFoundAfter(services, results, name, a + b, results2, n, e) {
      GainsJoin(services, name, a, b, n, e);
      assert IsFoundAfter(services, results, name, a, results1, n, e);
      assert IsFoundAfter(services, results1, name, b, results2, n, e);
    }
    forall n, o ensures IsBlockedAfter(services, results, name, a + b, results2, n, o) {
      NamesJoin(services, name, a, b, o);
      assert IsBlockedAfter(services, results, name, a, results1, n, o);
      assert IsBlockedAfter(services, results1, name, b, results2, n, o);
    }
    forall n ensures FoundIn(results, n) <= FoundIn(results2, n) {
      PrefixesJoin(FoundIn(results, n), FoundIn(results1, n), FoundIn(results2, n));
    }
  }

  lemma PrefixesJoin<T>(a: seq<T>, b: seq<T>, c: seq<T>)
    requires a <= b <= c
    ensures a <= c
  {
  }

  lemma GainsJoin(services: seq<Service>, name: string, a: seq<Diagnostic>, b: seq<Diagnostic>, n: string,
      e: Diagnostic)
    ensures Gains(services, name, a + b, n, e) <==> Gains(services, name, a, n, e) || Gains(services, name, b, n, e)
  {
    hide Belongs;
    assert forall d :: d in a + b <==> d in a || d in b;
  }

  lemma NamesJoin(services: seq<Service>, name: string, a: seq<Diagnostic>, b: seq<Diagnostic>, n: string)
    ensures Names(services, name, a + b, n) <==> Names(services, name, a, n) || Names(services, name, b, n)
  {
    hide Belongs;
    assert forall d :: d in a + b <==> d in a || d in b;
  }

  // What a load comes to

  /** What the load of a service ended with when it read the schemas given. */
  function EndOf(t: Tree, s: Service, reading: Reading): Outcome
    requires s.name in t.loads && reading.Read?
  {
    t.loads[s.name].finish(reading.schemas)
  }

  /** A load finds its warnings, the leaves of the error it is refused with, and what it has against a schema
      it makes; one that stops finds that it stopped, unless the service it stops at failed. */
  ghost predicate Finds(t: Tree, s: Service, reading: Reading, d: Diagnostic)
    requires s.name in t.loads
  {
    match reading
    case Stopped(name, answer) =>
      !answer.Blocked? && d == Diagnostic("", "", 0, 0, Error, "reading " + name)
    case Read(_) =>
      var end := EndOf(t, s, reading);
      || (exists w :: w in end.warnings && d == w.(file := Absolute(s.dir, w.file), severity := Warning))
      || (end.verdict.Loaded?
          && exists x :: x in end.verdict.extra && d == x.(file := Absolute(s.dir, x.file), severity := Error))
      || (end.verdict.Refused?
          && exists at ::
               IsFindingAt(end.verdict.error, at) && d == Reported(LeafAt(end.verdict.error, at).value, s.dir))
  }

  /** The services whose failure a load fails by. */
  ghost predicate FailsBy(t: Tree, s: Service, reading: Reading, o: string)
    requires s.name in t.loads
  {
    match reading
    case Stopped(name, answer) => answer.Blocked? && o == name
    case Read(_) =>
      var verdict := EndOf(t, s, reading).verdict;
      verdict.Refused? && exists at :: IsDependencyAt(verdict.error, at, o)
  }

  predicate LoadsFrom(t: Tree, s: Service, reading: Reading)
    requires s.name in t.loads
  {
    reading.Read? && EndOf(t, s, reading).verdict.Loaded?
  }

  /** Whether a load makes a schema and rewrites the sentinel it has for it. */
  predicate Rewrites(t: Tree, s: Service, reading: Reading)
    requires s.name in t.loads
  {
    LoadsFrom(t, s, reading) && EndOf(t, s, reading).verdict.rewrote
  }

  /** A finding of a load as it is kept: by the service it belongs to. */
  ghost predicate FindsOf(t: Tree, s: Service, reading: Reading, n: string, e: Diagnostic)
    requires s.name in t.loads
  {
    exists d :: Finds(t, s, reading, d) && Belongs(t.services, s.name, d.file, n) && e == d.(service := n)
  }

  /** What blocks a load: a service whose failure it fails by, or another that one of its findings belongs to. */
  ghost predicate IsBlockedBy(t: Tree, s: Service, reading: Reading, o: string)
    requires s.name in t.loads
  {
    FailsBy(t, s, reading, o)
    || (o != s.name && exists d :: Finds(t, s, reading, d) && Belongs(t.services, s.name, d.file, o))
  }

  // The findings recorded of a load

  /** The findings that are attributed when a load is recorded, in order. */
  function FindingsOf(t: Tree, s: Service, reading: Reading): seq<Diagnostic>
    requires s.name in t.loads
  {
    if reading.Stopped? then Findings(Wrapped("reading " + reading.name, ErrorOf(reading)), s.dir)
    else
      var end := EndOf(t, s, reading);
      AnchoredAll(s.dir, end.warnings, Warning)
      + match end.verdict
        case Refused(error) => Findings(error, s.dir)
        case Loaded(_, extra, _) => AnchoredAll(s.dir, extra, Error)
  }

  lemma FindingsAreFound(t: Tree, s: Service, reading: Reading, d: Diagnostic)
    requires s.name in t.loads && (reading.Stopped? ==> !reading.answer.Ready?)
    ensures d in FindingsOf(t, s, reading) <==> Finds(t, s, reading, d)
  {
    hide LeafAt, Reported;
    match reading
    case Stopped(name, _) => StoppedFinds(reading, s.dir);
    case Read(_) =>
      var end := EndOf(t, s, reading);
      AnchoredFinds(s.dir, end.warnings, Warning, d);
      match end.verdict
      case Refused(error) => ErrorFinds(error, s.dir, d);
      case Loaded(_, extra, _) => AnchoredFinds(s.dir, extra, Error, d);
  }

  lemma StoppedFinds(reading: Reading, dir: string)
    requires reading.Stopped? && !reading.answer.Ready?
    ensures Findings(Wrapped("reading " + reading.name, ErrorOf(reading)), dir)
      == if reading.answer.Blocked? then [] else [Diagnostic("", "", 0, 0, Error, "reading " + reading.name)]
    ensures BlockersOf(Wrapped("reading " + reading.name, ErrorOf(reading)))
      == if reading.answer.Blocked? then {reading.name} else {}
  {
  }

  lemma AnchoredFinds(dir: string, ds: seq<Diagnostic>, severity: Severity, d: Diagnostic)
    ensures d in AnchoredAll(dir, ds, severity)
      <==> exists w :: w in ds && d == w.(file := Absolute(dir, w.file), severity := severity)
  {
    AnchoredEach(dir, ds, severity);
    var r := AnchoredAll(dir, ds, severity);
    if d in r {
      var i :| 0 <= i < |r| && r[i] == d;
      assert ds[i] in ds;
    }
    if w :| w in ds && d == w.(file := Absolute(dir, w.file), severity := severity) {
      var i :| 0 <= i < |ds| && ds[i] == w;
      assert r[i] == d;
    }
  }

  lemma ErrorFinds(error: LoadError, dir: string, d: Diagnostic)
    ensures d in Findings(error, dir)
      <==> exists at :: IsFindingAt(error, at) && d == Reported(LeafAt(error, at).value, dir)
  {
    hide LeafAt, Reported, Before;
    FindingsAreLeaves(error, dir);
    var ds, ps := Findings(error, dir), PositionsOf(error);
    if d in ds {
      var i :| 0 <= i < |ds| && ds[i] == d;
      assert IsFindingAt(error, ps[i]);
    }
    if at :| IsFindingAt(error, at) && d == Reported(LeafAt(error, at).value, dir) {
      var i :| 0 <= i < |ps| && ps[i] == at;
      assert ds[i] == d;
    }
  }

  // The order of findings

  /** What a finding is as it is kept by a service, when it belongs there. */
  ghost predicate IsKeptAs(services: seq<Service>, loaded: string, d: Diagnostic, n: string, e: Diagnostic) {
    Belongs(services, loaded, d.file, n) && e == d.(service := n)
  }

  /** Whether some finding that is kept as a comes before every one that is kept as b. */
  ghost predicate IsFoundFirst(services: seq<Service>, loaded: string, findings: seq<Diagnostic>, n: string,
      a: Diagnostic, b: Diagnostic) {
    exists k ::
      && 0 <= k < |findings| && IsKeptAs(services, loaded, findings[k], n, a)
      && forall l | 0 <= l < |findings| && IsKeptAs(services, loaded, findings[l], n, b) :: k < l
  }

  lemma {:induction false} AttributeLast(services: seq<Service>, results: Results, name: string,
      findings: seq<Diagnostic>, d: Diagnostic)
    ensures Attribute(services, results, name, findings + [d])
      == AttributeOne(services, Attribute(services, results, name, findings), name, d)
    decreases |findings|
  {
    hide AttributeOne;
    if findings != [] {
      assert (findings + [d])[0] == findings[0] && (findings + [d])[1..] == findings[1..] + [d];
      AttributeLast(services, AttributeOne(services, results, name, findings[0]), name, findings[1..], d);
    } else {
      assert [d][1..] == [];
    }
  }

  /** One more finding goes to the end of those of the service it belongs to, unless it is there. */
  lemma OneGoesLast(services: seq<Service>, results: Results, name: string, d: Diagnostic, n: string)
    requires AreTidy(results) && name in results
    ensures var owner := FindingOwner(services, name, d);
      var found, e := FoundIn(results, n), d.(service := owner);
      FoundIn(AttributeOne(services, results, name, d), n)
        == if n != owner || e in found then found else found + [e]
  {
    hide Belongs, FindingOwner;
    var owner := FindingOwner(services, name, d);
    var r := ResultOf(results, name);
    var results1 := if owner == name then results else results[name := r.(blockedBy := r.blockedBy + {owner})];
    TidyResult(results, owner);
    assert FoundIn(results1, owner) == FoundIn(results, owner);
    AddsOnce(ResultOf(results1, owner), owner, d.(service := owner));
  }

  /** Of two findings that a load adds to those of a service, the one found first comes first. */
  lemma {:induction false} AttributionKeepsOrder(services: seq<Service>, results: Results, name: string,
      findings: seq<Diagnostic>, n: string, i: int, j: int)
    requires AreTidy(results) && name in results
    requires var found := FoundIn(Attribute(services, results, name, findings), n);
      |FoundIn(results, n)| <= i < j < |found|
    ensures var found := FoundIn(Attribute(services, results, name, findings), n);
      IsFoundFirst(services, name, findings, n, found[i], found[j])
    decreases |findings|
  {
    hide AreTidy, Belongs, FindingOwner, AttributeOne, FoundIn, IsFoundFirst;
    assert findings != [];
    var front, d := findings[..|findings| - 1], findings[|findings| - 1];
    var before := Attribute(services, results, name, front);
    assert findings == front + [d];
    AttributeLast(services, results, name, front, d);
    AllAreAttributed(services, results, name, front);
    OneGoesLast(services, before, name, d, n);
    var found, owner := FoundIn(before, n), FindingOwner(services, name, d);
    OwnerBelongs(services, name, d, n);
    if j < |found| {
      AttributionKeepsOrder(services, results, name, front, n, i, j);
      FirstStays(services, name, front, d, n, found[i], found[j]);
    } else {
      assert IsFoundAfter(services, results, name, front, before, n, found[i]);
      AddedIsGained(services, results, name, front, before, n, i);
      assert IsFoundAfter(services, results, name, front, before, n, d.(service := owner));
      LastIsLater(services, name, front, d, n, found[i]);
    }
  }

  lemma AddedIsGained(services: seq<Service>, results: Results, name: string, findings: seq<Diagnostic>,
      results': Results, n: string, i: int)
    requires Attributed(services, results, name, findings, results') && name in results'
    requires |FoundIn(results, n)| <= i < |FoundIn(results', n)|
    ensures Gains(services, name, findings, n, FoundIn(results', n)[i])
  {
    hide Belongs, Gains;
    var kept, found := FoundIn(results, n), FoundIn(results', n);
    assert IsFoundAfter(services, results, name, findings, results', n, found[i]);
    TidyResult(results', n);
    forall k | 0 <= k < |kept| ensures kept[k] != found[i] {
      assert kept[k] == found[k];
    }
  }

  lemma FirstStays(services: seq<Service>, name: string, findings: seq<Diagnostic>, d: Diagnostic, n: string,
      a: Diagnostic, b: Diagnostic)
    requires IsFoundFirst(services, name, findings, n, a, b)
    ensures IsFoundFirst(services, name, findings + [d], n, a, b)
  {
    hide Belongs;
    var k :| 0 <= k < |findings| && IsKeptAs(services, name, findings[k], n, a)
      && forall l | 0 <= l < |findings| && IsKeptAs(services, name, findings[l], n, b) :: k < l;
    assert (findings + [d])[k] == findings[k];
  }

  lemma LastIsLater(services: seq<Service>, name: string, findings: seq<Diagnostic>, d: Diagnostic, n: string,
      a: Diagnostic)
    requires Gains(services, name, findings, n, a) && !Gains(services, name, findings, n, d.(service := n))
    ensures IsFoundFirst(services, name, findings + [d], n, a, d.(service := n))
  {
    hide Belongs;
    var x :| x in findings && Belongs(services, name, x.file, n) && a == x.(service := n);
    var k :| 0 <= k < |findings| && findings[k] == x;
    assert (findings + [d])[k] == x;
    forall l | 0 <= l < |findings| ensures !IsKeptAs(services, name, findings[l], n, d.(service := n)) {
      assert findings[l] in findings;
    }
  }

  /** A finding of a load's own files, as it is listed: its file absolute, and as grave as it is said to be. */
  predicate IsListedAs(d: Diagnostic, x: Diagnostic, dir: string, severity: Severity) {
    d == x.(file := Absolute(dir, x.file), severity := severity)
  }

  /** What a load that reads all it asks for lists after its warnings. */
  function ListedLast(t: Tree, s: Service, reading: Reading): seq<Diagnostic>
    requires s.name in t.loads && reading.Read?
  {
    match EndOf(t, s, reading).verdict
    case Refused(error) => Findings(error, s.dir)
    case Loaded(_, extra, _) => AnchoredAll(s.dir, extra, Error)
  }

  lemma ListedAs(ds: seq<Diagnostic>, dir: string, severity: Severity, i: nat)
    requires i < |ds|
    ensures IsListedAs(AnchoredAll(dir, ds, severity)[i], ds[i], dir, severity)
  {
    AnchoredEach(dir, ds, severity);
  }

  /** What a finding of an error is: that of the leaf at one of the places of its findings, from left to right. */
  ghost predicate IsLeafAt(d: Diagnostic, error: LoadError, dir: string, k: int) {
    var leaves := PositionsOf(error);
    && 0 <= k < |leaves| && IsFindingAt(error, leaves[k]) && d == Reported(LeafAt(error, leaves[k]).value, dir)
  }

  lemma ErrorLists(error: LoadError, dir: string, k: nat)
    requires k < |Findings(error, dir)|
    ensures IsLeafAt(Findings(error, dir)[k], error, dir, k)
  {
    hide LeafAt, Reported, Before, PositionsOf, Findings;
    FindingsAreLeaves(error, dir);
  }

  /** A load lists its warnings first, as they came; then what it has against its schema, or the leaves of the error
      it is refused with, from left to right. */
  lemma FindingsAreListed(t: Tree, s: Service, reading: Reading, i: nat)
    requires s.name in t.loads && reading.Read? && i < |FindingsOf(t, s, reading)|
    ensures var end, d := EndOf(t, s, reading), FindingsOf(t, s, reading)[i];
      var k := i - |end.warnings|;
      if k < 0 then IsListedAs(d, end.warnings[i], s.dir, Warning)
      else if end.verdict.Loaded? then k < |end.verdict.extra| && IsListedAs(d, end.verdict.extra[k], s.dir, Error)
      else IsLeafAt(d, end.verdict.error, s.dir, k)
  {
    hide IsListedAs, IsLeafAt, Findings, EndOf;
    var end := EndOf(t, s, reading);
    var k := i - |end.warnings|;
    assert FindingsOf(t, s, reading) == AnchoredAll(s.dir, end.warnings, Warning) + ListedLast(t, s, reading);
    if k < 0 {
      ListedAs(end.warnings, s.dir, Warning, i);
    } else if end.verdict.Loaded? {
      ListedAs(end.verdict.extra, s.dir, Error, k);
    } else {
      ErrorLists(end.verdict.error, s.dir, k);
    }
  }
}
