/** What a run leaves, in terms of what each load of it read. */
module CheckTrace {
  import opened CheckTypes
  import opened LeastLoads
  import opened CheckRun
  import opened CheckProofs
  import opened CheckFindings
  import opened ErrorLeaves

  /** What each load of a run that is over read. */
  type Readings = map<string, Reading>

  ghost predicate IsLoad(t: Tree, readings: Readings, s: Service, n: string) {
    s in t.services && s.name == n && n in readings && n in t.loads
  }

  /** A reading as the state shows it: the schemas of all that the load asks for, or where it stopped. */
  ghost predicate IsReading(t: Tree, st: State, asks: seq<string>, reading: Reading) {
    match reading
    case Read(schemas) => AllIn(asks, st.schemas) && schemas == At(asks, st.schemas)
    case Stopped(name, answer) => exists i :: StopsAt(t, st, asks, i, name, answer)
  }

  /** The asks before are there, and this one is not: its load failed, or is under way, or there is none. */
  ghost predicate StopsAt(t: Tree, st: State, asks: seq<string>, i: int, name: string, answer: Answer) {
    && 0 <= i < |asks| && asks[i] == name && AllIn(asks[..i], st.schemas)
    && !answer.Ready?
    && (answer.Blocked? ==> HasFailed(st, name))
    && (answer.ReadWhileItLoads? ==> name in st.loading + st.done)
    && (answer.NotFound? ==> !IsService(t, name))
  }

  /** The schema of a service: what its load made, or what was held of it before. */
  ghost predicate HoldsSchema(t: Tree, base: State, st: State, readings: Readings, n: string) {
    && (n !in readings ==>
          && (n in st.schemas <==> n in base.schemas)
          && (n in st.schemas ==> st.schemas[n] == base.schemas[n]))
    && forall s | IsLoad(t, readings, s, n) ::
         && (n in st.schemas <==> LoadsFrom(t, s, readings[n]))
         && (n in st.schemas ==> st.schemas[n] == EndOf(t, s, readings[n]).verdict.schema)
  }

  /** A service failed when its load did, or had failed before. */
  ghost predicate HoldsFailure(t: Tree, base: State, st: State, readings: Readings, n: string) {
    HasFailed(st, n) <==> HasFailed(base, n) || exists s :: IsLoad(t, readings, s, n) && !LoadsFrom(t, s, readings[n])
  }

  /** A finding is kept of a service when some load found it and it belongs there, or it was kept before. */
  ghost predicate HoldsFinding(t: Tree, base: State, st: State, readings: Readings, n: string, e: Diagnostic) {
    e in FoundIn(st.results, n) <==>
      e in FoundIn(base.results, n) || exists s, m :: IsLoad(t, readings, s, m) && FindsOf(t, s, readings[m], n, e)
  }

  /** A service is blocked by another when something in its load says so, or it was before. */
  ghost predicate HoldsBlocker(t: Tree, base: State, st: State, readings: Readings, n: string, o: string) {
    o in BlockersIn(st.results, n) <==>
      o in BlockersIn(base.results, n) || exists s :: IsLoad(t, readings, s, n) && IsBlockedBy(t, s, readings[n], o)
  }

  /** A service is listed as rewritten when its load rewrote its sentinel. */
  ghost predicate HoldsRewrite(t: Tree, st: State, readings: Readings, n: string) {
    n in st.rewrote <==> exists s :: IsLoad(t, readings, s, n) && Rewrites(t, s, readings[n])
  }

  /** The state of a run that began with `base`, after the loads with these readings. */
  ghost predicate Traced(t: Tree, base: State, st: State, readings: Readings) {
    && readings.Keys == st.done && st.done <= t.Names() && st.loading !! st.done
    && (forall n | n in st.loading :: n !in st.schemas)
    && AreTidy(st.results) && Distinct(st.rewrote) && CheckedOnce(st)
    && (forall n | n in readings :: IsReading(t, st, t.loads[n].asks, readings[n]))
    && (forall n :: HoldsSchema(t, base, st, readings, n))
    && (forall n :: HoldsFailure(t, base, st, readings, n))
    && (forall n, e :: HoldsFinding(t, base, st, readings, n, e))
    && (forall n, o :: HoldsBlocker(t, base, st, readings, n, o))
    && (forall n :: HoldsRewrite(t, st, readings, n))
  }

  // Recording a load

  ghost predicate FailsAfter(t: Tree, st: State, s: Service, reading: Reading, st': State, n: string)
    requires s.name in t.loads
  {
    HasFailed(st', n) <==> HasFailed(st, n) || (n == s.name && !LoadsFrom(t, s, reading))
  }

  ghost predicate FindsAfter(t: Tree, st: State, s: Service, reading: Reading, st': State, n: string, e: Diagnostic)
    requires s.name in t.loads
  {
    e in FoundIn(st'.results, n) <==> e in FoundIn(st.results, n) || FindsOf(t, s, reading, n, e)
  }

  ghost predicate BlocksAfter(t: Tree, st: State, s: Service, reading: Reading, st': State, n: string, o: string)
    requires s.name in t.loads
  {
    o in BlockersIn(st'.results, n) <==>
      o in BlockersIn(st.results, n) || (n == s.name && IsBlockedBy(t, s, reading, o))
  }

  /** What recording the load of s adds to a state. */
  ghost predicate Adds(t: Tree, st: State, s: Service, reading: Reading, st': State)
    requires s.name in t.loads
  {
    && st'.loading == st.loading && st'.done == st.done && st'.checked == st.checked
    && st'.schemas == (if LoadsFrom(t, s, reading) then st.schemas[s.name := EndOf(t, s, reading).verdict.schema]
                       else st.schemas)
    && st'.rewrote == (if Rewrites(t, s, reading) then st.rewrote + [s.name] else st.rewrote)
    && AreTidy(st'.results)
    && (forall n :: FailsAfter(t, st, s, reading, st', n))
    && (forall n, e :: FindsAfter(t, st, s, reading, st', n, e))
    && (forall n, o :: BlocksAfter(t, st, s, reading, st', n, o))
  }

  lemma FindingsAreOf(t: Tree, s: Service, reading: Reading, n: string, e: Diagnostic)
    requires s.name in t.loads && (reading.Stopped? ==> !reading.answer.Ready?)
    ensures Gains(t.services, s.name, FindingsOf(t, s, reading), n, e) <==> FindsOf(t, s, reading, n, e)
  {
    hide Belongs, FindingsOf, Finds;
    forall d ensures d in FindingsOf(t, s, reading) <==> Finds(t, s, reading, d) {
      FindingsAreFound(t, s, reading, d);
    }
  }

  lemma FindingsBlock(t: Tree, s: Service, reading: Reading, o: string)
    requires s.name in t.loads && (reading.Stopped? ==> !reading.answer.Ready?)
    ensures IsBlockedBy(t, s, reading, o) <==>
      Names(t.services, s.name, FindingsOf(t, s, reading), o) || FailsBy(t, s, reading, o)
  {
    hide Belongs, FindingsOf, Finds;
    forall d ensures d in FindingsOf(t, s, reading) <==> Finds(t, s, reading, d) {
      FindingsAreFound(t, s, reading, d);
    }
  }

  /** Attributing a load's findings, after its failure is recorded when it failed, adds what the load says. */
  lemma AttributionAdds(t: Tree, st: State, s: Service, reading: Reading, blockers: set<string>, st': State)
    requires t.Valid() && s in t.services && s.name in st.results && AreTidy(st.results)
    requires reading.Stopped? ==> !reading.answer.Ready?
    requires forall o :: o in blockers <==> FailsBy(t, s, reading, o)
    requires var r := st.results[s.name];
      var failed := if LoadsFrom(t, s, reading) then r else r.(failed := true, blockedBy := r.blockedBy + blockers);
      st'.results == Attribute(t.services, st.results[s.name := failed], s.name, FindingsOf(t, s, reading))
    ensures AreTidy(st'.results) && st.results.Keys <= st'.results.Keys
    ensures forall n :: FailsAfter(t, st, s, reading, st', n)
    ensures forall n, e :: FindsAfter(t, st, s, reading, st', n, e)
    ensures forall n, o :: BlocksAfter(t, st, s, reading, st', n, o)
  {
    hide FindingsOf, Finds, Belongs, FailsBy, Attribute, IsTidy, FindsOf, Gains, Names, IsBlockedBy;
    var r := st.results[s.name];
    var failed := if LoadsFrom(t, s, reading) then r else r.(failed := true, blockedBy := r.blockedBy + blockers);
    var results1 := st.results[s.name := failed];
    var findings := FindingsOf(t, s, reading);
    AllAreAttributed(t.services, results1, s.name, findings);
    forall n ensures FailsAfter(t, st, s, reading, st', n) {
      assert ResultOf(st'.results, n).failed == ResultOf(results1, n).failed;
    }
    forall n, e ensures FindsAfter(t, st, s, reading, st', n, e) {
      assert IsFoundAfter(t.services, results1, s.name, findings, st'.results, n, e);
      FindingsAreOf(t, s, reading, n, e);
    }
    forall n, o ensures BlocksAfter(t, st, s, reading, st', n, o) {
      assert IsBlockedAfter(t.services, results1, s.name, findings, st'.results, n, o);
      FindingsBlock(t, s, reading, o);
      if LoadsFrom(t, s, reading) {
        NoFailureNoBlocker(t, s, reading, o);
      }
    }
  }

  lemma NoFailureNoBlocker(t: Tree, s: Service, reading: Reading, o: string)
    requires s.name in t.loads && LoadsFrom(t, s, reading)
    ensures !FailsBy(t, s, reading, o)
  {
  }

  /** Recording a load adds what it says. */
  lemma RecordAdds(t: Tree, st: State, s: Service, reading: Reading)
    requires t.Valid() && s in t.services && s.name in st.results && AreTidy(st.results)
    requires reading.Stopped? ==> !reading.answer.Ready?
    ensures Adds(t, st, s, reading, Record(t, st, s, reading))
  {
    hide AreTidy, Attribute, Findings, BlockersOf, FailsAfter, FindsAfter, BlocksAfter;
    var st' := Record(t, st, s, reading);
    match reading
    case Stopped(name, answer) =>
      StoppedFinds(reading, s.dir);
      var error := Wrapped("reading " + name, ErrorOf(reading));
      assert [] + Findings(error, s.dir) == Findings(error, s.dir);
      AttributionAdds(t, st, s, reading, BlockersOf(error), st');
    case Read(_) =>
      match EndOf(t, s, reading).verdict
      case Refused(error) =>
        forall o ensures o in BlockersOf(error) <==> FailsBy(t, s, reading, o) { BlockersAreLeaves(error, o); }
        AttributionAdds(t, st, s, reading, BlockersOf(error), st');
      case Loaded(_, _, _) =>
        assert st.results[s.name := st.results[s.name]] == st.results;
        AttributionAdds(t, st, s, reading, {}, st');
  }

  // One more load

  lemma OneOfAName(t: Tree, s: Service, s': Service)
    requires t.Valid() && s in t.services && s' in t.services && s'.name == s.name
    ensures s' == s
  {
    var i, j :| 0 <= i < |t.services| && 0 <= j < |t.services| && t.services[i] == s && t.services[j] == s';
    assert i == j;
  }

  /** The loads of some readings and one more are those, and that one. */
  lemma OneMoreLoad(t: Tree, readings: Readings, s: Service, reading: Reading, s': Service, n: string)
    requires t.Valid() && s in t.services && s.name !in readings && s.name in t.loads
    ensures IsLoad(t, readings[s.name := reading], s', n)
      <==> IsLoad(t, readings, s', n) || (s' == s && n == s.name)
  {
    if s' in t.services && s'.name == s.name {
      OneOfAName(t, s, s');
    }
  }

  /** A reading goes on being one as schemas are added and loads end. */
  lemma ReadingStays(t: Tree, st: State, st': State, asks: seq<string>, reading: Reading)
    requires IsReading(t, st, asks, reading) && Goes(st, st')
    ensures IsReading(t, st', asks, reading)
  {
    match reading
    case Read(schemas) => AtBelow(asks, st.schemas, st'.schemas);
    case Stopped(name, answer) =>
      var i :| StopsAt(t, st, asks, i, name, answer);
      assert StopsAt(t, st', asks, i, name, answer);
  }

  /** Schemas are only added, failures stay, what was loading is loading or done, and what is checked later is
      listed later. */
  ghost predicate Goes(st: State, st': State) {
    && st.checked <= st'.checked
    && Below(st.schemas, st'.schemas) && st.loading + st.done <= st'.loading + st'.done
    && forall n :: HasFailed(st, n) ==> HasFailed(st', n)
  }

  lemma GoesOn(a: State, b: State, c: State)
    requires Goes(a, b) && Goes(b, c)
    ensures Goes(a, c)
  {
  }

  lemma StepGoes(t: Tree, st: State, s: Service, reading: Reading, st1: State)
    requires s.name in t.loads && s.name !in st.schemas && Adds(t, st, s, reading, st1)
    ensures Goes(st, Leave(st1, s.name))
  {
    hide LoadsFrom, EndOf, Rewrites, AreTidy, HasFailed;
    forall n | HasFailed(st, n) ensures HasFailed(Leave(st1, s.name), n) {
      assert FailsAfter(t, st, s, reading, st1, n);
      LeaveFails(st1, s.name, n);
    }
  }

  lemma LeaveFails(st: State, name: string, n: string)
    ensures HasFailed(Leave(st, name), n) <==> HasFailed(st, n)
  {
  }

  lemma SchemaIsTraced(t: Tree, base: State, st: State, readings: Readings, s: Service, reading: Reading, st1: State,
      n: string)
    requires t.Valid() && s in t.services && s.name in t.loads && s.name !in readings && s.name !in st.schemas
    requires HoldsSchema(t, base, st, readings, n) && Adds(t, st, s, reading, st1)
    ensures HoldsSchema(t, base, Leave(st1, s.name), readings[s.name := reading], n)
  {
    hide LoadsFrom, EndOf, Rewrites, AreTidy, FailsAfter, FindsAfter, BlocksAfter;
    var readings' := readings[s.name := reading];
    forall x | IsLoad(t, readings', x, n)
      ensures if n == s.name then x == s else IsLoad(t, readings, x, n) && readings'[n] == readings[n]
    {
      OneMoreLoad(t, readings, s, reading, x, n);
    }
    if n == s.name {
      assert n in st1.schemas <==> LoadsFrom(t, s, reading);
    } else {
      assert n in st1.schemas <==> n in st.schemas;
    }
  }

  lemma FailureIsTraced(t: Tree, base: State, st: State, readings: Readings, s: Service, reading: Reading, st1: State,
      n: string)
    requires t.Valid() && s in t.services && s.name in t.loads && s.name !in readings
    requires HoldsFailure(t, base, st, readings, n) && Adds(t, st, s, reading, st1)
    ensures HoldsFailure(t, base, Leave(st1, s.name), readings[s.name := reading], n)
  {
    hide LoadsFrom, EndOf, Rewrites, AreTidy, FindsAfter, BlocksAfter, HasFailed;
    var readings' := readings[s.name := reading];
    assert FailsAfter(t, st, s, reading, st1, n);
    LeaveFails(st1, s.name, n);
    if x :| IsLoad(t, readings, x, n) && !LoadsFrom(t, x, readings[n]) {
      assert IsLoad(t, readings', x, n) && readings'[n] == readings[n];
    }
    if n == s.name && !LoadsFrom(t, s, reading) {
      assert IsLoad(t, readings', s, n) && readings'[n] == reading;
    }
    if x :| IsLoad(t, readings', x, n) && !LoadsFrom(t, x, readings'[n]) {
      OneMoreLoad(t, readings, s, reading, x, n);
    }
  }

  lemma FindingIsTraced(t: Tree, base: State, st: State, readings: Readings, s: Service, reading: Reading, st1: State,
      n: string, e: Diagnostic)
    requires t.Valid() && s in t.services && s.name in t.loads && s.name !in readings
    requires HoldsFinding(t, base, st, readings, n, e) && Adds(t, st, s, reading, st1)
    ensures HoldsFinding(t, base, Leave(st1, s.name), readings[s.name := reading], n, e)
  {
    hide LoadsFrom, EndOf, Rewrites, AreTidy, FailsAfter, BlocksAfter, FindsOf, FoundIn;
    var readings' := readings[s.name := reading];
    assert FindsAfter(t, st, s, reading, st1, n, e);
    if x, m :| IsLoad(t, readings, x, m) && FindsOf(t, x, readings[m], n, e) {
      assert IsLoad(t, readings', x, m) && FindsOf(t, x, readings'[m], n, e);
    }
    if FindsOf(t, s, reading, n, e) {
      assert IsLoad(t, readings', s, s.name) && FindsOf(t, s, readings'[s.name], n, e);
    }
    if x, m :| IsLoad(t, readings', x, m) && FindsOf(t, x, readings'[m], n, e) {
      OneMoreLoad(t, readings, s, reading, x, m);
    }
  }

  lemma BlockerIsTraced(t: Tree, base: State, st: State, readings: Readings, s: Service, reading: Reading, st1: State,
      n: string, o: string)
    requires t.Valid() && s in t.services && s.name in t.loads && s.name !in readings
    requires HoldsBlocker(t, base, st, readings, n, o) && Adds(t, st, s, reading, st1)
    ensures HoldsBlocker(t, base, Leave(st1, s.name), readings[s.name := reading], n, o)
  {
    hide LoadsFrom, EndOf, Rewrites, AreTidy, FailsAfter, FindsAfter, IsBlockedBy, BlockersIn;
    var readings' := readings[s.name := reading];
    assert BlocksAfter(t, st, s, reading, st1, n, o);
    if x :| IsLoad(t, readings, x, n) && IsBlockedBy(t, x, readings[n], o) {
      assert IsLoad(t, readings', x, n) && IsBlockedBy(t, x, readings'[n], o);
    }
    if n == s.name && IsBlockedBy(t, s, reading, o) {
      assert IsLoad(t, readings', s, n) && IsBlockedBy(t, s, readings'[n], o);
    }
    if x :| IsLoad(t, readings', x, n) && IsBlockedBy(t, x, readings'[n], o) {
      OneMoreLoad(t, readings, s, reading, x, n);
    }
  }

  lemma RewriteIsTraced(t: Tree, st: State, readings: Readings, s: Service, reading: Reading, st1: State, n: string)
    requires t.Valid() && s in t.services && s.name in t.loads && s.name !in readings
    requires HoldsRewrite(t, st, readings, n) && Adds(t, st, s, reading, st1)
    ensures HoldsRewrite(t, Leave(st1, s.name), readings[s.name := reading], n)
  {
    hide LoadsFrom, EndOf, Rewrites, AreTidy, FailsAfter, FindsAfter, BlocksAfter;
    var readings' := readings[s.name := reading];
    if x :| IsLoad(t, readings, x, n) && Rewrites(t, x, readings[n]) {
      assert IsLoad(t, readings', x, n) && Rewrites(t, x, readings'[n]);
    }
    if n == s.name && Rewrites(t, s, reading) {
      assert IsLoad(t, readings', s, n) && Rewrites(t, s, readings'[n]);
    }
    if x :| IsLoad(t, readings', x, n) && Rewrites(t, x, readings'[n]) {
      OneMoreLoad(t, readings, s, reading, x, n);
    }
  }

  /** A load that has not begun is not listed as rewritten. */
  lemma RewriteIsNew(t: Tree, st: State, readings: Readings, s: Service, reading: Reading, st1: State)
    requires s.name in t.loads && s.name !in readings && HoldsRewrite(t, st, readings, s.name)
    requires Distinct(st.rewrote) && Adds(t, st, s, reading, st1)
    ensures Distinct(st1.rewrote)
  {
    hide LoadsFrom, EndOf, Rewrites, AreTidy, FailsAfter, FindsAfter, BlocksAfter;
  }

  lemma LoadIsTraced(t: Tree, base: State, st: State, readings: Readings, s: Service, reading: Reading, st1: State)
    requires t.Valid() && s in t.services && s.name in t.loads && s.name in st.loading
    requires Traced(t, base, st, readings) && Adds(t, st, s, reading, st1)
    requires IsReading(t, st, t.loads[s.name].asks, reading)
    ensures Goes(st, Leave(st1, s.name))
    ensures Traced(t, base, Leave(st1, s.name), readings[s.name := reading])
  {
    hide IsReading, LoadsFrom, Rewrites, AreTidy, EndOf, HoldsSchema, HoldsFailure, HoldsFinding, HoldsBlocker;
    hide HoldsRewrite, FailsAfter, FindsAfter, BlocksAfter, Goes, Tree.Valid;
    var st', readings' := Leave(st1, s.name), readings[s.name := reading];
    StepGoes(t, st, s, reading, st1);
    RewriteIsNew(t, st, readings, s, reading, st1);
    forall n | n in readings' ensures n in t.loads && IsReading(t, st', t.loads[n].asks, readings'[n]) {
      ReadingStays(t, st, st', t.loads[n].asks, readings'[n]);
    }
    forall n ensures HoldsSchema(t, base, st', readings', n) {
      SchemaIsTraced(t, base, st, readings, s, reading, st1, n);
    }
    forall n ensures HoldsFailure(t, base, st', readings', n) {
      FailureIsTraced(t, base, st, readings, s, reading, st1, n);
    }
    forall n, e ensures HoldsFinding(t, base, st', readings', n, e) {
      FindingIsTraced(t, base, st, readings, s, reading, st1, n, e);
    }
    forall n, o ensures HoldsBlocker(t, base, st', readings', n, o) {
      BlockerIsTraced(t, base, st, readings, s, reading, st1, n, o);
    }
    forall n ensures HoldsRewrite(t, st', readings', n) {
      RewriteIsTraced(t, st, readings, s, reading, st1, n);
    }
  }

  // Cycles

  /** Loads of which each stopped because the next one failed. */
  ghost predicate StopsInTurn(readings: Readings, chain: seq<string>) {
    chain != [] && forall i | 0 <= i < |chain| - 1 :: StopsAtNext(readings, chain[i], chain[i + 1])
  }

  predicate StopsAtNext(readings: Readings, a: string, b: string) {
    a in readings && readings[a] == Stopped(b, Blocked)
  }

  ghost predicate Leads(readings: Readings, n: string, m: string) {
    exists chain :: StopsInTurn(readings, chain) && chain[0] == n && chain[|chain| - 1] == m
  }

  predicate MeetsALoad(readings: Readings, m: string) {
    m in readings && readings[m].Stopped? && readings[m].answer.ReadWhileItLoads?
  }

  /** A load that is told the service it asks for is being loaded closes a cycle: from that service, each load
      stopped because the next one failed, up to this one. */
  ghost predicate ClosesCycle(readings: Readings, m: string) {
    MeetsALoad(readings, m) ==> Leads(readings, readings[m].name, m)
  }

  ghost predicate AllClosed(readings: Readings) {
    forall m :: ClosesCycle(readings, m)
  }

  /** All but one have: that one met a service that is loading still, and stopped the loads up to n. */
  ghost predicate UnwindsBy(readings: Readings, loading: set<string>, n: string, m: string) {
    && MeetsALoad(readings, m) && readings[m].name in loading && Leads(readings, n, m)
    && forall x | x != m :: ClosesCycle(readings, x)
  }

  ghost predicate Unwinds(readings: Readings, loading: set<string>, n: string) {
    exists m :: UnwindsBy(readings, loading, n, m)
  }

  ghost predicate StopsWith(readings: Readings, loading: set<string>, name: string, answer: Answer) {
    || (AllClosed(readings) && (answer.ReadWhileItLoads? ==> name in loading))
    || (answer.Blocked? && Unwinds(readings, loading, name))
  }

  ghost predicate Reads(readings: Readings, loading: set<string>, reading: Reading) {
    if reading.Read? then AllClosed(readings) else StopsWith(readings, loading, reading.name, reading.answer)
  }

  lemma LeadsStill(readings: Readings, s: string, reading: Reading, n: string, m: string)
    requires s !in readings && Leads(readings, n, m)
    ensures Leads(readings[s := reading], n, m)
  {
    var chain :| StopsInTurn(readings, chain) && chain[0] == n && chain[|chain| - 1] == m;
    forall i | 0 <= i < |chain| - 1 ensures StopsAtNext(readings[s := reading], chain[i], chain[i + 1]) {
      assert StopsAtNext(readings, chain[i], chain[i + 1]);
    }
    assert StopsInTurn(readings[s := reading], chain);
  }

  lemma LeadsToItself(readings: Readings, n: string)
    ensures Leads(readings, n, n)
  {
    assert StopsInTurn(readings, [n]);
  }

  lemma LeadsFrom(readings: Readings, s: string, n: string, m: string)
    requires s in readings && readings[s] == Stopped(n, Blocked) && Leads(readings, n, m)
    ensures Leads(readings, s, m)
  {
    var chain :| StopsInTurn(readings, chain) && chain[0] == n && chain[|chain| - 1] == m;
    var longer := [s] + chain;
    forall i | 0 <= i < |longer| - 1 ensures StopsAtNext(readings, longer[i], longer[i + 1]) {
      if i > 0 {
        assert StopsAtNext(readings, chain[i - 1], chain[i]);
      }
    }
    assert StopsInTurn(readings, longer);
  }

  /** One more load closes its cycle, or unwinds on to the service that asked for it. */
  lemma OneMoreCloses(readings: Readings, loading: set<string>, s: string, reading: Reading)
    requires s !in readings && s in loading && Reads(readings, loading, reading)
    ensures AllClosed(readings[s := reading]) || Unwinds(readings[s := reading], loading - {s}, s)
  {
    hide Leads;
    var readings' := readings[s := reading];
    forall x | x != s && ClosesCycle(readings, x) ensures ClosesCycle(readings', x) {
      if MeetsALoad(readings, x) {
        LeadsStill(readings, s, reading, readings[x].name, x);
      }
    }
    LeadsToItself(readings', s);
    if reading.Stopped? && !AllClosed(readings) {
      var m :| UnwindsBy(readings, loading, reading.name, m);
      LeadsStill(readings, s, reading, reading.name, m);
      LeadsFrom(readings', s, reading.name, m);
      assert m != s && MeetsALoad(readings', m);
      if readings[m].name != s {
        assert UnwindsBy(readings', loading - {s}, s, m);
      }
    } else if MeetsALoad(readings', s) && reading.name != s {
      assert UnwindsBy(readings', loading - {s}, s, s);
    }
  }

  /** A load that unwinds failed. */
  lemma UnwoundFails(t: Tree, base: State, st: State, readings: Readings, loading: set<string>, n: string)
    requires t.Valid() && Traced(t, base, st, readings) && Unwinds(readings, loading, n)
    ensures n !in st.schemas && HasFailed(st, n)
  {
    var m :| UnwindsBy(readings, loading, n, m);
    var chain :| StopsInTurn(readings, chain) && chain[0] == n && chain[|chain| - 1] == m;
    assert n in readings && readings[n].Stopped? by {
      if |chain| > 1 { assert StopsAtNext(readings, chain[0], chain[1]); }
    }
    assert n in t.Names();
    var s :| s in t.services && s.name == n;
    assert IsLoad(t, readings, s, n);
    assert HoldsSchema(t, base, st, readings, n) && HoldsFailure(t, base, st, readings, n);
  }

  // The engine

  lemma EnterListsOnce(st: State, name: string)
    requires CheckedOnce(st) && name !in st.done + st.loading
    ensures CheckedOnce(Enter(st, name))
  {
  }

  lemma EnterIsTidy(st: State, name: string)
    requires AreTidy(st.results)
    ensures AreTidy(Enter(st, name).results)
  {
  }

  lemma EnterGoes(st: State, name: string)
    ensures Goes(st, Enter(st, name))
    ensures forall n :: HasFailed(Enter(st, name), n) <==> HasFailed(st, n)
    ensures forall n :: FoundIn(Enter(st, name).results, n) == FoundIn(st.results, n)
    ensures forall n :: BlockersIn(Enter(st, name).results, n) == BlockersIn(st.results, n)
  {
  }

  lemma EnterIsTraced(t: Tree, base: State, st: State, readings: Readings, s: Service)
    requires Traced(t, base, st, readings) && s.name !in st.done + st.loading && s.name !in st.schemas
    ensures Traced(t, base, Enter(st, s.name), readings) && Goes(st, Enter(st, s.name))
  {
    hide IsReading, LoadsFrom, Rewrites, EndOf, FindsOf, IsBlockedBy, IsLoad, CheckedOnce, AreTidy, Distinct;
    hide Goes, HasFailed, FoundIn, BlockersIn;
    var entered := Enter(st, s.name);
    EnterListsOnce(st, s.name);
    EnterIsTidy(st, s.name);
    EnterGoes(st, s.name);
    forall n | n in readings ensures IsReading(t, entered, t.loads[n].asks, readings[n]) {
      ReadingStays(t, st, entered, t.loads[n].asks, readings[n]);
    }
    forall n ensures HoldsSchema(t, base, entered, readings, n) { assert HoldsSchema(t, base, st, readings, n); }
    forall n ensures HoldsFailure(t, base, entered, readings, n) { assert HoldsFailure(t, base, st, readings, n); }
    forall n, e ensures HoldsFinding(t, base, entered, readings, n, e) {
      assert HoldsFinding(t, base, st, readings, n, e);
    }
    forall n, o ensures HoldsBlocker(t, base, entered, readings, n, o) {
      assert HoldsBlocker(t, base, st, readings, n, o);
    }
    forall n ensures HoldsRewrite(t, entered, readings, n) { assert HoldsRewrite(t, st, readings, n); }
  }

  lemma GoesToItself(st: State)
    ensures Goes(st, st)
  {
  }

  /** A service whose load is over has a schema or failed. */
  lemma DoneIsKnown(t: Tree, base: State, st: State, readings: Readings, n: string)
    requires t.Valid() && Traced(t, base, st, readings) && n in st.done
    ensures n in st.schemas || HasFailed(st, n)
  {
    var s :| s in t.services && s.name == n;
    assert IsLoad(t, readings, s, n);
    assert HoldsSchema(t, base, st, readings, n) && HoldsFailure(t, base, st, readings, n);
  }

  lemma {:induction false} CheckIsTraced(t: Tree, base: State, st: State, s: Service, readings: Readings)
    returns (readings': Readings)
    requires t.Valid() && s in t.services && Traced(t, base, st, readings)
    requires s.name in st.done + st.loading || s.name !in st.schemas
    ensures Traced(t, base, Check(t, st, s), readings') && Goes(st, Check(t, st, s))
    ensures s.name !in st.done + st.loading ==> Goes(Enter(st, s.name), Check(t, st, s))
    ensures AllClosed(readings) ==>
      AllClosed(readings') || (s.name !in st.done + st.loading && Unwinds(readings', st.loading, s.name))
    decreases Unstarted(t, st), 0
  {
    hide Traced, Goes, IsReading, Adds, Record, AllClosed, Unwinds, StopsWith;
    GoesToItself(st);
    readings' := readings;
    if s.name !in st.done && s.name !in st.loading {
      var entered, asks := Enter(st, s.name), t.loads[s.name].asks;
      EnterIsTraced(t, base, st, readings, s);
      assert s.name in Unstarted(t, st) && s.name !in Unstarted(t, entered);
      assert Unstarted(t, entered) < Unstarted(t, st);
      var (reading, st1) := ReadAll(t, entered, asks, []);
      readings' := ReadAllIsTraced(t, base, entered, asks, [], readings);
      CheckUnfolds(t, st, s, reading, st1);
      readings' := RecordIsTraced(t, base, st, st1, s, reading, readings');
    }
  }

  lemma RecordIsTraced(t: Tree, base: State, st: State, st1: State, s: Service, reading: Reading, readings: Readings)
    returns (readings': Readings)
    requires t.Valid() && s in t.services && s.name in st1.loading && s.name in st1.results
    requires Traced(t, base, st1, readings) && Goes(Enter(st, s.name), st1) && Goes(st, Enter(st, s.name))
    requires IsReadAfter(t, st1, t.loads[s.name].asks, [], reading)
    ensures Traced(t, base, Leave(Record(t, st1, s, reading), s.name), readings')
    ensures Goes(st, Leave(Record(t, st1, s, reading), s.name))
    ensures Goes(Enter(st, s.name), Leave(Record(t, st1, s, reading), s.name))
    ensures Reads(readings, st1.loading, reading) ==>
      AllClosed(readings') || Unwinds(readings', st1.loading - {s.name}, s.name)
  {
    hide AllClosed, Unwinds, Reads;
    hide Goes, Adds, Record, HoldsSchema, HoldsFailure, HoldsFinding, HoldsBlocker, HoldsRewrite, StopsAt;
    var st2 := Record(t, st1, s, reading);
    AfterNothing(t, st1, t.loads[s.name].asks, reading);
    RecordAdds(t, st1, s, reading);
    LoadIsTraced(t, base, st1, readings, s, reading, st2);
    GoesOn(st, Enter(st, s.name), st1);
    GoesOn(Enter(st, s.name), st1, Leave(st2, s.name));
    GoesOn(st, st1, Leave(st2, s.name));
    readings' := readings[s.name := reading];
    if Reads(readings, st1.loading, reading) {
      OneMoreCloses(readings, st1.loading, s.name, reading);
    }
  }

  /** What reading a list of services found, after the schemas in `got`. */
  ghost predicate IsReadAfter(t: Tree, st: State, asks: seq<string>, got: seq<Schema>, reading: Reading) {
    match reading
    case Read(schemas) => AllIn(asks, st.schemas) && schemas == got + At(asks, st.schemas)
    case Stopped(name, answer) => exists i :: StopsAt(t, st, asks, i, name, answer)
  }

  lemma AfterNothing(t: Tree, st: State, asks: seq<string>, reading: Reading)
    requires IsReadAfter(t, st, asks, [], reading)
    ensures IsReading(t, st, asks, reading) && (reading.Stopped? ==> !reading.answer.Ready?)
  {
  }

  lemma {:induction false} ReadAllIsTraced(t: Tree, base: State, st: State, asks: seq<string>, got: seq<Schema>,
      readings: Readings) returns (readings': Readings)
    requires t.Valid() && Traced(t, base, st, readings)
    ensures var (reading, st') := ReadAll(t, st, asks, got);
      && Traced(t, base, st', readings') && Goes(st, st') && IsReadAfter(t, st', asks, got, reading)
      && (AllClosed(readings) ==> Reads(readings', st.loading, reading))
    decreases Unstarted(t, st), 2, |asks|
  {
    hide Traced, Goes, StopsAt, AllClosed, StopsWith;
    readings' := readings;
    if asks == [] {
      GoesToItself(st);
      assert got + [] == got;
    } else {
      var (answer, st1) := Dependency(t, st, asks[0]);
      readings' := DependencyIsTraced(t, base, st, asks[0], readings);
      assert Unstarted(t, st1) <= Unstarted(t, st);
      if answer.Ready? {
        var (reading, st') := ReadAll(t, st1, asks[1..], got + [answer.schema]);
        readings' := ReadAllIsTraced(t, base, st1, asks[1..], got + [answer.schema], readings');
        GoesOn(st, st1, st');
        OneMoreRead(t, st1, st', asks, got, answer.schema, reading);
        assert ReadAll(t, st, asks, got) == (reading, st');
      } else {
        assert ReadAll(t, st, asks, got) == (Stopped(asks[0], answer), st1);
        StopsFirst(t, st1, asks, answer);
      }
    }
  }

  lemma StopsFirst(t: Tree, st: State, asks: seq<string>, answer: Answer)
    requires asks != [] && StopsAt(t, st, [asks[0]], 0, asks[0], answer)
    ensures StopsAt(t, st, asks, 0, asks[0], answer)
  {
  }

  lemma OneMoreRead(t: Tree, st1: State, st': State, asks: seq<string>, got: seq<Schema>, schema: Schema,
      reading: Reading)
    requires asks != [] && asks[0] in st1.schemas && st1.schemas[asks[0]] == schema && Goes(st1, st')
    requires IsReadAfter(t, st', asks[1..], got + [schema], reading)
    ensures IsReadAfter(t, st', asks, got, reading)
  {
    hide StopsAt;
    assert asks[0] in st'.schemas && st'.schemas[asks[0]] == schema;
    if reading.Read? {
      AtOneMore(asks, st'.schemas, got);
    } else {
      var i :| StopsAt(t, st', asks[1..], i, reading.name, reading.answer);
      StopsLater(t, st', asks, i, reading.name, reading.answer);
    }
  }

  lemma AtOneMore(asks: seq<string>, m: Schemas, got: seq<Schema>)
    requires asks != [] && asks[0] in m && AllIn(asks[1..], m)
    ensures AllIn(asks, m) && got + At(asks, m) == got + [m[asks[0]]] + At(asks[1..], m)
  {
    assert forall d :: d in asks <==> d == asks[0] || d in asks[1..];
    assert At(asks, m) == [m[asks[0]]] + At(asks[1..], m);
  }

  lemma StopsLater(t: Tree, st: State, asks: seq<string>, i: int, name: string, answer: Answer)
    requires asks != [] && asks[0] in st.schemas && StopsAt(t, st, asks[1..], i, name, answer)
    ensures StopsAt(t, st, asks, i + 1, name, answer)
  {
    assert asks[..i + 1] == [asks[0]] + asks[1..][..i];
  }

  lemma {:induction false} DependencyIsTraced(t: Tree, base: State, st: State, name: string, readings: Readings)
    returns (readings': Readings)
    requires t.Valid() && Traced(t, base, st, readings)
    ensures var (answer, st') := Dependency(t, st, name);
      && Traced(t, base, st', readings') && Goes(st, st')
      && (answer.Ready? ==> name in st'.schemas && st'.schemas[name] == answer.schema)
      && (!answer.Ready? ==> StopsAt(t, st', [name], 0, name, answer))
      && (AllClosed(readings) ==>
            if answer.Ready? then AllClosed(readings') else StopsWith(readings', st.loading, name, answer))
    decreases Unstarted(t, st), 1
  {
    hide Traced, Goes, AllClosed, Unwinds;
    readings' := readings;
    GoesToItself(st);
    if IsFresh(t, st, name) {
      readings' := CheckIsTraced(t, base, st, ServiceNamed(t, name), readings);
    }
    var (answer, st') := Dependency(t, st, name);
    if name in st'.done {
      DoneIsKnown(t, base, st', readings', name);
    }
    if Unwinds(readings', st.loading, name) {
      UnwoundFails(t, base, st', readings', st.loading, name);
    }
  }

  // Runs

  lemma {:induction false} CheckAllIsTraced(t: Tree, base: State, st: State, services: seq<Service>,
      readings: Readings) returns (readings': Readings)
    requires t.Valid() && Traced(t, base, st, readings) && st.loading == {}
    requires forall s | s in services :: s in t.services && s.name !in base.schemas
    ensures Traced(t, base, CheckAll(t, st, services), readings')
    ensures AllClosed(readings) ==> AllClosed(readings')
    decreases |services|
  {
    hide Check, AllClosed;
    readings' := readings;
    if services != [] {
      var s := services[0];
      assert HoldsSchema(t, base, st, readings, s.name);
      readings' := CheckIsTraced(t, base, st, s, readings);
      readings' := CheckAllIsTraced(t, base, Check(t, st, s), services[1..], readings');
    }
  }

  lemma StartIsTraced(t: Tree, start: State)
    requires AreTidy(start.results) && start.done == {} && start.loading == {}
    requires start.rewrote == [] && start.checked == []
    ensures Traced(t, start, start, map[])
  {
    forall n ensures HoldsFailure(t, start, start, map[], n) {}
    forall n, e ensures HoldsFinding(t, start, start, map[], n, e) {}
    forall n, o ensures HoldsBlocker(t, start, start, map[], n, o) {}
  }

  lemma StartIsTidy(schemas: Schemas, results: Results, t: Tree, toCheck: seq<Service>)
    requires AreTidy(results)
    ensures AreTidy(Start(schemas, results, t, toCheck).results)
  {
  }

  /** Everything a run records is what its loads read and found, and what it kept: for some readings, one for
      each load and true of the state it ends in. */
  lemma RunIsTraced(schemas: Schemas, results: Results, t: Tree, toCheck: seq<Service>)
    requires t.Valid() && AreTidy(results) && forall s | s in toCheck :: s in t.services
    ensures exists readings ::
      Traced(t, Start(schemas, results, t, toCheck), Run(schemas, results, t, toCheck), readings) && AllClosed(readings)
  {
    hide Traced, CheckAll;
    var start := Start(schemas, results, t, toCheck);
    StartIsTidy(schemas, results, t, toCheck);
    StartIsTraced(t, start);
    assert forall s | s in toCheck :: s.name in NamesOf(toCheck);
    var readings := CheckAllIsTraced(t, start, start, toCheck, map[]);
    assert Traced(t, start, Run(schemas, results, t, toCheck), readings);
  }

  // What follows from it

  /** A finding of a load is kept by the service it belongs to, which blocks the load when it is another. */
  lemma FindingsReachOwners(t: Tree, base: State, st: State, readings: Readings, s: Service, d: Diagnostic, o: string)
    requires Traced(t, base, st, readings) && IsLoad(t, readings, s, s.name)
    requires Finds(t, s, readings[s.name], d) && Belongs(t.services, s.name, d.file, o)
    ensures d.(service := o) in FoundIn(st.results, o)
    ensures o != s.name ==> o in BlockersIn(st.results, s.name)
  {
    hide Finds, Belongs, IsReading, HoldsSchema, HoldsFailure, HoldsRewrite;
    assert FindsOf(t, s, readings[s.name], o, d.(service := o));
    assert HoldsFinding(t, base, st, readings, o, d.(service := o));
    assert HoldsBlocker(t, base, st, readings, s.name, o);
  }

  /** Every finding kept of a service has it as owner, and is in a file that no other service's directory holds
      first. */
  ghost predicate ArePlaced(services: seq<Service>, results: Results) {
    forall n, d | n in results && d in results[n].diagnostics :: IsPlaced(services, n, d)
  }

  ghost predicate IsPlaced(services: seq<Service>, n: string, d: Diagnostic) {
    d.service == n && forall i | IsNamedHolder(services, i, d.file) :: services[i].name == n
  }

  /** A finding kept of a service is placed: it was before the run, or a load of the run gave it to its owner. */
  lemma KeptIsPlaced(t: Tree, start: State, st: State, readings: Readings, n: string, e: Diagnostic)
    requires ArePlaced(t.services, start.results)
    requires HoldsFinding(t, start, st, readings, n, e) && e in FoundIn(st.results, n)
    ensures IsPlaced(t.services, n, e)
  {
    hide Finds;
    if e !in FoundIn(start.results, n) {
      var s, m :| IsLoad(t, readings, s, m) && FindsOf(t, s, readings[m], n, e);
      var d :| Finds(t, s, readings[m], d) && Belongs(t.services, s.name, d.file, n) && e == d.(service := n);
      forall i | IsNamedHolder(t.services, i, e.file) ensures t.services[i].name == n {
        var j :| IsNamedHolder(t.services, j, e.file) && t.services[j].name == n;
        OneFirstHolder(t.services, i, j, e.file);
      }
    }
  }

  lemma OneFirstHolder(services: seq<Service>, i: int, j: int, file: string)
    requires IsNamedHolder(services, i, file) && IsNamedHolder(services, j, file)
    ensures i == j
  {
  }

  lemma TracedFindings(t: Tree, base: State, st: State, readings: Readings)
    requires Traced(t, base, st, readings)
    ensures AreTidy(st.results) && forall n, e :: HoldsFinding(t, base, st, readings, n, e)
  {
    hide HoldsFinding, HoldsSchema, HoldsFailure, HoldsRewrite, HoldsBlocker, IsReading, AreTidy;
  }

  /** A run of loads keeps every finding where it belongs, once. */
  lemma RunKeepsPlaces(schemas: Schemas, results: Results, t: Tree, toCheck: seq<Service>)
    requires t.Valid() && AreTidy(results) && forall s | s in toCheck :: s in t.services
    ensures var st := Run(schemas, results, t, toCheck);
      AreTidy(st.results) && (ArePlaced(t.services, results) ==> ArePlaced(t.services, st.results))
  {
    hide Run, Traced, HoldsFinding, AreTidy, IsPlaced;
    RunIsTraced(schemas, results, t, toCheck);
    var start, st := Start(schemas, results, t, toCheck), Run(schemas, results, t, toCheck);
    var readings :| Traced(t, start, st, readings);
    TracedFindings(t, start, st, readings);
    if ArePlaced(t.services, results) {
      forall n, e | n in st.results && e in st.results[n].diagnostics ensures IsPlaced(t.services, n, e) {
        assert HoldsFinding(t, start, st, readings, n, e);
        KeptIsPlaced(t, start, st, readings, n, e);
      }
    }
  }

  /** Whether the load of a service, reading the schemas held, makes a schema and rewrites its sentinel. */
  predicate RewritesAt(loads: map<string, Load>, schemas: Schemas, n: string) {
    && n in loads && AllIn(loads[n].asks, schemas)
    && var verdict := loads[n].finish(At(loads[n].asks, schemas)).verdict;
       verdict.Loaded? && verdict.rewrote
  }

  /** A service is listed as rewritten when the run checked it, it has a schema, and its load rewrites its
      sentinel on the schemas held. */
  ghost predicate ListsRewrite(loads: map<string, Load>, schemas: Schemas, checked: seq<string>, rewrote: seq<string>,
      n: string) {
    n in rewrote <==> n in checked && n in schemas && RewritesAt(loads, schemas, n)
  }

  lemma RunListsRewrites(schemas: Schemas, results: Results, t: Tree, toCheck: seq<Service>)
    requires t.Valid() && AreTidy(results) && forall s | s in toCheck :: s in t.services
    ensures var st := Run(schemas, results, t, toCheck);
      Distinct(st.rewrote) && forall n :: ListsRewrite(t.loads, st.schemas, st.checked, st.rewrote, n)
  {
    hide Run, HoldsFinding, HoldsFailure, HoldsBlocker, AreTidy;
    RunIsTraced(schemas, results, t, toCheck);
    var start, st := Start(schemas, results, t, toCheck), Run(schemas, results, t, toCheck);
    var readings :| Traced(t, start, st, readings);
    forall n ensures ListsRewrite(t.loads, st.schemas, st.checked, st.rewrote, n) {
      assert HoldsRewrite(t, st, readings, n) && HoldsSchema(t, start, st, readings, n);
      if n in st.done {
        var s :| s in t.services && s.name == n;
        assert IsLoad(t, readings, s, n) && IsReading(t, st, t.loads[n].asks, readings[n]);
      }
    }
  }

  /** What a load adds to the findings of a service comes after those kept, in the order the load lists it. */
  lemma RecordKeepsOrder(t: Tree, st: State, s: Service, reading: Reading, n: string, i: int, j: int)
    requires t.Valid() && s in t.services && s.name in st.results && AreTidy(st.results)
    requires reading.Stopped? ==> !reading.answer.Ready?
    requires |FoundIn(st.results, n)| <= i < j < |FoundIn(Record(t, st, s, reading).results, n)|
    ensures var found := FoundIn(Record(t, st, s, reading).results, n);
      IsFoundFirst(t.services, s.name, FindingsOf(t, s, reading), n, found[i], found[j])
  {
    hide AreTidy, Attribute, Findings, BlockersOf, IsFoundFirst, Record;
    var r := st.results[s.name];
    var failed := RecordAttributes(t, st, s, reading);
    var results1 := st.results[s.name := failed];
    assert AreTidy(results1) by { TidyFailure(st.results, s.name, failed); }
    assert FoundIn(results1, n) == FoundIn(st.results, n);
    AttributionKeepsOrder(t.services, results1, s.name, FindingsOf(t, s, reading), n, i, j);
  }

  lemma TidyFailure(results: Results, name: string, failed: Result)
    requires AreTidy(results) && name in results && failed.diagnostics == results[name].diagnostics
    ensures AreTidy(results[name := failed])
  {
    hide IsTidy;
  }

  /** Recording a load is attributing what it lists, after its failure when it failed. */
  lemma RecordAttributes(t: Tree, st: State, s: Service, reading: Reading) returns (failed: Result)
    requires t.Valid() && s in t.services && s.name in st.results
    requires reading.Stopped? ==> !reading.answer.Ready?
    ensures failed.diagnostics == st.results[s.name].diagnostics
    ensures Record(t, st, s, reading).results
      == Attribute(t.services, st.results[s.name := failed], s.name, FindingsOf(t, s, reading))
  {
    hide Attribute, Findings, BlockersOf;
    var r := st.results[s.name];
    failed := r;
    match reading
    case Stopped(name, answer) =>
      var error := Wrapped("reading " + name, ErrorOf(reading));
      assert [] + Findings(error, s.dir) == Findings(error, s.dir);
      failed := r.(failed := true, blockedBy := r.blockedBy + BlockersOf(error));
    case Read(_) =>
      match EndOf(t, s, reading).verdict
      case Refused(error) => failed := r.(failed := true, blockedBy := r.blockedBy + BlockersOf(error));
      case Loaded(_, _, _) => assert st.results[s.name := r] == st.results;
  }

  /** A service is listed as checked when its load begins: after those before it, and before those it starts. */
  lemma CheckListsFirst(t: Tree, base: State, st: State, s: Service, readings: Readings)
    requires t.Valid() && s in t.services && Traced(t, base, st, readings)
    requires s.name !in st.done + st.loading && s.name !in st.schemas
    ensures st.checked + [s.name] <= Check(t, st, s).checked
  {
    hide Traced;
    var readings' := CheckIsTraced(t, base, st, s, readings);
  }
}
