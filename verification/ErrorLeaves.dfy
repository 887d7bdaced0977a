/** What splitting a load's error gives, in terms of where things stand in the error. */
module ErrorLeaves {
  import opened Basics
  import opened CheckTypes

  /** Where something stands in an error: which of the joined or listed at each level, from the outside in. */
  type Position = seq<nat>

  /** What stands at a position in an error. */
  function NodeAt(e: LoadError, at: Position): Option<LoadError>
    decreases |at|
  {
    if at == [] then Some(e)
    else
      match e
      case Joined(errors) => if at[0] < |errors| then NodeAt(errors[at[0]], at[1..]) else None
      case Wrapped(_, inner) => if at[0] == 0 then NodeAt(inner, at[1..]) else None
      case _ => None
  }

  /** Somewhere in an error there is a located finding, a list of them, or a failed dependency. */
  ghost predicate HasLocation(e: LoadError) {
    exists at :: IsLocated(NodeAt(e, at))
  }

  predicate IsLocated(node: Option<LoadError>) {
    node.Some? && (node.value.Located? || node.value.LocatedList? || node.value.DependencyFailed?)
  }

  /** What an error comes down to. */
  datatype Leaf = LeafFinding(finding: Diagnostic) | LeafMessage(message: string) | LeafDependency(name: string)

  /** The leaf at a position: one for each located finding, each listed one, each failed dependency and each
      message. Context around something without a location is a message, and hides what it is around. */
  ghost function LeafAt(e: LoadError, at: Position): Option<Leaf>
    decreases e
  {
    match e
    case Located(d) => if at == [] then Some(LeafFinding(d)) else None
    case LocatedList(ds) => if |at| == 1 && at[0] < |ds| then Some(LeafFinding(ds[at[0]])) else None
    case DependencyFailed(name) => if at == [] then Some(LeafDependency(name)) else None
    case Plain(message) => if at == [] then Some(LeafMessage(message)) else None
    case Joined(errors) => if at != [] && at[0] < |errors| then LeafAt(errors[at[0]], at[1..]) else None
    case Wrapped(message, inner) =>
      if HasLocation(inner) then LeafAt(inner, at)
      else if at == [] then Some(LeafMessage(message)) else None
  }

  /** Of two positions the one further left. */
  ghost predicate Before(p: Position, q: Position) {
    exists i :: 0 <= i < |p| && i < |q| && p[..i] == q[..i] && p[i] < q[i]
  }

  ghost predicate InOrder(positions: seq<Position>) {
    forall i, j | 0 <= i < j < |positions| :: Before(positions[i], positions[j])
  }

  /** The finding a leaf is reported as: an error, in a file made absolute from the service's directory. */
  function Reported(leaf: Leaf, dir: string): Diagnostic
    requires !leaf.LeafDependency?
  {
    match leaf
    case LeafFinding(d) => d.(file := Absolute(dir, d.file), severity := Error)
    case LeafMessage(message) => Diagnostic("", "", 0, 0, Error, message)
  }

  function Absolute(dir: string, file: string): string {
    if file == "" || file[0] == '/' then file else dir + "/" + file
  }

  ghost predicate IsFindingAt(e: LoadError, at: Position) {
    LeafAt(e, at).Some? && !LeafAt(e, at).value.LeafDependency?
  }

  /** Findings are those of an error's leaves, one each, from left to right; `positions` are where. */
  ghost predicate AreLeaves(findings: seq<Diagnostic>, e: LoadError, dir: string, positions: seq<Position>) {
    && |positions| == |findings| && InOrder(positions)
    && (forall at :: at in positions <==> IsFindingAt(e, at))
    && forall i | 0 <= i < |positions| ::
         && IsFindingAt(e, positions[i])
         && findings[i] == Reported(LeafAt(e, positions[i]).value, dir)
  }

  /** An error carries a location when there is one in it. */
  lemma {:induction false} LocationIsThere(e: LoadError)
    ensures CarriesLocation(e) <==> HasLocation(e)
  {
    match e
    case Joined(errors) =>
      forall x | x in errors ensures CarriesLocation(x) <==> HasLocation(x) { LocationIsThere(x); }
      if CarriesLocation(e) {
        var i :| 0 <= i < |errors| && CarriesLocation(errors[i]);
        var at :| IsLocated(NodeAt(errors[i], at));
        assert ([i] + at)[1..] == at;
        assert IsLocated(NodeAt(e, [i] + at));
      }
      if HasLocation(e) {
        var at :| IsLocated(NodeAt(e, at));
        assert errors[at[0]] in errors && IsLocated(NodeAt(errors[at[0]], at[1..]));
      }
    case Wrapped(_, inner) =>
      LocationIsThere(inner);
      if HasLocation(inner) {
        var at :| IsLocated(NodeAt(inner, at));
        assert ([0] + at)[1..] == at;
        assert IsLocated(NodeAt(e, [0] + at));
      }
      if HasLocation(e) {
        var at :| IsLocated(NodeAt(e, at));
        assert IsLocated(NodeAt(inner, at[1..]));
      }
    case Plain(_) =>
      forall at ensures !IsLocated(NodeAt(e, at)) {}
    case _ =>
      assert IsLocated(NodeAt(e, []));
  }

  // Findings

  /** Positions of the `i`th of several. */
  function Within(i: nat, positions: seq<Position>): (r: seq<Position>)
    ensures |r| == |positions| && forall k | 0 <= k < |r| :: r[k] == [i] + positions[k]
  {
    if positions == [] then [] else [[i] + positions[0]] + Within(i, positions[1..])
  }

  /** The positions of an error's leaves but for dependencies, from left to right. */
  ghost function PositionsOf(e: LoadError): seq<Position>
    decreases e, 0
  {
    match e
    case Located(_) => [[]]
    case LocatedList(ds) => seq(|ds|, i => [i])
    case DependencyFailed(_) => []
    case Plain(_) => [[]]
    case Joined(errors) => PositionsFrom(errors, 0)
    case Wrapped(_, inner) => if HasLocation(inner) then PositionsOf(inner) else [[]]
  }

  ghost function PositionsFrom(errors: seq<LoadError>, i: nat): seq<Position>
    requires i <= |errors|
    decreases errors, |errors| - i
  {
    if i == |errors| then [] else Within(i, PositionsOf(errors[i])) + PositionsFrom(errors, i + 1)
  }

  /** Whether a position of a list of joined errors, from the `i`th on, is of a leaf that is a finding. */
  ghost predicate IsFindingFrom(errors: seq<LoadError>, i: nat, at: Position) {
    at != [] && i <= at[0] < |errors| && IsFindingAt(errors[at[0]], at[1..])
  }

  lemma BeforeWithin(i: nat, p: Position, q: Position)
    requires Before(p, q)
    ensures Before([i] + p, [i] + q)
  {
    var k :| 0 <= k < |p| && k < |q| && p[..k] == q[..k] && p[k] < q[k];
    assert ([i] + p)[..k + 1] == [i] + p[..k] && ([i] + q)[..k + 1] == [i] + q[..k];
    assert ([i] + p)[k + 1] == p[k] && ([i] + q)[k + 1] == q[k];
  }

  lemma BeforeAcross(p: Position, q: Position)
    requires p != [] && q != [] && p[0] < q[0]
    ensures Before(p, q)
  {
    assert p[..0] == q[..0];
  }

  /** Anchoring keeps findings apart and in order: each with an absolute file and the severity given. */
  lemma {:induction false} AnchoredEach(dir: string, ds: seq<Diagnostic>, severity: Severity)
    ensures var r := AnchoredAll(dir, ds, severity);
      forall i | 0 <= i < |ds| :: r[i] == ds[i].(file := Absolute(dir, ds[i].file), severity := severity)
  {
    if ds != [] {
      AnchoredEach(dir, ds[1..], severity);
    }
  }

  /** The findings of an error are those of its leaves, one each, from left to right. */
  lemma {:induction false} FindingsAreLeaves(e: LoadError, dir: string)
    ensures AreLeaves(Findings(e, dir), e, dir, PositionsOf(e))
    decreases e, 0
  {
    LocationIsThere(e);
    match e
    case Joined(errors) =>
      FindingsAreLeavesFrom(errors, 0, dir);
      assert errors[0..] == errors;
      var ps := PositionsFrom(errors, 0);
      forall k | 0 <= k < |ps| ensures LeafAt(e, ps[k]) == LeafAt(errors[ps[k][0]], ps[k][1..]) {
        assert ps[k] in ps;
      }
    case Wrapped(_, inner) =>
      LocationIsThere(inner);
      FindingsAreLeaves(inner, dir);
    case LocatedList(ds) => ListIsLeaves(ds, dir);
    case Located(d) => AnchoredEach(dir, [d], Error);
    case _ =>
  }

  lemma ListIsLeaves(ds: seq<Diagnostic>, dir: string)
    ensures AreLeaves(Findings(LocatedList(ds), dir), LocatedList(ds), dir, PositionsOf(LocatedList(ds)))
  {
    var e, ps := LocatedList(ds), PositionsOf(LocatedList(ds));
    AnchoredEach(dir, ds, Error);
    forall i, j | 0 <= i < j < |ps| ensures Before(ps[i], ps[j]) {
      BeforeAcross(ps[i], ps[j]);
    }
    forall at ensures at in ps <==> IsFindingAt(e, at) {
      if IsFindingAt(e, at) {
        assert at == [at[0]] && ps[at[0]] == at;
      }
    }
  }

  /** What holds of the findings of the errors from the `i`th on. */
  ghost predicate AreLeavesFrom(findings: seq<Diagnostic>, errors: seq<LoadError>, i: nat, dir: string,
      positions: seq<Position>) {
    && |positions| == |findings| && InOrder(positions)
    && (forall at :: at in positions <==> IsFindingFrom(errors, i, at))
    && forall k | 0 <= k < |positions| ::
         && IsFindingFrom(errors, i, positions[k])
         && findings[k] == Reported(LeafAt(errors[positions[k][0]], positions[k][1..]).value, dir)
  }

  lemma {:induction false} FindingsAreLeavesFrom(errors: seq<LoadError>, i: nat, dir: string)
    requires i <= |errors|
    ensures AreLeavesFrom(FindingsOfAll(errors[i..], dir), errors, i, dir, PositionsFrom(errors, i))
    decreases errors, |errors| - i
  {
    if i < |errors| {
      FindingsAreLeaves(errors[i], dir);
      FindingsAreLeavesFrom(errors, i + 1, dir);
      assert errors[i..][0] == errors[i] && errors[i..][1..] == errors[i + 1..];
      OneMoreError(errors, i, dir, Findings(errors[i], dir), FindingsOfAll(errors[i + 1..], dir));
    }
  }

  lemma OneMoreError(errors: seq<LoadError>, i: nat, dir: string, head: seq<Diagnostic>, tail: seq<Diagnostic>)
    requires i < |errors| && AreLeaves(head, errors[i], dir, PositionsOf(errors[i]))
    requires AreLeavesFrom(tail, errors, i + 1, dir, PositionsFrom(errors, i + 1))
    ensures AreLeavesFrom(head + tail, errors, i, dir, Within(i, PositionsOf(errors[i])) + PositionsFrom(errors, i + 1))
  {
    hide LeafAt, Reported, InOrder, Within, PositionsOf, PositionsFrom;
    var inner, r := PositionsOf(errors[i]), PositionsFrom(errors, i + 1);
    var l := Within(i, inner);
    OrderGoesOn(errors, i, inner, r);
    forall at ensures at in l + r <==> IsFindingFrom(errors, i, at) {
      PositionsGoOn(errors, i, inner, r, at);
    }
    forall k | 0 <= k < |l + r|
      ensures IsFindingFrom(errors, i, (l + r)[k])
      ensures (head + tail)[k] == Reported(LeafAt(errors[(l + r)[k][0]], (l + r)[k][1..]).value, dir)
    {
      assert (l + r)[k] in l + r;
      if k < |l| {
        assert (l + r)[k] == [i] + inner[k] && ([i] + inner[k])[1..] == inner[k];
      }
    }
  }

  lemma OrderGoesOn(errors: seq<LoadError>, i: nat, inner: seq<Position>, r: seq<Position>)
    requires InOrder(inner) && InOrder(r) && forall at | at in r :: IsFindingFrom(errors, i + 1, at)
    ensures InOrder(Within(i, inner) + r)
  {
    hide Before, LeafAt;
    var l := Within(i, inner);
    forall j, k | 0 <= j < k < |l + r| ensures Before((l + r)[j], (l + r)[k]) {
      if k < |l| {
        BeforeWithin(i, inner[j], inner[k]);
      } else if j < |l| {
        assert r[k - |l|] in r;
        BeforeAcross((l + r)[j], (l + r)[k]);
      }
    }
  }

  lemma PositionsGoOn(errors: seq<LoadError>, i: nat, inner: seq<Position>, r: seq<Position>, at: Position)
    requires i < |errors| && (at in r <==> IsFindingFrom(errors, i + 1, at))
    requires forall p :: p in inner <==> IsFindingAt(errors[i], p)
    ensures at in Within(i, inner) + r <==> IsFindingFrom(errors, i, at)
  {
    hide LeafAt, IsFindingAt;
    var l := Within(i, inner);
    if IsFindingFrom(errors, i, at) && at[0] == i {
      var k :| 0 <= k < |inner| && inner[k] == at[1..];
      assert l[k] == at;
    }
    if at in l {
      var k :| 0 <= k < |l| && l[k] == at;
      assert at == [i] + inner[k] && at[1..] == inner[k];
    }
  }

  // Blockers

  ghost predicate IsDependencyAt(e: LoadError, at: Position, name: string) {
    LeafAt(e, at) == Some(LeafDependency(name))
  }

  /** The services whose failure an error reports are those of its failed dependencies. */
  lemma {:induction false} BlockersAreLeaves(e: LoadError, name: string)
    ensures name in BlockersOf(e) <==> exists at :: IsDependencyAt(e, at, name)
  {
    match e
    case DependencyFailed(n) => assert n == name ==> IsDependencyAt(e, [], name);
    case Joined(errors) =>
      forall x | x in errors ensures name in BlockersOf(x) <==> exists at :: IsDependencyAt(x, at, name) {
        BlockersAreLeaves(x, name);
      }
      JoinedBlocks(errors, name);
    case Wrapped(message, inner) =>
      LocationIsThere(inner);
      BlockersAreLeaves(inner, name);
      WrappedBlocks(message, inner, name);
    case _ =>
  }

  lemma JoinedBlocks(errors: seq<LoadError>, name: string)
    requires forall x | x in errors :: name in BlockersOf(x) <==> exists at :: IsDependencyAt(x, at, name)
    ensures name in BlockersOf(Joined(errors)) <==> exists at :: IsDependencyAt(Joined(errors), at, name)
  {
    var e := Joined(errors);
    if name in BlockersOf(e) {
      var i :| 0 <= i < |errors| && name in BlockersOf(errors[i]);
      var at :| IsDependencyAt(errors[i], at, name);
      assert ([i] + at)[1..] == at;
      assert IsDependencyAt(e, [i] + at, name);
    }
    if at :| IsDependencyAt(e, at, name) {
      assert errors[at[0]] in errors && IsDependencyAt(errors[at[0]], at[1..], name);
    }
  }

  lemma WrappedBlocks(message: string, inner: LoadError, name: string)
    requires name in BlockersOf(inner) <==> exists at :: IsDependencyAt(inner, at, name)
    requires CarriesLocation(inner) <==> HasLocation(inner)
    ensures name in BlockersOf(Wrapped(message, inner))
      <==> exists at :: IsDependencyAt(Wrapped(message, inner), at, name)
  {
    hide HasLocation;
    var e := Wrapped(message, inner);
    forall at ensures IsDependencyAt(e, at, name) <==> HasLocation(inner) && IsDependencyAt(inner, at, name) {}
    if HasLocation(inner) && name in BlockersOf(inner) {
      var at :| IsDependencyAt(inner, at, name);
      assert IsDependencyAt(e, at, name);
    }
  }
}
