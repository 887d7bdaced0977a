/** Which services of a tree load, and to what schema, whatever order they are loaded in:
    the least set of schemas closed under loading. */
module LeastLoads {
  import opened Basics
  import opened CheckTypes

  type Schemas = map<string, Schema>

  predicate AllIn(asks: seq<string>, m: Schemas) {
    forall d | d in asks :: d in m
  }

  function At(asks: seq<string>, m: Schemas): (r: seq<Schema>)
    requires AllIn(asks, m)
    ensures |r| == |asks| && forall i | 0 <= i < |asks| :: r[i] == m[asks[i]]
  {
    seq(|asks|, i requires 0 <= i < |asks| => m[asks[i]])
  }

  /** What a load ends with when every service it asks for has the schema m gives it. */
  function VerdictAt(load: Load, m: Schemas): Verdict
    requires AllIn(load.asks, m)
  {
    load.finish(At(load.asks, m)).verdict
  }

  predicate LoadsAt(load: Load, m: Schemas) {
    AllIn(load.asks, m) && VerdictAt(load, m).Loaded?
  }

  /** One round of loading: every service whose asks all have a schema in m, and which loads with them. */
  function Round(t: Tree, m: Schemas): Schemas {
    map n | n in t.loads && LoadsAt(t.loads[n], m) :: VerdictAt(t.loads[n], m).schema
  }

  function Stage(t: Tree, k: nat): Schemas {
    if k == 0 then map[] else Round(t, Stage(t, k - 1))
  }

  ghost predicate Below(m: Schemas, m': Schemas) {
    forall n | n in m :: n in m' && m'[n] == m[n]
  }

  /** Every service that loads with schemas of m has its schema in m. */
  ghost predicate Closed(t: Tree, m: Schemas) {
    Below(Round(t, m), m)
  }

  lemma ClosedHolds(t: Tree, m: Schemas, n: string)
    requires Closed(t, m) && n in t.loads && LoadsAt(t.loads[n], m)
    ensures n in m && m[n] == VerdictAt(t.loads[n], m).schema
  {
    assert n in Round(t, m);
  }

  /** The services that load with each other's schemas, and no more than any set closed under loading has. */
  ghost predicate IsLeast(t: Tree, m: Schemas) {
    Round(t, m) == m && forall m' | Closed(t, m') :: Below(m, m')
  }

  /** The schemas of the services of a tree that load. */
  ghost function Loads(t: Tree): Schemas {
    StagesEnd(t);
    var m :| IsLeast(t, m);
    m
  }

  lemma {:induction false} AtBelow(asks: seq<string>, m: Schemas, m': Schemas)
    requires AllIn(asks, m) && Below(m, m')
    ensures AllIn(asks, m') && At(asks, m) == At(asks, m')
  {
  }

  lemma RoundIsMonotone(t: Tree, m: Schemas, m': Schemas)
    requires Below(m, m')
    ensures Below(Round(t, m), Round(t, m'))
  {
    forall n | n in Round(t, m)
      ensures n in Round(t, m') && Round(t, m')[n] == Round(t, m)[n]
    {
      AtBelow(t.loads[n].asks, m, m');
    }
  }

  lemma {:induction false} StagesGrow(t: Tree, k: nat)
    ensures Below(Stage(t, k), Stage(t, k + 1))
  {
    if k != 0 {
      StagesGrow(t, k - 1);
      RoundIsMonotone(t, Stage(t, k - 1), Stage(t, k));
    }
  }

  /** A map that holds another is it, or is larger. */
  lemma BelowSize(a: Schemas, b: Schemas)
    requires Below(a, b)
    ensures a == b || |a| < |b|
  {
    assert a.Keys <= b.Keys;
    if a.Keys == b.Keys {
      assert a == b;
    } else {
      SubsetSize(a.Keys, b.Keys);
    }
  }

  /** Each stage either adds a service or is the last. */
  lemma {:induction false} StagesStop(t: Tree, k: nat)
    ensures Stage(t, k + 1) == Stage(t, k) || |Stage(t, k + 1)| > k
  {
    hide Round;
    StagesGrow(t, k);
    if k == 0 {
      BelowSize(Stage(t, 0), Stage(t, 1));
    } else {
      StagesStop(t, k - 1);
      StopsNext(t, Stage(t, k - 1), Stage(t, k), k - 1);
    }
  }

  lemma StopsNext(t: Tree, m: Schemas, m': Schemas, k: nat)
    requires m' == Round(t, m) && Below(m', Round(t, m'))
    requires m' == m || |m'| > k
    ensures Round(t, m') == m' || |Round(t, m')| > k + 1
  {
    var next := Round(t, m');
    if m' != m {
      BelowSize(m', next);
    }
  }

  lemma RoundSize(t: Tree, m: Schemas)
    ensures |Round(t, m)| <= |t.loads|
  {
    var last := Round(t, m);
    assert last.Keys <= t.loads.Keys;
    SubsetSize(last.Keys, t.loads.Keys);
  }

  lemma {:induction false} StageBelowClosed(t: Tree, k: nat, m: Schemas)
    requires Closed(t, m)
    ensures Below(Stage(t, k), m)
  {
    if k != 0 {
      StageBelowClosed(t, k - 1, m);
      RoundIsMonotone(t, Stage(t, k - 1), m);
    }
  }

  /** The stages of loading end at the least set. */
  lemma StagesEnd(t: Tree)
    ensures IsLeast(t, Stage(t, |t.loads|))
  {
    hide Stage, Closed;
    var n := |t.loads|;
    StagesStop(t, n);
    RoundSize(t, Stage(t, n));
    StageNext(t, n);
    forall m | Closed(t, m) ensures Below(Stage(t, n), m) {
      StageBelowClosed(t, n, m);
    }
  }

  lemma StageNext(t: Tree, k: nat)
    ensures Stage(t, k + 1) == Round(t, Stage(t, k))
  {
  }

  lemma LoadsAreTheLastStage(t: Tree)
    ensures Loads(t) == Stage(t, |t.loads|)
  {
    StagesEnd(t);
    var last := Stage(t, |t.loads|);
    assert IsLeast(t, Loads(t));
    assert Closed(t, last) && Closed(t, Loads(t));
    assert Below(last, Loads(t)) && Below(Loads(t), last);
    assert last.Keys == Loads(t).Keys;
  }

  lemma LoadsAreTheLeast(t: Tree)
    ensures IsLeast(t, Loads(t))
  {
    StagesEnd(t);
  }

  /** The loaded services are a fixed point: exactly those that load with each other's schemas. */
  lemma LoadsAreAFixedPoint(t: Tree)
    ensures Round(t, Loads(t)) == Loads(t)
  {
  }

  lemma LoadsAreServices(t: Tree)
    ensures Loads(t).Keys <= t.Names()
  {
  }

  /** Services each of which asks for another of them never load: every service on or above a cycle. */
  lemma CyclesNeverLoad(t: Tree, circular: set<string>)
    requires forall n | n in circular && n in t.loads :: exists d :: d in t.loads[n].asks && d in circular
    ensures forall n | n in circular :: n !in Loads(t)
  {
    LoadsAreTheLastStage(t);
    CyclesNeverReachAStage(t, circular, |t.loads|);
  }

  lemma {:induction false} CyclesNeverReachAStage(t: Tree, circular: set<string>, k: nat)
    requires forall n | n in circular && n in t.loads :: exists d :: d in t.loads[n].asks && d in circular
    ensures forall n | n in circular :: n !in Stage(t, k)
  {
    if k != 0 {
      CyclesNeverReachAStage(t, circular, k - 1);
      var before := Stage(t, k - 1);
      forall n | n in circular
        ensures n !in Round(t, before)
      {
        if n in t.loads {
          var d :| d in t.loads[n].asks && d in circular;
          assert d !in before;
        }
      }
    }
  }

  /** Two trees that agree on services, none of which asks for another, load those alike. */
  lemma AgreementOutside(t: Tree, t': Tree, edited: set<string>)
    requires forall n | n !in edited ::
      (n in t.loads <==> n in t'.loads) && (n in t.loads ==> t.loads[n] == t'.loads[n])
    requires forall n, d | n in t.loads && n !in edited && d in t.loads[n].asks :: d !in edited
    ensures forall n | n !in edited ::
      (n in Loads(t) <==> n in Loads(t')) && (n in Loads(t) ==> Loads(t)[n] == Loads(t')[n])
  {
    LoadsAreAFixedPoint(t);
    LoadsAreAFixedPoint(t');
    LoadsAreTheLastStage(t);
    LoadsAreTheLastStage(t');
    StageOutside(t, t', edited, |t.loads|);
    StageOutside(t', t, edited, |t'.loads|);
  }

  lemma {:induction false} StageOutside(t: Tree, t': Tree, edited: set<string>, k: nat)
    requires forall n | n !in edited ::
      (n in t.loads <==> n in t'.loads) && (n in t.loads ==> t.loads[n] == t'.loads[n])
    requires forall n, d | n in t.loads && n !in edited && d in t.loads[n].asks :: d !in edited
    requires Round(t', Loads(t')) == Loads(t')
    ensures forall n | n in Stage(t, k) && n !in edited :: n in Loads(t') && Loads(t')[n] == Stage(t, k)[n]
  {
    if k != 0 {
      StageOutside(t, t', edited, k - 1);
      RoundOutside(t, t', edited, Stage(t, k - 1), Loads(t'));
    }
  }

  lemma RoundOutside(t: Tree, t': Tree, edited: set<string>, m: Schemas, m': Schemas)
    requires forall n | n !in edited ::
      (n in t.loads <==> n in t'.loads) && (n in t.loads ==> t.loads[n] == t'.loads[n])
    requires forall n, d | n in t.loads && n !in edited && d in t.loads[n].asks :: d !in edited
    requires forall n | n in m && n !in edited :: n in m' && m'[n] == m[n]
    ensures forall n | n in Round(t, m) && n !in edited :: n in Round(t', m') && Round(t', m')[n] == Round(t, m)[n]
  {
    forall n | n in Round(t, m) && n !in edited
      ensures n in Round(t', m') && Round(t', m')[n] == Round(t, m)[n]
    {
      assert At(t.loads[n].asks, m) == At(t.loads[n].asks, m');
    }
  }
}
