/**
 * sir.c with the constants of sir.h: the sequential program. Positions are
 * whole numbers 0..99, the infection radius is DISTANCIA_INF = 2.0 and the
 * kernel is driven by the Susceptible agents: each Susceptible agent scans
 * the whole population for an Infected agent in range and stops at the first
 * successful BETA test (`break`); each Infected agent makes one GAMMA test.
 */
module Sir {
  import opened Population

  const N: nat := 1000
  const TimeMax: nat := 100
  const InfectionDistance: real := 2.0
  const InfectedPercent: nat := 5

  /** The squared form of `sqrt(dx^2 + dy^2) < DISTANCIA_INF`. */
  predicate InRange(a: Agent, b: Agent)
  {
    Dist2(a, b) < InfectionDistance * InfectionDistance
  }

  /** The test the C code makes on the root agrees with `InRange`. */
  lemma RangeTestAgrees(a: Agent, b: Agent, root: real)
    requires 0.0 <= root && root * root == Dist2(a, b)
    ensures root < InfectionDistance <==> InRange(a, b)
  {
    SqrtBelow(root, Dist2(a, b), InfectionDistance);
  }

  // ---------------------------------------------------------------------
  // Specification of `atualizar_estado`
  // ---------------------------------------------------------------------

  /**
   * The inner loop for Susceptible agent i from j on: every Infected agent
   * in range costs one BETA test; the first success infects i and ends the
   * scan. Agent i is the only agent it may change.
   */
  function Seek(s: Run, i: nat, j: nat, beta: Oracle): (t: Run)
    requires i < |s.pop| && j <= |s.pop|
    ensures |t.pop| == |s.pop| && t.nextGamma == s.nextGamma && s.nextBeta <= t.nextBeta
    ensures forall k :: 0 <= k < |s.pop| && k != i ==> t.pop[k] == s.pop[k]
    ensures t.pop[i] == s.pop[i] || t.pop[i] == s.pop[i].(status := Infected)
    decreases |s.pop| - j
  {
    if j == |s.pop| then s
    else if s.pop[j].status == Infected && InRange(s.pop[i], s.pop[j]) then
      if beta(s.nextBeta) then Run(s.pop[i := s.pop[i].(status := Infected)], s.nextBeta + 1, s.nextGamma)
      else Seek(s.(nextBeta := s.nextBeta + 1), i, j + 1, beta)
    else Seek(s, i, j + 1, beta)
  }

  /** One iteration of the outer loop, on agent i. */
  function Visit(s: Run, i: nat, beta: Oracle, gamma: Oracle): (t: Run)
    requires i < |s.pop|
    ensures |t.pop| == |s.pop|
    ensures forall k :: 0 <= k < |s.pop| && k != i ==> t.pop[k] == s.pop[k]
    ensures t.pop[i].x == s.pop[i].x && t.pop[i].y == s.pop[i].y
    ensures OneStage(s.pop[i].status, t.pop[i].status)
  {
    if s.pop[i].status == Susceptible then Seek(s, i, 0, beta)
    else if s.pop[i].status == Infected then
      if gamma(s.nextGamma) then Run(s.pop[i := s.pop[i].(status := Recovered)], s.nextBeta, s.nextGamma + 1)
      else s.(nextGamma := s.nextGamma + 1)
    else s
  }

  /** The first i iterations of the outer loop; agents i and later are still as they started. */
  function Sweep(s: Run, i: nat, beta: Oracle, gamma: Oracle): (t: Run)
    requires i <= |s.pop|
    ensures |t.pop| == |s.pop|
    ensures forall k :: i <= k < |s.pop| ==> t.pop[k] == s.pop[k]
  {
    if i == 0 then s else Visit(Sweep(s, i - 1, beta, gamma), i - 1, beta, gamma)
  }

  /** One call of `atualizar_estado`. */
  function Step(s: Run, beta: Oracle, gamma: Oracle): (t: Run)
    ensures |t.pop| == |s.pop|
  {
    Sweep(s, |s.pop|, beta, gamma)
  }

  /**
   * The status agent j had when the outer loop reached agent k: its final
   * status if j was visited before k, its initial status otherwise.
   */
  function SeenBy(p: seq<Agent>, q: seq<Agent>, k: nat, j: nat): int
    requires j < |p| && j < |q|
  {
    if j < k then q[j].status else p[j].status
  }

  // ---------------------------------------------------------------------
  // The kernel
  // ---------------------------------------------------------------------

  /**
   * `atualizar_estado(populacao)`: the population has N agents; the call
   * performs `Step` and reports where the two oracles now stand.
   */
  method UpdateState(p: array<Agent>, beta: Oracle, gamma: Oracle, b: nat, g: nat)
    returns (nextB: nat, nextG: nat)
    requires p.Length == N
    modifies p
    ensures Run(p[..], nextB, nextG) == Step(Run(old(p[..]), b, g), beta, gamma)
  {
    ghost var start := Run(p[..], b, g);
    nextB, nextG := b, g;
    for i := 0 to N
      invariant Run(p[..], nextB, nextG) == Sweep(start, i, beta, gamma)
    {
      if p[i].status == Susceptible {
        nextB := SeekInfected(p, i, beta, nextB, nextG);
      } else if p[i].status == Infected {
        var recovers := gamma(nextG);
        nextG := nextG + 1;
        if recovers {
          p[i] := p[i].(status := Recovered);
        }
      }
    }
    assert p[..] == p[..N];
  }

  /** The inner loop of `atualizar_estado` for Susceptible agent i, over all `p.Length` (= N) agents. */
  method SeekInfected(p: array<Agent>, i: nat, beta: Oracle, b: nat, ghost g: nat) returns (nextB: nat)
    requires i < p.Length
    modifies p
    ensures Run(p[..], nextB, g) == Seek(Run(old(p[..]), b, g), i, 0, beta)
  {
    ghost var before := Run(p[..], b, g);
    nextB := b;
    var j := 0;
    while j < p.Length
      invariant 0 <= j <= p.Length
      invariant p[..] == before.pop
      invariant Seek(Run(before.pop, nextB, g), i, j, beta) == Seek(before, i, 0, beta)
    {
      ghost var cur := Run(before.pop, nextB, g);
      if p[j].status == Infected {
        var dist := Dist2(p[i], p[j]);
        if dist < InfectionDistance * InfectionDistance {
          var hit := beta(nextB);
          if hit {
            ghost var infected := before.pop[i := before.pop[i].(status := Infected)];
            assert Seek(cur, i, j, beta) == Run(infected, nextB + 1, g);
            p[i] := p[i].(status := Infected);
            assert p[..] == infected;
            nextB := nextB + 1;
            return;
          }
          nextB := nextB + 1;
        }
      }
      assert Seek(cur, i, j, beta) == Seek(Run(before.pop, nextB, g), i, j + 1, beta);
      j := j + 1;
    }
  }

  // ---------------------------------------------------------------------
  // Properties of one call
  // ---------------------------------------------------------------------

  /** Once the outer loop has passed agent k, later iterations leave it alone. */
  lemma {:induction false} SweepSettled(s: Run, i: nat, k: nat, beta: Oracle, gamma: Oracle)
    requires k < i <= |s.pop|
    ensures Sweep(s, i, beta, gamma).pop[k] == Sweep(s, k + 1, beta, gamma).pop[k]
    decreases i
  {
    if i > k + 1 {
      SweepSettled(s, i - 1, k, beta, gamma);
    }
  }

  /** Agent k ends the call as its own iteration left it, starting from its initial state. */
  lemma StepAt(s: Run, k: nat, beta: Oracle, gamma: Oracle)
    requires k < |s.pop|
    ensures Sweep(s, k, beta, gamma).pop[k] == s.pop[k]
    ensures Step(s, beta, gamma).pop[k] == Visit(Sweep(s, k, beta, gamma), k, beta, gamma).pop[k]
  {
    SweepSettled(s, |s.pop|, k, beta, gamma);
  }

  /**
   * What the iteration on agent k sees of agent j: the status `SeenBy` names
   * and j's initial position.
   */
  lemma SweepView(s: Run, k: nat, j: nat, beta: Oracle, gamma: Oracle)
    requires k <= |s.pop| && j < |s.pop|
    ensures |Step(s, beta, gamma).pop| == |s.pop|
    ensures Sweep(s, k, beta, gamma).pop[j].status == SeenBy(s.pop, Step(s, beta, gamma).pop, k, j)
    ensures Sweep(s, k, beta, gamma).pop[j].x == s.pop[j].x
    ensures Sweep(s, k, beta, gamma).pop[j].y == s.pop[j].y
  {
    if j < k {
      SweepSettled(s, k, j, beta, gamma);
      StepAt(s, j, beta, gamma);
    }
  }

  /**
   * One call moves every agent at most one stage (S -> I or I -> R, never
   * S -> R), keeps Recovered agents and every position as they were.
   */
  lemma StepOneStage(s: Run, beta: Oracle, gamma: Oracle)
    ensures SamePlaces(s.pop, Step(s, beta, gamma).pop)
    ensures forall k :: 0 <= k < |s.pop| ==> OneStage(s.pop[k].status, Step(s, beta, gamma).pop[k].status)
    ensures Progressed(s.pop, Step(s, beta, gamma).pop)
  {
    var q := Step(s, beta, gamma).pop;
    forall k | 0 <= k < |s.pop|
      ensures q[k].x == s.pop[k].x && q[k].y == s.pop[k].y
      ensures OneStage(s.pop[k].status, q[k].status)
    {
      StepAt(s, k, beta, gamma);
    }
  }

  /** A Susceptible agent the scan infects has an Infected agent in range at or after j. */
  lemma {:induction false} SeekSource(s: Run, i: nat, j: nat, beta: Oracle)
    requires i < |s.pop| && j <= |s.pop| && s.pop[i].status == Susceptible
    requires Seek(s, i, j, beta).pop[i].status == Infected
    ensures exists m :: j <= m < |s.pop| && s.pop[m].status == Infected && InRange(s.pop[i], s.pop[m])
    decreases |s.pop| - j
  {
    if j == |s.pop| {
      assert false;
    } else if s.pop[j].status == Infected && InRange(s.pop[i], s.pop[j]) {
      if !beta(s.nextBeta) {
        SeekSource(s.(nextBeta := s.nextBeta + 1), i, j + 1, beta);
      }
    } else {
      SeekSource(s, i, j + 1, beta);
    }
  }

  /** When every BETA test succeeds, an Infected agent in range at or after j infects agent i. */
  lemma {:induction false} SeekCertain(s: Run, i: nat, j: nat, beta: Oracle, m: nat)
    requires i < |s.pop| && j <= m < |s.pop|
    requires forall b :: beta(b)
    requires s.pop[m].status == Infected && InRange(s.pop[i], s.pop[m])
    ensures Seek(s, i, j, beta).pop[i].status == Infected
    decreases |s.pop| - j
  {
    if !(s.pop[j].status == Infected && InRange(s.pop[i], s.pop[j])) {
      SeekCertain(s, i, j + 1, beta, m);
    }
  }

  /** With no Infected agent from j on, the scan changes nothing and makes no test. */
  lemma {:induction false} SeekIdle(s: Run, i: nat, j: nat, beta: Oracle)
    requires i < |s.pop| && j <= |s.pop|
    requires forall m :: j <= m < |s.pop| ==> s.pop[m].status != Infected
    ensures Seek(s, i, j, beta) == s
    decreases |s.pop| - j
  {
    if j < |s.pop| {
      SeekIdle(s, i, j + 1, beta);
    }
  }

  /** When every BETA test fails, the scan leaves the population as it was. */
  lemma {:induction false} SeekNoBeta(s: Run, i: nat, j: nat, beta: Oracle)
    requires i < |s.pop| && j <= |s.pop|
    requires forall b :: !beta(b)
    ensures Seek(s, i, j, beta).pop == s.pop
    decreases |s.pop| - j
  {
    if j < |s.pop| {
      if s.pop[j].status == Infected && InRange(s.pop[i], s.pop[j]) {
        SeekNoBeta(s.(nextBeta := s.nextBeta + 1), i, j + 1, beta);
      } else {
        SeekNoBeta(s, i, j + 1, beta);
      }
    }
  }

  /**
   * A Susceptible agent that ends the call Infected had, when its turn came,
   * an agent in range whose status was Infected at that moment: an agent
   * visited earlier counts with its new status, a later one with its old.
   */
  lemma StepInfectionSource(s: Run, beta: Oracle, gamma: Oracle, k: nat)
    requires k < |s.pop| && s.pop[k].status == Susceptible
    requires Step(s, beta, gamma).pop[k].status == Infected
    ensures exists j :: 0 <= j < |s.pop| && j != k
              && SeenBy(s.pop, Step(s, beta, gamma).pop, k, j) == Infected && InRange(s.pop[k], s.pop[j])
  {
    var t := Sweep(s, k, beta, gamma);
    StepAt(s, k, beta, gamma);
    SeekSource(t, k, 0, beta);
    var m :| 0 <= m < |t.pop| && t.pop[m].status == Infected && InRange(t.pop[k], t.pop[m]);
    SweepView(s, k, m, beta, gamma);
    var q := Step(s, beta, gamma).pop;
    assert m != k;
    assert SeenBy(s.pop, q, k, m) == Infected;
    SameDist(t.pop[k], t.pop[m], s.pop[k], s.pop[m]);
  }

  /**
   * When every BETA test succeeds the converse holds too: a Susceptible
   * agent ends the call Infected exactly when such an agent is in range.
   */
  lemma StepInfectionIff(s: Run, beta: Oracle, gamma: Oracle, k: nat)
    requires k < |s.pop| && s.pop[k].status == Susceptible
    requires forall b :: beta(b)
    ensures Step(s, beta, gamma).pop[k].status == Infected
            <==> exists j :: 0 <= j < |s.pop|
                   && SeenBy(s.pop, Step(s, beta, gamma).pop, k, j) == Infected && InRange(s.pop[k], s.pop[j])
  {
    if Step(s, beta, gamma).pop[k].status == Infected {
      StepInfectionSource(s, beta, gamma, k);
    }
    if exists j :: 0 <= j < |s.pop|
         && SeenBy(s.pop, Step(s, beta, gamma).pop, k, j) == Infected && InRange(s.pop[k], s.pop[j])
    {
      var j :| 0 <= j < |s.pop|
        && SeenBy(s.pop, Step(s, beta, gamma).pop, k, j) == Infected && InRange(s.pop[k], s.pop[j]);
      var t := Sweep(s, k, beta, gamma);
      StepAt(s, k, beta, gamma);
      SweepView(s, k, j, beta, gamma);
      SameDist(t.pop[k], t.pop[j], s.pop[k], s.pop[j]);
      SeekCertain(t, k, 0, beta, j);
    }
  }

  /** Distance depends on positions only. */
  lemma SameDist(a: Agent, b: Agent, c: Agent, d: Agent)
    requires a.x == c.x && a.y == c.y && b.x == d.x && b.y == d.y
    ensures Dist2(a, b) == Dist2(c, d)
  {
  }

  lemma {:induction false} SweepIdle(s: Run, i: nat, beta: Oracle, gamma: Oracle)
    requires i <= |s.pop|
    requires forall k :: 0 <= k < |s.pop| ==> s.pop[k].status != Infected
    ensures Sweep(s, i, beta, gamma) == s
  {
    if i > 0 {
      SweepIdle(s, i - 1, beta, gamma);
      if s.pop[i - 1].status == Susceptible {
        SeekIdle(s, i - 1, 0, beta);
      }
    }
  }

  /** If no agent is Infected at entry, the call changes nothing and draws nothing. */
  lemma StepIdle(s: Run, beta: Oracle, gamma: Oracle)
    requires forall k :: 0 <= k < |s.pop| ==> s.pop[k].status != Infected
    ensures Step(s, beta, gamma) == s
  {
    SweepIdle(s, |s.pop|, beta, gamma);
  }

  /** If every BETA test fails, no agent becomes Infected. */
  lemma StepNoBeta(s: Run, beta: Oracle, gamma: Oracle)
    requires forall b :: !beta(b)
    ensures OnlyRecoveries(s.pop, Step(s, beta, gamma).pop)
  {
    StepOneStage(s, beta, gamma);
    forall k | 0 <= k < |s.pop| && s.pop[k].status == Susceptible
      ensures Step(s, beta, gamma).pop[k].status == Susceptible
    {
      StepAt(s, k, beta, gamma);
      SeekNoBeta(Sweep(s, k, beta, gamma), k, 0, beta);
    }
  }

  /** If every GAMMA test fails, no agent becomes Recovered. */
  lemma StepNoGamma(s: Run, beta: Oracle, gamma: Oracle)
    requires forall g :: !gamma(g)
    ensures OnlyInfections(s.pop, Step(s, beta, gamma).pop)
  {
    StepOneStage(s, beta, gamma);
    forall k | 0 <= k < |s.pop| && s.pop[k].status == Infected
      ensures Step(s, beta, gamma).pop[k].status == Infected
    {
      StepAt(s, k, beta, gamma);
    }
  }

  /**
   * Because of the `break`, a scan makes at most one successful BETA test:
   * one exactly when it infects agent i.
   */
  lemma {:induction false} SeekHits(s: Run, i: nat, j: nat, beta: Oracle)
    requires i < |s.pop| && j <= |s.pop| && s.pop[i].status == Susceptible
    ensures Hits(beta, s.nextBeta, Seek(s, i, j, beta).nextBeta)
            == if Seek(s, i, j, beta).pop[i].status == Infected then 1 else 0
    decreases |s.pop| - j
  {
    if j < |s.pop| {
      if s.pop[j].status == Infected && InRange(s.pop[i], s.pop[j]) {
        HitsOne(beta, s.nextBeta);
        if !beta(s.nextBeta) {
          var r := Seek(s.(nextBeta := s.nextBeta + 1), i, j + 1, beta);
          SeekHits(s.(nextBeta := s.nextBeta + 1), i, j + 1, beta);
          HitsSplit(beta, s.nextBeta, s.nextBeta + 1, r.nextBeta);
        }
      } else {
        SeekHits(s, i, j + 1, beta);
      }
    }
  }

  lemma VisitHits(t: Run, i: nat, beta: Oracle, gamma: Oracle)
    requires i < |t.pop|
    ensures t.nextBeta <= Visit(t, i, beta, gamma).nextBeta
    ensures Hits(beta, t.nextBeta, Visit(t, i, beta, gamma).nextBeta)
            == Count(t.pop, Susceptible) - Count(Visit(t, i, beta, gamma).pop, Susceptible)
    ensures Visit(t, i, beta, gamma).nextGamma == t.nextGamma + if t.pop[i].status == Infected then 1 else 0
    ensures Hits(gamma, t.nextGamma, Visit(t, i, beta, gamma).nextGamma)
            == Count(Visit(t, i, beta, gamma).pop, Recovered) - Count(t.pop, Recovered)
  {
    var u := Visit(t, i, beta, gamma);
    assert u.pop == t.pop[i := u.pop[i]];
    CountUpdate(t.pop, i, u.pop[i], Susceptible);
    CountUpdate(t.pop, i, u.pop[i], Recovered);
    if t.pop[i].status == Susceptible {
      SeekHits(t, i, 0, beta);
    } else if t.pop[i].status == Infected {
      HitsOne(gamma, t.nextGamma);
    }
  }

  lemma {:induction false} SweepBetaHits(s: Run, i: nat, beta: Oracle, gamma: Oracle)
    requires i <= |s.pop|
    ensures s.nextBeta <= Sweep(s, i, beta, gamma).nextBeta
    ensures Hits(beta, s.nextBeta, Sweep(s, i, beta, gamma).nextBeta)
            == Count(s.pop, Susceptible) - Count(Sweep(s, i, beta, gamma).pop, Susceptible)
  {
    if i > 0 {
      var t := Sweep(s, i - 1, beta, gamma);
      var u := Visit(t, i - 1, beta, gamma);
      SweepBetaHits(s, i - 1, beta, gamma);
      VisitHits(t, i - 1, beta, gamma);
      HitsSplit(beta, s.nextBeta, t.nextBeta, u.nextBeta);
    }
  }

  lemma {:induction false} SweepGammaHits(s: Run, i: nat, beta: Oracle, gamma: Oracle)
    requires i <= |s.pop|
    ensures Sweep(s, i, beta, gamma).nextGamma == s.nextGamma + Count(s.pop[..i], Infected)
    ensures Hits(gamma, s.nextGamma, Sweep(s, i, beta, gamma).nextGamma)
            == Count(Sweep(s, i, beta, gamma).pop, Recovered) - Count(s.pop, Recovered)
  {
    if i > 0 {
      var t := Sweep(s, i - 1, beta, gamma);
      var u := Visit(t, i - 1, beta, gamma);
      SweepGammaHits(s, i - 1, beta, gamma);
      VisitHits(t, i - 1, beta, gamma);
      HitsSplit(gamma, s.nextGamma, t.nextGamma, u.nextGamma);
      assert t.pop[i - 1] == s.pop[i - 1];
      assert s.pop[..i][..i - 1] == s.pop[..i - 1];
      assert Count(s.pop[..i], Infected)
             == Count(s.pop[..i - 1], Infected) + if s.pop[i - 1].status == Infected then 1 else 0;
    }
  }

  /**
   * Test accounting for one call: the successful BETA tests are exactly the
   * newly Infected agents (at most one per agent), every agent Infected at
   * entry makes exactly one GAMMA test, and the successful ones are exactly
   * the newly Recovered agents.
   */
  lemma StepHits(s: Run, beta: Oracle, gamma: Oracle)
    ensures s.nextBeta <= Step(s, beta, gamma).nextBeta
    ensures Hits(beta, s.nextBeta, Step(s, beta, gamma).nextBeta)
            == Count(s.pop, Susceptible) - Count(Step(s, beta, gamma).pop, Susceptible)
    ensures Step(s, beta, gamma).nextGamma == s.nextGamma + Count(s.pop, Infected)
    ensures Hits(gamma, s.nextGamma, Step(s, beta, gamma).nextGamma)
            == Count(Step(s, beta, gamma).pop, Recovered) - Count(s.pop, Recovered)
  {
    SweepBetaHits(s, |s.pop|, beta, gamma);
    SweepGammaHits(s, |s.pop|, beta, gamma);
    assert s.pop[..|s.pop|] == s.pop;
  }

  /**
   * Writes made earlier in the call are visible to later iterations: an agent
   * out of reach of every initially Infected agent is infected through a
   * neighbour infected moments before.
   */
  lemma StepChainSpread(beta: Oracle, gamma: Oracle)
    requires forall b :: beta(b)
    requires forall g :: !gamma(g)
    ensures var s := Run([Agent(1.0, 0.0, Susceptible), Agent(2.0, 0.0, Susceptible), Agent(0.0, 0.0, Infected)], 0, 0);
            && !InRange(s.pop[1], s.pop[2])
            && Step(s, beta, gamma).pop[1].status == Infected
  {
    var s := Run([Agent(1.0, 0.0, Susceptible), Agent(2.0, 0.0, Susceptible), Agent(0.0, 0.0, Infected)], 0, 0);
    var t1 := Visit(s, 0, beta, gamma);
    assert t1.pop[0].status == Infected by {
      SeekCertain(s, 0, 0, beta, 2);
    }
    var t2 := Visit(t1, 1, beta, gamma);
    assert t2.pop[1].status == Infected by {
      SeekCertain(t1, 1, 0, beta, 0);
    }
    StepAt(s, 1, beta, gamma);
  }

  // ---------------------------------------------------------------------
  // Initialisation and output
  // ---------------------------------------------------------------------

  /** A whole number in 0..99, as `(double)(rand() % 100)` produces. */
  predicate GridCoordinate(v: real)
  {
    0.0 <= v <= 99.0 && v == v.Floor as real
  }

  /**
   * The agent `inicializar_populacao` creates from three successive `rand()`
   * values: whole-number coordinates and Infected for 5% of the third value
   * mod 100.
   */
  function GridAgent(rx: nat, ry: nat, rs: nat): (a: Agent)
    ensures GridCoordinate(a.x) && GridCoordinate(a.y)
    ensures a.x == (rx % 100) as real && a.y == (ry % 100) as real
    ensures a.status == Susceptible || a.status == Infected
    ensures a.status == Infected <==> rs % 100 < InfectedPercent
  {
    Agent((rx % 100) as real, (ry % 100) as real, if rs % 100 < 5 then Infected else Susceptible)
  }

  /** `inicializar_populacao(populacao)`: fills the N agents in index order. */
  method InitPopulation(p: array<Agent>, rand: RandStream, c: nat) returns (next: nat)
    requires p.Length == N
    modifies p
    ensures next == c + 3 * N
    ensures forall k :: 0 <= k < N ==>
              p[k] == GridAgent(rand(c + 3 * k), rand(c + 3 * k + 1), rand(c + 3 * k + 2))
  {
    next := c;
    for i := 0 to N
      invariant next == c + 3 * i
      invariant forall k :: 0 <= k < i ==>
                  p[k] == GridAgent(rand(c + 3 * k), rand(c + 3 * k + 1), rand(c + 3 * k + 2))
    {
      var x := (rand(next) % 100) as real;
      var y := (rand(next + 1) % 100) as real;
      var status := if rand(next + 2) % 100 < 5 then Infected else Susceptible;
      p[i] := Agent(x, y, status);
      next := next + 3;
    }
  }

  /**
   * The three numbers `salvar_dados` writes after the time: S and I are the
   * counts of their codes and R is every other agent, so the three add up
   * to N.
   */
  method SaveCounts(p: array<Agent>) returns (susceptible: nat, infected: nat, recovered: nat)
    requires p.Length == N
    ensures susceptible == Count(p[..], Susceptible) && infected == Count(p[..], Infected)
    ensures susceptible + infected + recovered == N
  {
    susceptible, infected, recovered := 0, 0, 0;
    for i := 0 to N
      invariant susceptible == Count(p[..i], Susceptible) && infected == Count(p[..i], Infected)
      invariant susceptible + infected + recovered == i
    {
      assert p[..i + 1][..i] == p[..i];
      if p[i].status == Susceptible {
        susceptible := susceptible + 1;
      } else if p[i].status == Infected {
        infected := infected + 1;
      } else {
        recovered := recovered + 1;
      }
    }
    assert p[..] == p[..N];
  }

  /**
   * The R that `salvar_dados` writes is the number of Recovered agents
   * exactly when every status code is one of the three.
   */
  lemma SaveCountsRecovered(p: seq<Agent>)
    ensures |p| - Count(p, Susceptible) - Count(p, Infected) >= Count(p, Recovered)
    ensures |p| - Count(p, Susceptible) - Count(p, Infected) == Count(p, Recovered)
            <==> forall k :: 0 <= k < |p| ==> IsStatus(p[k].status)
  {
    CountsCover(p);
  }

  /**
   * On whole-number positions the radius 2.0 reaches exactly the eight
   * neighbouring grid points: distance 2 itself is not below the radius.
   */
  lemma GridContact(a: Agent, b: Agent, aRow: int, aCol: int, bRow: int, bCol: int)
    requires a.x == aRow as real && a.y == aCol as real && b.x == bRow as real && b.y == bCol as real
    ensures InRange(a, b) <==> -1 <= aRow - bRow <= 1 && -1 <= aCol - bCol <= 1
  {
    var dx, dy := aRow - bRow, aCol - bCol;
    var sx, sy := dx * dx, dy * dy;
    assert Dist2(a, b) == (sx + sy) as real;
    if -1 <= dx <= 1 && -1 <= dy <= 1 {
      assert sx <= 1 && sy <= 1;
    } else if dx < -1 || 1 < dx {
      assert sx >= 4 by { SquareAtLeastFour(dx); }
    } else {
      assert sy >= 4 by { SquareAtLeastFour(dy); }
    }
  }

  lemma SquareAtLeastFour(d: int)
    requires d < -1 || 1 < d
    ensures d * d >= 4
  {
    var m := if d < 0 then -d else d;
    assert m >= 2;
    assert d * d == m * m;
    assert m * m >= 2 * m;
  }
}
