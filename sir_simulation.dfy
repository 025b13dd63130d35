/**
 * sir_simulation.c: the MPI + OpenMP simulation. Each rank updates its own
 * shard in place with the infected-driven kernel `atualizar_estado`; rank 0
 * seeds the population, gathers the shards after every step and tallies them
 * with `exibir_estatisticas`.
 *
 * The kernel is modelled in its sequential order (one legal schedule of the
 * OpenMP loop). `Step` is the specification: `UpdateState` is proved to leave
 * the array equal to `Step` of its initial contents, and the lemmas below
 * state what `Step` guarantees.
 */
module SirSimulation {
  import opened Population
  import opened Partition

  const N: nat := 10000
  const Steps: nat := 100
  const DistMax: real := 0.02
  const InfectedPercent: nat := 10

  /** The contact test: squared distance below `DIST_MAX * DIST_MAX`. */
  predicate InContact(a: Agent, b: Agent)
  {
    Dist2(a, b) < DistMax * DistMax
  }

  // ---------------------------------------------------------------------
  // Specification of one call of the kernel
  // ---------------------------------------------------------------------

  /**
   * Inner iteration j for the infected source i: a Susceptible agent in
   * contact consumes one BETA outcome (the `&&` short-circuits, so only then)
   * and becomes Infected when it succeeds.
   */
  function Probe(s: Run, i: nat, j: nat, beta: Oracle): (t: Run)
    requires i < |s.pop| && j < |s.pop|
    ensures |t.pop| == |s.pop| && t.nextGamma == s.nextGamma
    ensures t.nextBeta == s.nextBeta + if s.pop[j].status == Susceptible && InContact(s.pop[i], s.pop[j]) then 1 else 0
    ensures forall k :: 0 <= k < |s.pop| && k != j ==> t.pop[k] == s.pop[k]
  {
    if s.pop[j].status == Susceptible && InContact(s.pop[i], s.pop[j]) then
      if beta(s.nextBeta) then
        s.(pop := s.pop[j := s.pop[j].(status := Infected)], nextBeta := s.nextBeta + 1)
      else
        s.(nextBeta := s.nextBeta + 1)
    else
      s
  }

  /** The state after the first j inner iterations for source i. */
  function Scan(s: Run, i: nat, j: nat, beta: Oracle): (t: Run)
    requires i < |s.pop| && j <= |s.pop|
    ensures |t.pop| == |s.pop| && t.nextGamma == s.nextGamma && s.nextBeta <= t.nextBeta
    decreases j
  {
    if j == 0 then s else Probe(Scan(s, i, j - 1, beta), i, j - 1, beta)
  }

  /**
   * Outer iteration i: nothing unless agent i is Infected now; otherwise the
   * whole inner scan, then one GAMMA outcome that may make i Recovered.
   */
  function Visit(s: Run, i: nat, beta: Oracle, gamma: Oracle): (t: Run)
    requires i < |s.pop|
    ensures |t.pop| == |s.pop| && s.nextBeta <= t.nextBeta && s.nextGamma <= t.nextGamma
  {
    if s.pop[i].status != Infected then s
    else
      var t := Scan(s, i, |s.pop|, beta);
      if gamma(t.nextGamma) then
        t.(pop := t.pop[i := t.pop[i].(status := Recovered)], nextGamma := t.nextGamma + 1)
      else
        t.(nextGamma := t.nextGamma + 1)
  }

  /** The state after the first i outer iterations. */
  function Sweep(s: Run, i: nat, beta: Oracle, gamma: Oracle): (t: Run)
    requires i <= |s.pop|
    ensures |t.pop| == |s.pop| && s.nextBeta <= t.nextBeta && s.nextGamma <= t.nextGamma
    decreases i
  {
    if i == 0 then s else Visit(Sweep(s, i - 1, beta, gamma), i - 1, beta, gamma)
  }

  /** One whole call of `atualizar_estado`. */
  function Step(s: Run, beta: Oracle, gamma: Oracle): (t: Run)
    ensures |t.pop| == |s.pop| && s.nextBeta <= t.nextBeta && s.nextGamma <= t.nextGamma
  {
    Sweep(s, |s.pop|, beta, gamma)
  }

  /** `t` repeated calls, as one rank performs them in `main`'s loop. */
  function Evolve(s: Run, t: nat, beta: Oracle, gamma: Oracle): (r: Run)
    ensures |r.pop| == |s.pop| && s.nextBeta <= r.nextBeta && s.nextGamma <= r.nextGamma
  {
    if t == 0 then s else Step(Evolve(s, t - 1, beta, gamma), beta, gamma)
  }

  // ---------------------------------------------------------------------
  // The kernel, in place
  // ---------------------------------------------------------------------

  /**
   * `atualizar_estado(p, n)` with `n == p.Length`. BETA and GAMMA outcomes
   * are read from `beta` and `gamma` starting at positions `b` and `g`; the
   * positions of the next unread outcomes are returned.
   */
  method UpdateState(p: array<Agent>, beta: Oracle, gamma: Oracle, b: nat, g: nat)
    returns (nextB: nat, nextG: nat)
    modifies p
    ensures Run(p[..], nextB, nextG) == Step(Run(old(p[..]), b, g), beta, gamma)
  {
    ghost var start := Run(p[..], b, g);
    var n := p.Length;
    nextB, nextG := b, g;
    for i := 0 to n
      invariant Run(p[..], nextB, nextG) == Sweep(start, i, beta, gamma)
    {
      if p[i].status == Infected {
        nextB := SpreadFrom(p, i, beta, nextB, nextG);
        var recovers := gamma(nextG);
        nextG := nextG + 1;
        if recovers {
          p[i] := p[i].(status := Recovered);
        }
      }
    }
  }

  /** The inner loop of `atualizar_estado` for the infected source i. */
  method SpreadFrom(p: array<Agent>, i: nat, beta: Oracle, b: nat, ghost g: nat) returns (nextB: nat)
    requires i < p.Length
    modifies p
    ensures Run(p[..], nextB, g) == Scan(Run(old(p[..]), b, g), i, p.Length, beta)
  {
    ghost var before := Run(p[..], b, g);
    nextB := b;
    for j := 0 to p.Length
      invariant Run(p[..], nextB, g) == Scan(before, i, j, beta)
    {
      ghost var cur := Run(p[..], nextB, g);
      if p[j].status == Susceptible {
        var dist := Dist2(p[i], p[j]);
        if dist < DistMax * DistMax {
          var hit := beta(nextB);
          nextB := nextB + 1;
          if hit {
            p[j] := p[j].(status := Infected);
            assert p[..] == cur.pop[j := cur.pop[j].(status := Infected)];
          }
        }
      }
      assert Run(p[..], nextB, g) == Probe(cur, i, j, beta);
    }
  }

  /**
   * `inicializar_populacao(p, n)`: positions `rand() / RAND_MAX` in the unit
   * square and status Infected for 10% of the `rand() % 100` values.
   */
  method InitPopulation(p: array<Agent>, rand: RandStream, c: nat) returns (next: nat)
    requires forall k :: rand(k) <= RandMax
    modifies p
    ensures next == c + 3 * p.Length
    ensures forall k :: 0 <= k < p.Length ==>
              p[k] == Seeded(rand(c + 3 * k), rand(c + 3 * k + 1), rand(c + 3 * k + 2), InfectedPercent)
    ensures forall k :: 0 <= k < p.Length ==>
              && 0.0 <= p[k].x <= 1.0 && 0.0 <= p[k].y <= 1.0
              && (p[k].status == Susceptible || p[k].status == Infected)
              && (p[k].status == Infected <==> rand(c + 3 * k + 2) % 100 < InfectedPercent)
  {
    next := Seed(p, rand, c, InfectedPercent);
  }

  /**
   * `exibir_estatisticas(p, n)` with `n == p.Length`: the `switch` counts
   * codes 0, 1 and 2 and ignores any other code.
   */
  method Statistics(p: array<Agent>) returns (susceptible: nat, infected: nat, recovered: nat)
    ensures susceptible == Count(p[..], Susceptible)
    ensures infected == Count(p[..], Infected)
    ensures recovered == Count(p[..], Recovered)
  {
    susceptible, infected, recovered := 0, 0, 0;
    for i := 0 to p.Length
      invariant susceptible == Count(p[..i], Susceptible)
      invariant infected == Count(p[..i], Infected)
      invariant recovered == Count(p[..i], Recovered)
    {
      assert p[..i + 1][..i] == p[..i];
      if p[i].status == Susceptible {
        susceptible := susceptible + 1;
      } else if p[i].status == Infected {
        infected := infected + 1;
      } else if p[i].status == Recovered {
        recovered := recovered + 1;
      }
    }
    assert p[..] == p[..p.Length];
  }

  // ---------------------------------------------------------------------
  // Frame and direction of every change
  // ---------------------------------------------------------------------

  lemma {:induction false} ScanProgress(s: Run, i: nat, j: nat, beta: Oracle)
    requires i < |s.pop| && j <= |s.pop|
    ensures OnlyInfections(s.pop, Scan(s, i, j, beta).pop)
    ensures Progressed(s.pop, Scan(s, i, j, beta).pop)
  {
    if j > 0 {
      var t := Scan(s, i, j - 1, beta);
      ScanProgress(s, i, j - 1, beta);
      assert OnlyInfections(t.pop, Probe(t, i, j - 1, beta).pop);
      OnlyInfectionsTrans(s.pop, t.pop, Probe(t, i, j - 1, beta).pop);
    }
  }

  lemma VisitProgress(s: Run, i: nat, beta: Oracle, gamma: Oracle)
    requires i < |s.pop|
    ensures Progressed(s.pop, Visit(s, i, beta, gamma).pop)
    ensures forall k :: 0 <= k < |s.pop| && k != i ==>
              Visit(s, i, beta, gamma).pop[k].status == s.pop[k].status
              || (s.pop[k].status == Susceptible && Visit(s, i, beta, gamma).pop[k].status == Infected)
  {
    if s.pop[i].status == Infected {
      var t := Scan(s, i, |s.pop|, beta);
      ScanProgress(s, i, |s.pop|, beta);
      ProgressedTrans(s.pop, t.pop, Visit(s, i, beta, gamma).pop);
    }
  }

  lemma {:induction false} SweepProgress(s: Run, i: nat, beta: Oracle, gamma: Oracle)
    requires i <= |s.pop|
    ensures Progressed(s.pop, Sweep(s, i, beta, gamma).pop)
  {
    if i > 0 {
      var t := Sweep(s, i - 1, beta, gamma);
      SweepProgress(s, i - 1, beta, gamma);
      VisitProgress(t, i - 1, beta, gamma);
      ProgressedTrans(s.pop, t.pop, Visit(t, i - 1, beta, gamma).pop);
    }
  }

  /**
   * A call writes statuses only: length and every position are kept, and each
   * status moves forward along S -> I -> R (Recovered stays Recovered, nobody
   * returns to Susceptible, codes outside 0..2 are never touched). Hence the
   * Susceptible count never grows, the Recovered count never shrinks, and the
   * number of agents with a valid status is conserved.
   */
  lemma StepProgress(s: Run, beta: Oracle, gamma: Oracle)
    ensures Progressed(s.pop, Step(s, beta, gamma).pop)
    ensures Count(Step(s, beta, gamma).pop, Susceptible) <= Count(s.pop, Susceptible)
    ensures Count(Step(s, beta, gamma).pop, Recovered) >= Count(s.pop, Recovered)
    ensures var q := Step(s, beta, gamma).pop;
            Count(q, Susceptible) + Count(q, Infected) + Count(q, Recovered)
            == Count(s.pop, Susceptible) + Count(s.pop, Infected) + Count(s.pop, Recovered)
  {
    SweepProgress(s, |s.pop|, beta, gamma);
    ProgressedCounts(s.pop, Step(s, beta, gamma).pop);
  }

  /** The same holds across any number of calls on one rank's shard. */
  lemma {:induction false} EvolveProgress(s: Run, t: nat, beta: Oracle, gamma: Oracle)
    ensures Progressed(s.pop, Evolve(s, t, beta, gamma).pop)
  {
    if t > 0 {
      var e := Evolve(s, t - 1, beta, gamma);
      EvolveProgress(s, t - 1, beta, gamma);
      StepProgress(e, beta, gamma);
      ProgressedTrans(s.pop, e.pop, Step(e, beta, gamma).pop);
    }
  }

  // ---------------------------------------------------------------------
  // No infected agent: nothing happens
  // ---------------------------------------------------------------------

  lemma {:induction false} SweepIdle(s: Run, i: nat, beta: Oracle, gamma: Oracle)
    requires i <= |s.pop|
    requires forall k :: 0 <= k < |s.pop| ==> s.pop[k].status != Infected
    ensures Sweep(s, i, beta, gamma) == s
  {
    if i > 0 {
      SweepIdle(s, i - 1, beta, gamma);
    }
  }

  /** With no agent Infected at entry the call changes nothing and draws nothing. */
  lemma StepIdle(s: Run, beta: Oracle, gamma: Oracle)
    requires forall k :: 0 <= k < |s.pop| ==> s.pop[k].status != Infected
    ensures Step(s, beta, gamma) == s
  {
    SweepIdle(s, |s.pop|, beta, gamma);
  }

  // ---------------------------------------------------------------------
  // Every BETA outcome fails
  // ---------------------------------------------------------------------

  lemma {:induction false} ScanNoBeta(s: Run, i: nat, j: nat, beta: Oracle)
    requires i < |s.pop| && j <= |s.pop|
    requires forall m :: !beta(m)
    ensures Scan(s, i, j, beta).pop == s.pop
  {
    if j > 0 {
      ScanNoBeta(s, i, j - 1, beta);
    }
  }

  lemma {:induction false} SweepNoBeta(s: Run, i: nat, beta: Oracle, gamma: Oracle)
    requires i <= |s.pop|
    requires forall m :: !beta(m)
    ensures OnlyRecoveries(s.pop, Sweep(s, i, beta, gamma).pop)
  {
    if i > 0 {
      var t := Sweep(s, i - 1, beta, gamma);
      SweepNoBeta(s, i - 1, beta, gamma);
      if t.pop[i - 1].status == Infected {
        ScanNoBeta(t, i - 1, |t.pop|, beta);
      }
      OnlyRecoveriesTrans(s.pop, t.pop, Visit(t, i - 1, beta, gamma).pop);
    }
  }

  /**
   * When every BETA outcome fails nobody becomes Infected: the only changes
   * are Infected -> Recovered, so the Susceptible count is unchanged and the
   * Infected count does not grow.
   */
  lemma StepNoBeta(s: Run, beta: Oracle, gamma: Oracle)
    requires forall m :: !beta(m)
    ensures OnlyRecoveries(s.pop, Step(s, beta, gamma).pop)
    ensures Count(Step(s, beta, gamma).pop, Susceptible) == Count(s.pop, Susceptible)
    ensures Count(Step(s, beta, gamma).pop, Infected) <= Count(s.pop, Infected)
  {
    var q := Step(s, beta, gamma).pop;
    SweepNoBeta(s, |s.pop|, beta, gamma);
    CountSame(s.pop, q, Susceptible);
    CountFewer(s.pop, q, Infected);
  }

  // ---------------------------------------------------------------------
  // Every GAMMA outcome fails
  // ---------------------------------------------------------------------

  lemma {:induction false} SweepNoGamma(s: Run, i: nat, beta: Oracle, gamma: Oracle)
    requires i <= |s.pop|
    requires forall m :: !gamma(m)
    ensures OnlyInfections(s.pop, Sweep(s, i, beta, gamma).pop)
  {
    if i > 0 {
      var t := Sweep(s, i - 1, beta, gamma);
      SweepNoGamma(s, i - 1, beta, gamma);
      if t.pop[i - 1].status == Infected {
        ScanProgress(t, i - 1, |t.pop|, beta);
      }
      OnlyInfectionsTrans(s.pop, t.pop, Visit(t, i - 1, beta, gamma).pop);
    }
  }

  /**
   * When every GAMMA outcome fails nobody becomes Recovered: the only changes
   * are Susceptible -> Infected, so the Recovered count is unchanged and the
   * Infected count does not shrink.
   */
  lemma StepNoGamma(s: Run, beta: Oracle, gamma: Oracle)
    requires forall m :: !gamma(m)
    ensures OnlyInfections(s.pop, Step(s, beta, gamma).pop)
    ensures Count(Step(s, beta, gamma).pop, Recovered) == Count(s.pop, Recovered)
    ensures Count(Step(s, beta, gamma).pop, Infected) >= Count(s.pop, Infected)
  {
    var q := Step(s, beta, gamma).pop;
    SweepNoGamma(s, |s.pop|, beta, gamma);
    CountSame(s.pop, q, Recovered);
    CountFewer(q, s.pop, Infected);
  }

  lemma {:induction false} SweepRecoverAll(s: Run, i: nat, beta: Oracle, gamma: Oracle)
    requires i <= |s.pop|
    requires forall m :: !beta(m)
    requires forall m :: gamma(m)
    ensures forall k :: 0 <= k < |s.pop| ==>
              Sweep(s, i, beta, gamma).pop[k] == if k < i then Recover(s.pop[k]) else s.pop[k]
  {
    if i > 0 {
      var t := Sweep(s, i - 1, beta, gamma);
      SweepRecoverAll(s, i - 1, beta, gamma);
      if t.pop[i - 1].status == Infected {
        ScanNoBeta(t, i - 1, |t.pop|, beta);
      }
    }
  }

  /**
   * When every BETA outcome fails and every GAMMA outcome succeeds, the call
   * turns exactly the agents Infected at entry into Recovered: afterwards no
   * agent is Infected, the Susceptible count is unchanged and the Recovered
   * count grew by the Infected count at entry.
   */
  lemma StepRecoverAll(s: Run, beta: Oracle, gamma: Oracle)
    requires forall m :: !beta(m)
    requires forall m :: gamma(m)
    ensures Step(s, beta, gamma).pop == RecoverAll(s.pop)
    ensures Count(Step(s, beta, gamma).pop, Infected) == 0
    ensures Count(Step(s, beta, gamma).pop, Susceptible) == Count(s.pop, Susceptible)
    ensures Count(Step(s, beta, gamma).pop, Recovered)
            == Count(s.pop, Recovered) + Count(s.pop, Infected)
  {
    SweepRecoverAll(s, |s.pop|, beta, gamma);
    RecoverAllCounts(s.pop);
  }

  // ---------------------------------------------------------------------
  // Who can infect whom
  // ---------------------------------------------------------------------

  lemma {:induction false} ScanSource(s: Run, i: nat, j: nat, beta: Oracle, k: nat)
    requires i < |s.pop| && j <= |s.pop| && k < |s.pop|
    requires s.pop[k].status == Susceptible && Scan(s, i, j, beta).pop[k].status != Susceptible
    ensures InContact(s.pop[i], s.pop[k])
  {
    // j > 0, since Scan(s, i, 0, beta) is s
    var t := Scan(s, i, j - 1, beta);
    ScanProgress(s, i, j - 1, beta);
    if t.pop[k].status != Susceptible {
      ScanSource(s, i, j - 1, beta, k);
    } else {
      SamePlacesDist(s.pop, t.pop, i, k);
    }
  }

  lemma VisitSource(t: Run, i: nat, beta: Oracle, gamma: Oracle, k: nat)
    requires i < |t.pop| && k < |t.pop|
    requires t.pop[k].status == Susceptible && Visit(t, i, beta, gamma).pop[k].status != Susceptible
    ensures i != k && InContact(t.pop[i], t.pop[k])
    ensures t.pop[i].status == Infected
    ensures IsActive(Visit(t, i, beta, gamma).pop[i].status)
  {
    var v := Scan(t, i, |t.pop|, beta);
    ScanProgress(t, i, |t.pop|, beta);
    ScanSource(t, i, |t.pop|, beta, k);
  }

  lemma {:induction false} SweepSource(s: Run, i: nat, beta: Oracle, gamma: Oracle, k: nat)
    requires i <= |s.pop| && k < |s.pop|
    requires s.pop[k].status == Susceptible && Sweep(s, i, beta, gamma).pop[k].status != Susceptible
    ensures exists src :: 0 <= src < i && src != k && InContact(s.pop[src], s.pop[k])
              && Sweep(s, src, beta, gamma).pop[src].status == Infected
              && IsActive(Sweep(s, i, beta, gamma).pop[src].status)
  {
    var t := Sweep(s, i - 1, beta, gamma);
    var u := Visit(t, i - 1, beta, gamma);
    SweepProgress(s, i - 1, beta, gamma);
    VisitProgress(t, i - 1, beta, gamma);
    var src: nat;
    if t.pop[k].status != Susceptible {
      SweepSource(s, i - 1, beta, gamma, k);
      src :| 0 <= src < i - 1 && src != k && InContact(s.pop[src], s.pop[k])
             && Sweep(s, src, beta, gamma).pop[src].status == Infected
             && IsActive(t.pop[src].status);
    } else {
      src := i - 1;
      VisitSource(t, src, beta, gamma, k);
      SamePlacesDist(s.pop, t.pop, src, k);
    }
    assert IsActive(u.pop[src].status);
  }

  /**
   * An agent that leaves Susceptible during a call is in contact with another
   * agent that was Infected when its own outer iteration ran (after the
   * iterations before it), and which is therefore Infected or Recovered at
   * the end of the call.
   */
  lemma StepInfectionSource(s: Run, beta: Oracle, gamma: Oracle, k: nat)
    requires k < |s.pop|
    requires s.pop[k].status == Susceptible && Step(s, beta, gamma).pop[k].status != Susceptible
    ensures exists src :: 0 <= src < |s.pop| && src != k && InContact(s.pop[src], s.pop[k])
              && Sweep(s, src, beta, gamma).pop[src].status == Infected
              && IsActive(Step(s, beta, gamma).pop[src].status)
  {
    SweepSource(s, |s.pop|, beta, gamma, k);
  }

  // ---------------------------------------------------------------------
  // What the draws account for
  // ---------------------------------------------------------------------

  lemma {:induction false} ScanHits(s: Run, i: nat, j: nat, beta: Oracle)
    requires i < |s.pop| && j <= |s.pop|
    ensures Hits(beta, s.nextBeta, Scan(s, i, j, beta).nextBeta)
            == Count(s.pop, Susceptible) - Count(Scan(s, i, j, beta).pop, Susceptible)
    ensures Count(Scan(s, i, j, beta).pop, Recovered) == Count(s.pop, Recovered)
  {
    if j > 0 {
      var t := Scan(s, i, j - 1, beta);
      var u := Probe(t, i, j - 1, beta);
      assert Scan(s, i, j, beta) == u;
      ScanHits(s, i, j - 1, beta);
      if t.pop[j - 1].status == Susceptible && InContact(t.pop[i], t.pop[j - 1]) {
        assert u.nextBeta == t.nextBeta + 1;
        assert Hits(beta, s.nextBeta, u.nextBeta) == Hits(beta, s.nextBeta, t.nextBeta) + if beta(t.nextBeta) then 1 else 0;
        if beta(t.nextBeta) {
          assert u.pop == t.pop[j - 1 := t.pop[j - 1].(status := Infected)];
          CountUpdate(t.pop, j - 1, t.pop[j - 1].(status := Infected), Susceptible);
          CountUpdate(t.pop, j - 1, t.pop[j - 1].(status := Infected), Recovered);
        } else {
          assert u.pop == t.pop;
        }
      } else {
        assert u == t;
      }
    }
  }

  lemma VisitHits(t: Run, i: nat, beta: Oracle, gamma: Oracle)
    requires i < |t.pop|
    ensures var u := Visit(t, i, beta, gamma);
            && Hits(beta, t.nextBeta, u.nextBeta) == Count(t.pop, Susceptible) - Count(u.pop, Susceptible)
            && Hits(gamma, t.nextGamma, u.nextGamma) == Count(u.pop, Recovered) - Count(t.pop, Recovered)
  {
    if t.pop[i].status == Infected {
      var v := Scan(t, i, |t.pop|, beta);
      var u := Visit(t, i, beta, gamma);
      ScanHits(t, i, |t.pop|, beta);
      ScanProgress(t, i, |t.pop|, beta);
      assert v.pop[i].status == Infected;
      assert u.nextBeta == v.nextBeta && u.nextGamma == t.nextGamma + 1;
      HitsOne(gamma, t.nextGamma);
      if gamma(v.nextGamma) {
        CountUpdate(v.pop, i, v.pop[i].(status := Recovered), Susceptible);
        CountUpdate(v.pop, i, v.pop[i].(status := Recovered), Recovered);
      }
    }
  }

  lemma {:induction false} SweepHits(s: Run, i: nat, beta: Oracle, gamma: Oracle)
    requires i <= |s.pop|
    ensures var t := Sweep(s, i, beta, gamma);
            && Hits(beta, s.nextBeta, t.nextBeta) == Count(s.pop, Susceptible) - Count(t.pop, Susceptible)
            && Hits(gamma, s.nextGamma, t.nextGamma) == Count(t.pop, Recovered) - Count(s.pop, Recovered)
  {
    if i > 0 {
      var t := Sweep(s, i - 1, beta, gamma);
      var u := Visit(t, i - 1, beta, gamma);
      SweepHits(s, i - 1, beta, gamma);
      VisitHits(t, i - 1, beta, gamma);
      HitsSplit(beta, s.nextBeta, t.nextBeta, u.nextBeta);
      HitsSplit(gamma, s.nextGamma, t.nextGamma, u.nextGamma);
    }
  }

  /**
   * Every successful BETA outcome read by a call infects one Susceptible
   * agent, and every agent that leaves Susceptible does so through exactly
   * one of them; likewise every successful GAMMA outcome recovers one agent.
   */
  lemma StepHits(s: Run, beta: Oracle, gamma: Oracle)
    ensures var q := Step(s, beta, gamma);
            && Hits(beta, s.nextBeta, q.nextBeta) == Count(s.pop, Susceptible) - Count(q.pop, Susceptible)
            && Hits(gamma, s.nextGamma, q.nextGamma) == Count(q.pop, Recovered) - Count(s.pop, Recovered)
  {
    SweepHits(s, |s.pop|, beta, gamma);
  }

  /** Number of outer iterations among the first i that find their agent Infected. */
  function InfectedAtTurn(s: Run, i: nat, beta: Oracle, gamma: Oracle): (c: nat)
    requires i <= |s.pop|
    ensures c <= i
  {
    if i == 0 then 0
    else InfectedAtTurn(s, i - 1, beta, gamma)
         + if Sweep(s, i - 1, beta, gamma).pop[i - 1].status == Infected then 1 else 0
  }

  /**
   * Each agent Infected at entry is still Infected when its own iteration
   * runs, so it is among the iterations counted by InfectedAtTurn.
   */
  lemma {:induction false} InfectedAtTurnCovers(s: Run, i: nat, beta: Oracle, gamma: Oracle)
    requires i <= |s.pop|
    ensures Count(s.pop[..i], Infected) <= InfectedAtTurn(s, i, beta, gamma)
    ensures forall k :: i <= k < |s.pop| && s.pop[k].status == Infected ==>
              Sweep(s, i, beta, gamma).pop[k].status == Infected
  {
    if i > 0 {
      var t := Sweep(s, i - 1, beta, gamma);
      InfectedAtTurnCovers(s, i - 1, beta, gamma);
      VisitProgress(t, i - 1, beta, gamma);
      assert s.pop[..i][..i - 1] == s.pop[..i - 1];
    }
  }

  lemma {:induction false} SweepGammaDraws(s: Run, i: nat, beta: Oracle, gamma: Oracle)
    requires i <= |s.pop|
    ensures Sweep(s, i, beta, gamma).nextGamma == s.nextGamma + InfectedAtTurn(s, i, beta, gamma)
    ensures Sweep(s, i, beta, gamma).nextGamma - s.nextGamma <= i
    ensures Count(s.pop[..i], Infected) <= Sweep(s, i, beta, gamma).nextGamma - s.nextGamma
  {
    if i > 0 {
      SweepGammaDraws(s, i - 1, beta, gamma);
    }
    InfectedAtTurnCovers(s, i, beta, gamma);
  }

  /**
   * One GAMMA outcome is read per agent found Infected when its outer
   * iteration runs: so at least one per agent Infected at entry (nothing else
   * touches those before their own iteration) and at most one per agent.
   */
  lemma StepGammaDraws(s: Run, beta: Oracle, gamma: Oracle)
    ensures Step(s, beta, gamma).nextGamma == s.nextGamma + InfectedAtTurn(s, |s.pop|, beta, gamma)
    ensures Count(s.pop, Infected) <= Step(s, beta, gamma).nextGamma - s.nextGamma <= |s.pop|
  {
    SweepGammaDraws(s, |s.pop|, beta, gamma);
    assert s.pop[..|s.pop|] == s.pop;
  }

  // ---------------------------------------------------------------------
  // Nobody within DIST_MAX of anybody else
  // ---------------------------------------------------------------------

  lemma {:induction false} ScanNoContact(t: Run, i: nat, j: nat, beta: Oracle)
    requires i < |t.pop| && j <= |t.pop| && t.pop[i].status == Infected
    requires forall a, b :: 0 <= a < |t.pop| && 0 <= b < |t.pop| && a != b ==> !InContact(t.pop[a], t.pop[b])
    ensures Scan(t, i, j, beta) == t
  {
    if j > 0 {
      ScanNoContact(t, i, j - 1, beta);
    }
  }

  lemma {:induction false} SweepNoContact(s: Run, i: nat, beta: Oracle, gamma: Oracle)
    requires i <= |s.pop|
    requires forall a, b :: 0 <= a < |s.pop| && 0 <= b < |s.pop| && a != b ==> !InContact(s.pop[a], s.pop[b])
    ensures Sweep(s, i, beta, gamma).nextBeta == s.nextBeta
    ensures OnlyRecoveries(s.pop, Sweep(s, i, beta, gamma).pop)
  {
    if i > 0 {
      var t := Sweep(s, i - 1, beta, gamma);
      SweepNoContact(s, i - 1, beta, gamma);
      if t.pop[i - 1].status == Infected {
        forall a, b | 0 <= a < |t.pop| && 0 <= b < |t.pop| && a != b
          ensures !InContact(t.pop[a], t.pop[b])
        {
          SamePlacesDist(s.pop, t.pop, a, b);
        }
        ScanNoContact(t, i - 1, |t.pop|, beta);
      }
      OnlyRecoveriesTrans(s.pop, t.pop, Visit(t, i - 1, beta, gamma).pop);
    }
  }

  /**
   * The distance test guards the BETA draw: when no two agents are in
   * contact the call reads no BETA outcome and infects nobody.
   */
  lemma StepNoContact(s: Run, beta: Oracle, gamma: Oracle)
    requires forall a, b :: 0 <= a < |s.pop| && 0 <= b < |s.pop| && a != b ==> !InContact(s.pop[a], s.pop[b])
    ensures Step(s, beta, gamma).nextBeta == s.nextBeta
    ensures OnlyRecoveries(s.pop, Step(s, beta, gamma).pop)
  {
    SweepNoContact(s, |s.pop|, beta, gamma);
  }

  // ---------------------------------------------------------------------
  // Everybody within DIST_MAX of everybody else
  // ---------------------------------------------------------------------

  lemma {:induction false} SweepBeforeFirstInfected(s: Run, i: nat, beta: Oracle, gamma: Oracle)
    requires i <= |s.pop|
    requires forall k :: 0 <= k < i ==> s.pop[k].status != Infected
    ensures Sweep(s, i, beta, gamma) == s
  {
    if i > 0 {
      SweepBeforeFirstInfected(s, i - 1, beta, gamma);
    }
  }

  lemma {:induction false} ScanInfectsAll(s: Run, i: nat, j: nat, beta: Oracle)
    requires i < |s.pop| && j <= |s.pop| && s.pop[i].status == Infected
    requires forall a, b :: 0 <= a < |s.pop| && 0 <= b < |s.pop| ==> InContact(s.pop[a], s.pop[b])
    requires forall m :: beta(m)
    ensures forall k :: 0 <= k < |s.pop| ==>
              Scan(s, i, j, beta).pop[k] == if k < j then Infect(s.pop[k]) else s.pop[k]
  {
    if j > 0 {
      ScanInfectsAll(s, i, j - 1, beta);
      var t := Scan(s, i, j - 1, beta);
      assert t.pop[i].status == Infected && t.pop[j - 1] == s.pop[j - 1];
    }
  }

  lemma {:induction false} ScanNoSusceptible(t: Run, i: nat, j: nat, beta: Oracle)
    requires i < |t.pop| && j <= |t.pop|
    requires forall k :: 0 <= k < |t.pop| ==> t.pop[k].status != Susceptible
    ensures Scan(t, i, j, beta).pop == t.pop
  {
    if j > 0 {
      ScanNoSusceptible(t, i, j - 1, beta);
    }
  }

  lemma {:induction false} SweepAfterFirstInfected(s: Run, f: nat, i: nat, beta: Oracle, gamma: Oracle)
    requires f < i <= |s.pop|
    requires Sweep(s, f + 1, beta, gamma).pop == InfectAll(s.pop)
    requires forall m :: !gamma(m)
    ensures Sweep(s, i, beta, gamma).pop == InfectAll(s.pop)
    decreases i
  {
    if i > f + 1 {
      SweepAfterFirstInfected(s, f, i - 1, beta, gamma);
      var t := Sweep(s, i - 1, beta, gamma);
      if t.pop[i - 1].status == Infected {
        ScanNoSusceptible(t, i - 1, |t.pop|, beta);
      }
    }
  }

  /**
   * When every agent is in contact with every other, at least one is
   * Infected, every BETA outcome succeeds and every GAMMA outcome fails, one
   * call infects every Susceptible agent and changes nothing else (for four
   * agents at one spot with one Infected: four Infected afterwards).
   */
  lemma StepFullContact(s: Run, beta: Oracle, gamma: Oracle)
    requires forall a, b :: 0 <= a < |s.pop| && 0 <= b < |s.pop| ==> InContact(s.pop[a], s.pop[b])
    requires exists k :: 0 <= k < |s.pop| && s.pop[k].status == Infected
    requires forall m :: beta(m)
    requires forall m :: !gamma(m)
    ensures Step(s, beta, gamma).pop == InfectAll(s.pop)
    ensures Count(Step(s, beta, gamma).pop, Susceptible) == 0
    ensures Count(Step(s, beta, gamma).pop, Infected) == Count(s.pop, Susceptible) + Count(s.pop, Infected)
  {
    var f := FirstInfected(s.pop);
    SweepBeforeFirstInfected(s, f, beta, gamma);
    ScanInfectsAll(s, f, |s.pop|, beta);
    assert Sweep(s, f + 1, beta, gamma).pop == InfectAll(s.pop);
    SweepAfterFirstInfected(s, f, |s.pop|, beta, gamma);
    InfectAllCounts(s.pop);
  }

  /**
   * In sequential order an agent infected during a call can be visited later
   * in the same call: here agent 1 goes from Susceptible to Recovered in one
   * call, which sir.c's kernel never does.
   */
  lemma StepTwoStagesInOneCall()
    ensures var s := Run([Agent(0.0, 0.0, Infected), Agent(0.0, 0.0, Susceptible)], 0, 0);
            Step(s, (m: nat) => true, (m: nat) => true).pop[1].status == Recovered
  {
    var beta: Oracle := (m: nat) => true;
    var gamma: Oracle := (m: nat) => true;
    var s := Run([Agent(0.0, 0.0, Infected), Agent(0.0, 0.0, Susceptible)], 0, 0);
    var s1 := Visit(s, 0, beta, gamma);
    assert Scan(s, 0, 1, beta) == s;
    assert Scan(s, 0, 2, beta).pop[1].status == Infected;
    assert s1.pop[1].status == Infected && s1.pop[0].status == Recovered;
    assert Sweep(s, 1, beta, gamma) == s1;
    assert Scan(s1, 1, 2, beta).pop == s1.pop;
    assert Visit(s1, 1, beta, gamma).pop[1].status == Recovered;
  }

  // ---------------------------------------------------------------------
  // One iteration of main's loop, as rank 0 sees it
  // ---------------------------------------------------------------------

  /**
   * If every rank's shard has only moved forward since the scatter (which
   * holds after any number of calls, by EvolveProgress), the gathered buffer
   * has only moved forward from the initial population, its last `N mod size`
   * agents are the initial ones, and its tally is the sum of the ranks'
   * tallies plus the tally of that tail.
   */
  lemma GatheredView(g: seq<Agent>, size: nat, shards: seq<seq<Agent>>, st: int)
    requires 1 <= size && |shards| == size
    requires forall k :: 0 <= k < size ==> Progressed(Scatter(g, size)[k], shards[k])
    ensures |Concat(shards)| == |g| - |g| % size
    ensures Progressed(g, Gather(g, shards))
    ensures Gather(g, shards)[|g| - |g| % size..] == g[|g| - |g| % size..]
    ensures Count(Gather(g, shards), st) == SumCount(shards, st) + Count(g[|g| - |g| % size..], st)
  {
    var scattered := Scatter(g, size);
    var w := |g| - |g| % size;
    assert |Concat(shards)| == w by {
      ScatterCoverage(g, size);
      ConcatProgressed(scattered, shards);
    }
    assert Progressed(g, Gather(g, shards)) by {
      GatherScatter(g, size);
      GatherProgressed(g, scattered, shards);
    }
    CountGather(g, shards, st);
  }

  // ---------------------------------------------------------------------
  // Auxiliary definitions
  // ---------------------------------------------------------------------

  /** Infected or Recovered: the statuses an agent has once it has been infected. */
  predicate IsActive(st: int)
  {
    st == Infected || st == Recovered
  }

  function Recover(a: Agent): Agent
  {
    if a.status == Infected then a.(status := Recovered) else a
  }

  function Infect(a: Agent): Agent
  {
    if a.status == Susceptible then a.(status := Infected) else a
  }

  /** Every Susceptible agent made Infected, everything else as it was. */
  function InfectAll(p: seq<Agent>): (q: seq<Agent>)
    ensures |q| == |p|
  {
    seq(|p|, k requires 0 <= k < |p| => Infect(p[k]))
  }

  lemma {:induction false} InfectAllCounts(p: seq<Agent>)
    ensures Count(InfectAll(p), Susceptible) == 0
    ensures Count(InfectAll(p), Infected) == Count(p, Susceptible) + Count(p, Infected)
  {
    if |p| > 0 {
      var n := |p|;
      InfectAllCounts(p[..n - 1]);
      assert InfectAll(p)[..n - 1] == InfectAll(p[..n - 1]);
    }
  }

  /** Index of the first Infected agent. */
  function FirstInfected(p: seq<Agent>): (f: nat)
    requires exists k :: 0 <= k < |p| && p[k].status == Infected
    ensures f < |p| && p[f].status == Infected
    ensures forall k :: 0 <= k < f ==> p[k].status != Infected
  {
    if p[0].status == Infected then 0
    else
      assert exists k :: 0 <= k < |p[1..]| && p[1..][k].status == Infected by {
        var k :| 0 <= k < |p| && p[k].status == Infected;
        assert p[1..][k - 1] == p[k];
      }
      1 + FirstInfected(p[1..])
  }

  /** Every Infected agent made Recovered, everything else as it was. */
  function RecoverAll(p: seq<Agent>): (q: seq<Agent>)
    ensures |q| == |p|
  {
    seq(|p|, k requires 0 <= k < |p| => Recover(p[k]))
  }

  lemma {:induction false} RecoverAllCounts(p: seq<Agent>)
    ensures Count(RecoverAll(p), Infected) == 0
    ensures Count(RecoverAll(p), Susceptible) == Count(p, Susceptible)
    ensures Count(RecoverAll(p), Recovered) == Count(p, Recovered) + Count(p, Infected)
  {
    if |p| > 0 {
      var n := |p|;
      RecoverAllCounts(p[..n - 1]);
      assert RecoverAll(p)[..n - 1] == RecoverAll(p[..n - 1]);
    }
  }
}
