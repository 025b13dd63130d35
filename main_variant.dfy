/**
 * main.c: the second MPI + OpenMP variant. Its kernel is sir_simulation.c's
 * infected-driven kernel with the contact test written as
 * `sqrt(pow(dx, 2) + pow(dy, 2)) < DIST_MAX` and the same DIST_MAX; in exact
 * arithmetic and sequential order the two kernels coincide, so this module
 * reuses SirSimulation's specification. It seeds 5% of the agents as
 * Infected and scatters the population as raw bytes.
 */
module MainVariant {
  import opened Population
  import opened Partition
  import SirSimulation

  const N: nat := 1000
  const Steps: nat := 100
  const DistMax: real := 0.02
  const InfectedPercent: nat := 5

  /**
   * Whatever root `sqrt` returns for the squared distance, main.c's test
   * `root < DIST_MAX` has the outcome of sir_simulation.c's squared test.
   */
  lemma ContactTestAgrees(a: Agent, b: Agent, root: real)
    requires 0.0 <= root && root * root == Dist2(a, b)
    ensures root < DistMax <==> SirSimulation.InContact(a, b)
  {
    SqrtBelow(root, Dist2(a, b), DistMax);
  }

  /**
   * `atualizar_estado(pop, n)` with `n == pop.Length`: the infected-driven
   * kernel. It writes statuses only, each forward along S -> I -> R, and does
   * nothing when no agent is Infected at entry.
   */
  method UpdateState(pop: array<Agent>, beta: Oracle, gamma: Oracle, b: nat, g: nat)
    returns (nextB: nat, nextG: nat)
    modifies pop
    ensures Run(pop[..], nextB, nextG) == SirSimulation.Step(Run(old(pop[..]), b, g), beta, gamma)
    ensures Progressed(old(pop[..]), pop[..])
    ensures (forall k :: 0 <= k < pop.Length ==> old(pop[k]).status != Infected) ==>
              pop[..] == old(pop[..]) && nextB == b && nextG == g
  {
    ghost var start := Run(pop[..], b, g);
    nextB, nextG := SirSimulation.UpdateState(pop, beta, gamma, b, g);
    SirSimulation.StepProgress(start, beta, gamma);
    if forall k :: 0 <= k < |start.pop| ==> start.pop[k].status != Infected {
      SirSimulation.StepIdle(start, beta, gamma);
    }
  }

  /**
   * `inicializar_populacao(pop, n)`: positions `rand() / RAND_MAX` in the unit
   * square and status Infected for 5% of the `rand() % 100` values.
   */
  method InitPopulation(pop: array<Agent>, rand: RandStream, c: nat) returns (next: nat)
    requires forall k :: rand(k) <= RandMax
    modifies pop
    ensures next == c + 3 * pop.Length
    ensures forall k :: 0 <= k < pop.Length ==>
              pop[k] == Seeded(rand(c + 3 * k), rand(c + 3 * k + 1), rand(c + 3 * k + 2), InfectedPercent)
    ensures forall k :: 0 <= k < pop.Length ==>
              && 0.0 <= pop[k].x <= 1.0 && 0.0 <= pop[k].y <= 1.0
              && (pop[k].status == Susceptible || pop[k].status == Infected)
              && (pop[k].status == Infected <==> rand(c + 3 * k + 2) % 100 < InfectedPercent)
  {
    next := Seed(pop, rand, c, InfectedPercent);
  }

  /**
   * With `n_local = N / size`, rank k receives agents `k * n_local` to
   * `(k + 1) * n_local - 1`, and the last `N mod size` agents go to no rank.
   */
  lemma ScatterLayout(g: seq<Agent>, size: nat, k: nat)
    requires |g| == N && 1 <= size && k < size
    ensures (k + 1) * LocalCount(|g|, size) <= |g|
    ensures Scatter(g, size)[k] == g[k * LocalCount(|g|, size) .. (k + 1) * LocalCount(|g|, size)]
    ensures Concat(Scatter(g, size)) == g[..|g| - |g| % size]
  {
    ScatterShard(g, size, k);
    ScatterCoverage(g, size);
  }

  /**
   * The scatter counts bytes: rank k receives bytes
   * `k * n_local * sizeof(Pessoa)` up to `(k + 1) * n_local * sizeof(Pessoa)`.
   * Agent a occupies bytes `a * sizeof(Pessoa)` up to `(a + 1) * sizeof(Pessoa)`,
   * and it lies inside rank k's bytes exactly when it is one of rank k's
   * agents, so the byte scatter cuts no agent and hands out the same shards.
   */
  lemma ByteBlocks(record: nat, width: nat, k: nat, a: nat)
    requires 0 < record
    ensures (k * width * record <= a * record && (a + 1) * record <= (k + 1) * width * record)
            <==> (k * width <= a < (k + 1) * width)
  {
    MulMonotone(k * width, a, record);
    MulMonotone(a + 1, (k + 1) * width, record);
  }

  lemma MulMonotone(u: nat, v: nat, record: nat)
    requires 0 < record
    ensures u <= v <==> u * record <= v * record
  {
    if u <= v {
      MulBelow(u, v, record);
    } else {
      MulBelow(v + 1, u, record);
      assert (v + 1) * record == v * record + record;
    }
  }

  lemma {:induction false} MulBelow(u: nat, v: nat, record: nat)
    requires u <= v
    ensures u * record <= v * record
    decreases record
  {
    if record > 0 {
      MulBelow(u, v, record - 1);
      assert u * record == u * (record - 1) + u;
      assert v * record == v * (record - 1) + v;
    }
  }
}
