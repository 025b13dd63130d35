# SIR contagion simulator — a Dafny model

This project models the three C programs of the `simuladorSIR` repository.
Each program simulates an SIR epidemic. A population of agents
(`Pessoa`: a position `x, y` and a status code 0 = Susceptible, 1 = Infected,
2 = Recovered) is updated once per time step. Infection needs proximity
and a successful random test with probability BETA. Recovery needs a
successful random test with probability GAMMA.

- `sir_simulation.c` is the MPI + OpenMP program. Rank 0 seeds N = 10000
  agents, 10% of them Infected. `MPI_Scatter` gives each rank a contiguous
  shard of `N / size` agents. Each rank then runs STEPS = 100 rounds. A round
  is the infected-driven kernel `atualizar_estado`, a barrier, `MPI_Gather`
  back to rank 0, and the tally `exibir_estatisticas` there.
- `main.c` is a smaller variant. It has N = 1000 agents, 5% of them
  Infected. It scatters and gathers raw bytes, and its contact test is
  `sqrt(...) < DIST_MAX`.
- `sir.c` (constants in `sir.h`) is the sequential program. Positions are
  whole numbers 0..99. The kernel is driven by the Susceptible agents, with
  an early `break`. `salvar_dados` counts S, I and every other code as R.

The modules are:

- `Population` holds the shared vocabulary. It defines the agent, the counts,
  and the S -> I -> R order. It also defines the oracles that stand for
  `rand()`. A kernel reads its BETA tests and its GAMMA tests from two
  streams of outcomes, `nat -> bool`. Each stream has a cursor that the call
  advances. `Seed` is the MPI programs' seeding loop.
- `Partition` holds `n_local = N / size` and what MPI_Scatter and MPI_Gather
  produce, following sections 5.5 and 5.6 of the MPI 3.1 standard.
- `SirSimulation` holds the kernel of `sir_simulation.c` as an in-place method
  on an `array`. The method is proved equal to the pure specification
  `Step`. The properties of one call are lemmas about `Step`. The module also
  has the seeding, the tally and the gathered view of one round.
- `MainVariant` covers `main.c`. Its kernel is the same as the one above,
  because a `sqrt` test agrees with the squared test. The module also covers
  the 5% seeding and the byte-counted scatter.
- `Sir` covers `sir.c`: its kernel with `break`, its whole-number seeding and
  its counts.

Positions are exact reals. A test `sqrt(d) < r` is modelled as `d < r * r`,
which `Population.SqrtBelow` justifies.

### Notes on the code's behaviour

- `sir_simulation.c` and `main.c` update the population in place, in index
  order. An agent infected by an earlier agent is visited later as an
  Infected source, and can recover in the same call. So one call can take an
  agent from S to R: `SirSimulation.StepTwoStagesInOneCall` shows it.
  `sir.c` tests one agent's status with if / else-if, and there an agent
  moves at most one stage per call (`Sir.StepOneStage`).
- `rand() / RAND_MAX` can be exactly 1, so seeded positions lie in [0,1],
  with 1 included.
- The scatter hands out `size` shards of `N / size` agents, so the trailing
  `N mod size` agents reach no rank (`Partition.ScatterCoverage`). The
  gathered view keeps those agents' initial states
  (`SirSimulation.GatheredView`).
- `exibir_estatisticas` ignores status codes outside 0..2, while
  `salvar_dados` counts them as R. The status stays a plain `int` so that
  both behaviours can be stated.

## Model

| member | source | states |
|---|---|---|
| Population.SqrtBelow | main.c:32-33 | For a non-negative root of d and a positive radius r, `root < r` holds exactly when `d < r * r` |
| Population.CountAppend | sir_simulation.c:98-111 | The count of a status over two concatenated parts is the sum of the parts' counts, so the parallel `reduction(+)` gives the sequential count |
| Population.CountsCover | sir_simulation.c:100-110 | The S, I and R counts never exceed the population. They add up to it exactly when every code is 0, 1 or 2 |
| Population.ProgressedCounts | sir_simulation.c:62-83 | If statuses only move forward, S does not grow, R does not shrink, and S + I + R is conserved |
| Population.Seeded | sir_simulation.c:37-39 | A seeded agent lies in the unit square and is S or I. It is I exactly when the third `rand()` value mod 100 is below the percentage |
| Population.Seed | sir_simulation.c:36-40 | Agent k is built from the values at positions c+3k, c+3k+1 and c+3k+2, and 3 values per agent are consumed |
| Partition.Scatter | sir_simulation.c:164-168 | MPI_Scatter delivers `size` shards, each of exactly `n_local` agents |
| Partition.Gather | sir_simulation.c:176-180 | MPI_Gather keeps the root buffer's length and leaves every position past the gathered shards as it was |
| Partition.LocalCount | sir_simulation.c:147 | `n_local = N / size` is the largest width such that `size` shards of it fit in N |
| Partition.ScatterShard | sir_simulation.c:164-168 | There are `size` shards, and rank k receives agents `k*n_local` up to `(k+1)*n_local - 1` of the root's buffer |
| Partition.ScatterCoverage | sir_simulation.c:164-168 | The shards laid end to end are exactly the first `N - N mod size` agents, so the trailing ones reach no rank |
| Partition.ConcatAt | sir_simulation.c:176-180 | In equal-width shards laid end to end, position `k*width + m` holds agent m of shard k |
| Partition.GatherScatter | sir_simulation.c:164-180 | Gathering the unchanged shards restores the root's buffer exactly |
| Partition.GatherAt | sir_simulation.c:176-180 | MPI_Gather puts agent m of rank k at `k*width + m` of the root's buffer |
| Partition.GatherTail | sir_simulation.c:176-180 | The gather keeps the buffer length and leaves every position past the shards untouched |
| Partition.GatherTwice | sir_simulation.c:170-180 | A later round's gather completely overwrites the earlier one |
| Partition.CountGather | sir_simulation.c:176-185 | A count over the gathered buffer is the sum of per-rank counts plus the count of the untouched tail |
| Partition.GatherProgressed | sir_simulation.c:170-186 | If every shard's statuses only moved forward, so did the gathered view |
| SirSimulation.Probe | sir_simulation.c:65-76 | One inner iteration changes at most agent j, reads no GAMMA outcome, and reads one BETA outcome exactly when j is S and in contact with i |
| SirSimulation.Scan | sir_simulation.c:64-77 | The inner loop keeps the population's length, reads no GAMMA outcome, and only advances the BETA cursor |
| SirSimulation.Visit | sir_simulation.c:62-84 | One outer iteration keeps the population's length and only advances the two cursors |
| SirSimulation.Step | sir_simulation.c:60-85 | One call of the kernel keeps the population's length and only advances the two cursors |
| SirSimulation.Evolve | sir_simulation.c:170-172 | Repeated calls of the kernel on one shard keep its length and only advance the two cursors |
| SirSimulation.UpdateState | sir_simulation.c:57-86 | The in-place kernel leaves the array and the two cursors as `Step` of the old contents |
| SirSimulation.SpreadFrom | sir_simulation.c:64-77 | The in-place inner loop for source i leaves the array as `Scan` over all agents |
| SirSimulation.InitPopulation | sir_simulation.c:34-41 | Agent k is `Seeded` from the values at c+3k, c+3k+1 and c+3k+2: x and y are the first two over RAND_MAX, in [0,1]. Every status is S or I, and I holds exactly when `rand() % 100 < 10` |
| SirSimulation.Statistics | sir_simulation.c:95-111 | The three tallies equal the counts of codes 0, 1 and 2. Other codes are not counted |
| SirSimulation.StepProgress | sir_simulation.c:60-85 | Positions are kept and statuses only move forward. S does not grow, R does not shrink, and S + I + R is conserved |
| SirSimulation.EvolveProgress | sir_simulation.c:170-172 | Across any number of rounds a shard's statuses only move forward and its positions are kept |
| SirSimulation.StepIdle | sir_simulation.c:62 | With no Infected agent at entry, the call changes nothing and reads no outcome |
| SirSimulation.StepNoBeta | sir_simulation.c:71-75 | If every BETA test fails, the only changes are I -> R. S is unchanged and I does not grow |
| SirSimulation.StepNoGamma | sir_simulation.c:79-83 | If every GAMMA test fails, the only changes are S -> I. R is unchanged and I does not shrink |
| SirSimulation.StepRecoverAll | sir_simulation.c:62-83 | If every BETA test fails and every GAMMA test succeeds, exactly the agents Infected at entry become R |
| SirSimulation.StepInfectionSource | sir_simulation.c:62-75 | An agent that leaves S is in contact with another agent that was I when its own outer iteration ran, and is I or R at the end of the call |
| SirSimulation.StepHits | sir_simulation.c:71-83 | Successful BETA tests equal the drop in S. Successful GAMMA tests equal the rise in R |
| SirSimulation.StepGammaDraws | sir_simulation.c:79-83 | One GAMMA test is read per agent found I when its own outer iteration runs. That number lies between the number of Infected agents at entry and the population size |
| SirSimulation.StepNoContact | sir_simulation.c:69-71 | With no two agents in contact, no BETA outcome is read and nobody is infected |
| SirSimulation.StepFullContact | sir_simulation.c:60-85 | With everyone in contact, one agent Infected, all BETA tests succeeding and all GAMMA tests failing, everyone becomes Infected |
| SirSimulation.StepTwoStagesInOneCall | sir_simulation.c:60-85 | A concrete two-agent population in which one call takes an agent from S to R |
| SirSimulation.GatheredView | sir_simulation.c:164-186 | After a round the root's view has moved only forward. Its tail past the shards is the initial one, and its counts are per-rank sums plus the tail |
| MainVariant.ContactTestAgrees | main.c:32-33 | The test `sqrt(dx²+dy²) < DIST_MAX` agrees with the squared contact test |
| MainVariant.UpdateState | main.c:26-43 | The kernel performs the infected-driven `Step`. Statuses only move forward, and nothing happens when nobody is Infected |
| MainVariant.InitPopulation | main.c:18-24 | Agent k is `Seeded` from the values at c+3k, c+3k+1 and c+3k+2: x and y are the first two over RAND_MAX, in [0,1]. Every status is S or I, and I holds exactly when `rand() % 100 < 5` |
| MainVariant.ScatterLayout | main.c:51-61 | For N = 1000, rank k receives agents `k*n_local` up to `(k+1)*n_local - 1`, and the trailing `N mod size` reach no rank |
| MainVariant.ByteBlocks | main.c:57 | Agent a's bytes lie inside rank k's byte block exactly when a is one of rank k's agents, so the byte scatter cuts no record |
| Sir.RangeTestAgrees | sir.c:19-21 | The test `sqrt(dx²+dy²) < DISTANCIA_INF` agrees with `InRange` |
| Sir.Seek | sir.c:17-26 | The scan for agent i changes only agent i, possibly to I. It reads no GAMMA outcome and only advances the BETA cursor |
| Sir.Step | sir.c:15-32 | One call of the kernel keeps the population's length; its stage and hit properties are the `Sir.Step...` lemmas |
| Sir.Visit | sir.c:15-31 | Iteration i changes only agent i, keeps its position, and moves it at most one stage |
| Sir.UpdateState | sir.c:14-33 | For N agents, the in-place kernel leaves the array and the cursors as `Step` of the old contents |
| Sir.SeekInfected | sir.c:17-26 | The in-place inner loop with `break` leaves the array as `Seek` from agent 0 |
| Sir.StepOneStage | sir.c:15-31 | Every agent moves at most one stage (never S -> R). R agents and all positions are unchanged |
| Sir.StepInfectionSource | sir.c:17-22 | An agent that goes from S to I had an agent in range whose status was I when its iteration ran, counting new statuses of agents visited earlier |
| Sir.StepInfectionIff | sir.c:17-24 | When every BETA test succeeds, an S agent becomes I exactly when such an agent is in range |
| Sir.StepIdle | sir.c:16-31 | With no Infected agent at entry, the call changes nothing and reads no outcome |
| Sir.StepNoBeta | sir.c:21-22 | If every BETA test fails, no agent becomes I |
| Sir.StepNoGamma | sir.c:28-29 | If every GAMMA test fails, no agent becomes R |
| Sir.SeekHits | sir.c:21-24 | Because of `break`, a scan has one successful BETA test if it infects agent i and none otherwise |
| Sir.StepHits | sir.c:21-30 | Successful BETA tests equal the drop in S. Exactly one GAMMA test is read per agent Infected at entry, and the successful ones equal the rise in R |
| Sir.StepChainSpread | sir.c:15-24 | A concrete population in which an agent out of range of every initially Infected agent is infected, in one call, through a neighbour infected earlier in that call |
| Sir.GridAgent | sir.c:7-9 | Coordinates are whole numbers 0..99 equal to `rand() % 100`. The status is S or I, and I exactly when the third value mod 100 is below 5 |
| Sir.InitPopulation | sir.c:5-11 | Agent k is `GridAgent` of the values at positions c+3k, c+3k+1 and c+3k+2 |
| Sir.SaveCounts | sir.c:38-44 | S and I are the counts of codes 0 and 1, and S + I + R == N |
| Sir.SaveCountsRecovered | sir.c:40-44 | The R written is at least the number of code-2 agents. It equals that number exactly when every code is 0, 1 or 2 |
| Sir.GridContact | sir.c:19-21 | On whole-number positions, two agents are in range exactly when they differ by at most 1 in each coordinate |

## Left out

- MPI set-up and tear-down are not modelled: `MPI_Init`, `MPI_Comm_rank`, `MPI_Comm_size`, `MPI_Finalize`, and the `MPI_PESSOA` datatype in sir_simulation.c:132-145 and 192-193. They move no agent data. The datatype describes the same record layout, so a scatter of `n_local` records is modelled as a scatter of `n_local` agents.
- `MPI_Barrier` (sir_simulation.c:174, main.c:65) is not modelled. It only orders the ranks, and the model treats each round's shards as finished before the gather.
- main.c's non-root scatter call and its gather into `NULL` with count 0 (main.c:60, 66) are not modelled. At the root, the gather receives a count of 0 bytes while each rank sends `n_local * sizeof(Pessoa)` bytes. Section 5.5 of the MPI 3.1 standard requires the send and receive type signatures to match, so this call is erroneous and has no defined result to model.
- OpenMP threading is not modelled: `parallel for`, `schedule(dynamic)` and `atomic write` (sir_simulation.c:59, 73, 81; main.c:27). The kernels are modelled in sequential index order. Interleavings, racy reads of `status` and the unsynchronised shared `rand()` are left out. The parallel reduction in `exibir_estatisticas` is covered by `Population.CountAppend`.
- `rand()` is modelled by streams of arbitrary outcomes. The probabilities BETA and GAMMA, and the fact that each rank draws from its own unseeded generator, are left out.
- Floating-point rounding in `pow`, `sqrt` and `/ RAND_MAX` is not modelled. Arithmetic is exact.
- Output is not modelled: `printf`, `fprintf`, `fopen` and `fclose` (sir_simulation.c:35, 113-114, 184; sir.c:37, 46-47). Only the numbers written are modelled.
- Allocation and its failure path are not modelled: `malloc`, `free` and `MPI_Abort` (sir_simulation.c:148-157, 190-191; main.c:52-58, 69).
- The loop over STEPS in `main` is not a method. One rank's repeated calls are `SirSimulation.Evolve`, and one round of the whole program is `SirSimulation.GatheredView`. `TEMPO_MAX` in sir.h is declared, but none of the modelled files uses it: sir.c has no `main`, and the driver of its kernel is not part of this model.
- The C parameter `int n` of the MPI kernels is the array's length in the model.
- MainVariant.UpdateState: is stated with the squared contact test. It agrees with main.c's `sqrt` test only through `MainVariant.ContactTestAgrees`, which assumes the root is exact.
