/**
 * Vocabulary shared by the three SIR programs: the agent record (`Pessoa`),
 * the status codes, the tallies, the draw oracles that stand for `rand()`,
 * and the order S -> I -> R along which a status may move.
 */
module Population {

  /** Status codes (sir_simulation.c:12-14, sir.h:8-10). */
  const Susceptible: int := 0
  const Infected: int := 1
  const Recovered: int := 2

  /** Largest value `rand()` returns (the GNU C library's RAND_MAX). */
  const RandMax: nat := 2147483647

  /**
   * One individual: a position in the plane and a status code. The code is a
   * plain `int`, as in the C struct; the two tallies disagree on codes
   * outside 0..2, so the model keeps them.
   */
  datatype Agent = Agent(x: real, y: real, status: int)

  /**
   * Outcomes of successive `rand() / RAND_MAX < p` tests of one kind: entry k
   * is the outcome of the k-th such test the program makes.
   */
  type Oracle = nat -> bool

  /** Successive values returned by `rand()`. */
  type RandStream = nat -> nat

  /**
   * A population together with the positions of the next unread BETA outcome
   * and the next unread GAMMA outcome: the state one update call works on.
   */
  datatype Run = Run(pop: seq<Agent>, nextBeta: nat, nextGamma: nat)

  predicate IsStatus(s: int)
  {
    Susceptible <= s <= Recovered
  }

  /** Squared Euclidean distance between two agents. */
  function Dist2(a: Agent, b: Agent): real
  {
    (a.x - b.x) * (a.x - b.x) + (a.y - b.y) * (a.y - b.y)
  }

  /**
   * Whatever square root the C library returns for a squared distance,
   * comparing it with a positive radius agrees with comparing the squared
   * distance with the squared radius; this is why a `sqrt(...) < r` test is
   * modelled as `Dist2 < r * r`.
   */
  lemma SqrtBelow(root: real, d: real, radius: real)
    requires 0.0 <= root && root * root == d && 0.0 < radius
    ensures root < radius <==> d < radius * radius
  {
    var below, mixed, above := root * root, root * radius, radius * radius;
    if root < radius {
      assert below <= mixed < above;
    } else {
      assert above <= mixed <= below;
    }
  }

  // ---------------------------------------------------------------------
  // Tallies
  // ---------------------------------------------------------------------

  /** Number of agents of `p` whose status code is `st`. */
  function Count(p: seq<Agent>, st: int): (c: nat)
    ensures c <= |p|
  {
    if |p| == 0 then 0
    else Count(p[..|p| - 1], st) + (if p[|p| - 1].status == st then 1 else 0)
  }

  /** Counting distributes over concatenation: the basis of every reduction. */
  lemma {:induction false} CountAppend(a: seq<Agent>, b: seq<Agent>, st: int)
    ensures Count(a + b, st) == Count(a, st) + Count(b, st)
  {
    if |b| == 0 {
      assert a + b == a;
    } else {
      CountAppend(a, b[..|b| - 1], st);
      assert (a + b)[..|a + b| - 1] == a + b[..|b| - 1];
    }
  }

  /** Effect of overwriting one agent on a count. */
  lemma {:induction false} CountUpdate(p: seq<Agent>, k: nat, v: Agent, st: int)
    requires k < |p|
    ensures Count(p[k := v], st)
            == Count(p, st) - (if p[k].status == st then 1 else 0) + (if v.status == st then 1 else 0)
  {
    var n := |p|;
    if k == n - 1 {
      assert p[k := v][..n - 1] == p[..n - 1];
    } else {
      CountUpdate(p[..n - 1], k, v, st);
      assert p[k := v][..n - 1] == p[..n - 1][k := v];
    }
  }

  /**
   * The three counts of S, I and R add up to the number of agents exactly
   * when every code is one of the three statuses; otherwise they fall short.
   */
  lemma {:induction false} CountsCover(p: seq<Agent>)
    ensures Count(p, Susceptible) + Count(p, Infected) + Count(p, Recovered) <= |p|
    ensures Count(p, Susceptible) + Count(p, Infected) + Count(p, Recovered) == |p|
            <==> forall k :: 0 <= k < |p| ==> IsStatus(p[k].status)
  {
    if |p| > 0 {
      var q := p[..|p| - 1];
      CountsCover(q);
      if forall k :: 0 <= k < |q| ==> IsStatus(q[k].status) {
        if IsStatus(p[|p| - 1].status) {
          forall k | 0 <= k < |p| ensures IsStatus(p[k].status) {
            if k < |q| { assert p[k] == q[k]; }
          }
        }
      } else {
        var k :| 0 <= k < |q| && !IsStatus(q[k].status);
        assert p[k] == q[k];
      }
    }
  }

  /** Two populations whose agents agree on `st` have the same count of `st`. */
  lemma {:induction false} CountSame(p: seq<Agent>, q: seq<Agent>, st: int)
    requires |p| == |q|
    requires forall k :: 0 <= k < |p| ==> (p[k].status == st <==> q[k].status == st)
    ensures Count(p, st) == Count(q, st)
  {
    if |p| > 0 {
      CountSame(p[..|p| - 1], q[..|q| - 1], st);
    }
  }

  /** If every `st` agent of `q` is an `st` agent of `p`, `q` has no more of them. */
  lemma {:induction false} CountFewer(p: seq<Agent>, q: seq<Agent>, st: int)
    requires |p| == |q|
    requires forall k :: 0 <= k < |p| && q[k].status == st ==> p[k].status == st
    ensures Count(q, st) <= Count(p, st)
  {
    if |p| > 0 {
      CountFewer(p[..|p| - 1], q[..|q| - 1], st);
    }
  }

  // ---------------------------------------------------------------------
  // Draw oracles
  // ---------------------------------------------------------------------

  /** Number of successful outcomes among tests lo .. hi - 1. */
  function Hits(o: Oracle, lo: nat, hi: nat): (h: nat)
    ensures lo <= hi ==> h <= hi - lo
    decreases hi
  {
    if hi <= lo then 0 else Hits(o, lo, hi - 1) + (if o(hi - 1) then 1 else 0)
  }

  lemma HitsOne(o: Oracle, lo: nat)
    ensures Hits(o, lo, lo + 1) == if o(lo) then 1 else 0
  {
  }

  lemma {:induction false} HitsSplit(o: Oracle, lo: nat, mid: nat, hi: nat)
    requires lo <= mid <= hi
    ensures Hits(o, lo, hi) == Hits(o, lo, mid) + Hits(o, mid, hi)
    decreases hi
  {
    if mid < hi {
      HitsSplit(o, lo, mid, hi - 1);
    }
  }

  // ---------------------------------------------------------------------
  // The order S -> I -> R
  // ---------------------------------------------------------------------

  /**
   * `t` is reachable from `s` in zero or more moves along S -> I -> R;
   * a Recovered agent and a code outside 0..2 never move.
   */
  predicate Advanced(s: int, t: int)
  {
    s == t
    || (s == Susceptible && (t == Infected || t == Recovered))
    || (s == Infected && t == Recovered)
  }

  /** `t` is `s` or the single next status after `s`. */
  predicate OneStage(s: int, t: int)
  {
    s == t || (s == Susceptible && t == Infected) || (s == Infected && t == Recovered)
  }

  /** Same length and every agent at the same position. */
  predicate SamePlaces(p: seq<Agent>, q: seq<Agent>)
  {
    |p| == |q| && forall k :: 0 <= k < |p| ==> q[k].x == p[k].x && q[k].y == p[k].y
  }

  /** `q` is `p` with positions kept and each status moved forward only. */
  predicate Progressed(p: seq<Agent>, q: seq<Agent>)
  {
    SamePlaces(p, q) && forall k :: 0 <= k < |p| ==> Advanced(p[k].status, q[k].status)
  }

  /** `q` is `p` with positions kept and the only change Infected -> Recovered. */
  predicate OnlyRecoveries(p: seq<Agent>, q: seq<Agent>)
  {
    SamePlaces(p, q)
    && forall k :: 0 <= k < |p| ==>
         q[k].status == p[k].status || (p[k].status == Infected && q[k].status == Recovered)
  }

  lemma OnlyRecoveriesTrans(p: seq<Agent>, q: seq<Agent>, r: seq<Agent>)
    requires OnlyRecoveries(p, q) && OnlyRecoveries(q, r)
    ensures OnlyRecoveries(p, r)
  {
  }

  /** `q` is `p` with positions kept and the only change Susceptible -> Infected. */
  predicate OnlyInfections(p: seq<Agent>, q: seq<Agent>)
  {
    SamePlaces(p, q)
    && forall k :: 0 <= k < |p| ==>
         q[k].status == p[k].status || (p[k].status == Susceptible && q[k].status == Infected)
  }

  lemma OnlyInfectionsTrans(p: seq<Agent>, q: seq<Agent>, r: seq<Agent>)
    requires OnlyInfections(p, q) && OnlyInfections(q, r)
    ensures OnlyInfections(p, r)
  {
  }

  /** Agents that keep their positions keep their distances. */
  lemma SamePlacesDist(p: seq<Agent>, q: seq<Agent>, a: nat, b: nat)
    requires SamePlaces(p, q) && a < |p| && b < |p|
    ensures Dist2(q[a], q[b]) == Dist2(p[a], p[b])
  {
  }

  lemma ProgressedTrans(p: seq<Agent>, q: seq<Agent>, r: seq<Agent>)
    requires Progressed(p, q) && Progressed(q, r)
    ensures Progressed(p, r)
  {
  }

  /**
   * Moving statuses forward never adds Susceptible agents, never removes
   * Recovered ones, and keeps the number of agents with a valid code.
   */
  lemma {:induction false} ProgressedCounts(p: seq<Agent>, q: seq<Agent>)
    requires Progressed(p, q)
    ensures Count(q, Susceptible) <= Count(p, Susceptible)
    ensures Count(q, Recovered) >= Count(p, Recovered)
    ensures Count(q, Susceptible) + Count(q, Infected) + Count(q, Recovered)
            == Count(p, Susceptible) + Count(p, Infected) + Count(p, Recovered)
  {
    if |p| > 0 {
      ProgressedCounts(p[..|p| - 1], q[..|q| - 1]);
    }
  }

  // ---------------------------------------------------------------------
  // Seeding a population
  // ---------------------------------------------------------------------

  /** `(double) rand() / RAND_MAX`, in exact arithmetic. */
  function Uniform(r: nat): real
  {
    r as real / RandMax as real
  }

  /**
   * The agent the MPI programs create from three successive `rand()` values:
   * x, then y, then Infected when the third value mod 100 is below `percent`.
   */
  function Seeded(rx: nat, ry: nat, rs: nat, percent: nat): (a: Agent)
    requires rx <= RandMax && ry <= RandMax
    ensures 0.0 <= a.x <= 1.0 && 0.0 <= a.y <= 1.0
    ensures a.status == Susceptible || a.status == Infected
    ensures a.status == Infected <==> rs % 100 < percent
  {
    Agent(Uniform(rx), Uniform(ry), if rs % 100 < percent then Infected else Susceptible)
  }

  /**
   * Fills `p` in index order, reading three values of `rand` per agent from
   * position `c` on; returns the position of the next unread value.
   */
  method Seed(p: array<Agent>, rand: RandStream, c: nat, percent: nat) returns (next: nat)
    requires forall k :: rand(k) <= RandMax
    modifies p
    ensures next == c + 3 * p.Length
    ensures forall k :: 0 <= k < p.Length ==>
              p[k] == Seeded(rand(c + 3 * k), rand(c + 3 * k + 1), rand(c + 3 * k + 2), percent)
  {
    next := c;
    for i := 0 to p.Length
      invariant next == c + 3 * i
      invariant forall k :: 0 <= k < i ==>
                  p[k] == Seeded(rand(c + 3 * k), rand(c + 3 * k + 1), rand(c + 3 * k + 2), percent)
    {
      var x := Uniform(rand(next));
      var y := Uniform(rand(next + 1));
      var status := if rand(next + 2) % 100 < percent then Infected else Susceptible;
      p[i] := Agent(x, y, status);
      next := next + 3;
    }
  }
}
