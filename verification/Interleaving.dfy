// Why the order of the lanes does not matter: any schedule of half-iterations over disjoint
// lanes of one memory gives each lane what it would have computed alone.
module Interleaving {
  import opened Words
  import opened CryptoNight

  // One lane's registers; its scratchpad is in the shared memory.
  datatype Core = Core(al: Word64, ah: Word64, bx: Block, idx: Word64)

  datatype Machine = Machine(memory: seq<Block>, cores: seq<Core>)

  // The lanes start at the blocks in l, inside memory and without overlap.
  predicate Sized(c: Config, l: seq<nat>, m: Machine) {
    |m.cores| == |l| && Disjoint(l, c.Blocks(), |m.memory|)
  }

  function LaneAt(c: Config, l: seq<nat>, m: Machine, k: nat): (lane: Lane)
    requires Sized(c, l, m) && k < |l|
    ensures |lane.pad| == c.Blocks()
  {
    Lane(Pad(m.memory, l[k], c.Blocks()), m.cores[k].al, m.cores[k].ah, m.cores[k].bx, m.cores[k].idx)
  }

  // Half an iteration: encrypting and multiplying take turns.
  function HalfStep(p: Primitives, c: Config, lane: Lane, t: nat): (r: Lane)
    requires |lane.pad| == c.Blocks()
    ensures |r.pad| == c.Blocks()
  {
    if t % 2 == 0 then EncryptStep(p, c, lane) else MultiplyStep(c, lane)
  }

  // t half-iterations of a lane on its own.
  function Alone(p: Primitives, c: Config, lane: Lane, t: nat): (r: Lane)
    requires |lane.pad| == c.Blocks()
    ensures |r.pad| == c.Blocks()
  {
    if t == 0 then lane else HalfStep(p, c, Alone(p, c, lane, t - 1), t - 1)
  }

  // The t-th half-iteration of lane k, in the shared memory.
  function Step(p: Primitives, c: Config, l: seq<nat>, m: Machine, k: nat, t: nat): (r: Machine)
    requires Sized(c, l, m) && k < |l|
    ensures |r.memory| == |m.memory| && Sized(c, l, r)
  {
    var lane := HalfStep(p, c, LaneAt(c, l, m, k), t);
    Machine(m.memory[..l[k]] + lane.pad + m.memory[l[k] + c.Blocks()..],
            m.cores[k := Core(lane.al, lane.ah, lane.bx, lane.idx)])
  }

  // How often lane k has its turn.
  function Turns(schedule: seq<nat>, k: nat): nat {
    if schedule == [] then 0
    else
      var n := |schedule| - 1;
      Turns(schedule[..n], k) + if schedule[n] == k then 1 else 0
  }

  function Run(p: Primitives, c: Config, l: seq<nat>, m: Machine, schedule: seq<nat>): (r: Machine)
    requires Sized(c, l, m) && forall i | 0 <= i < |schedule| :: schedule[i] < |l|
    ensures |r.memory| == |m.memory| && Sized(c, l, r)
  {
    if schedule == [] then m
    else
      var n := |schedule| - 1;
      Step(p, c, l, Run(p, c, l, m, schedule[..n]), schedule[n], Turns(schedule[..n], schedule[n]))
  }

  // A step changes its own lane and no other.
  lemma StepOnLanes(p: Primitives, c: Config, l: seq<nat>, m: Machine, k: nat, t: nat, j: nat)
    requires Sized(c, l, m) && k < |l| && j < |l|
    ensures LaneAt(c, l, Step(p, c, l, m, k, t), j)
         == if j == k then HalfStep(p, c, LaneAt(c, l, m, k), t) else LaneAt(c, l, m, j)
  {
    hide HalfStep;
    var w, lane, r := c.Blocks(), HalfStep(p, c, LaneAt(c, l, m, k), t), Step(p, c, l, m, k, t);
    if j == k {
      assert r.memory[l[k]..l[k] + w] == lane.pad;
    } else {
      assert l[j] + w <= l[k] || l[k] + w <= l[j];
      assert r.memory[l[j]..l[j] + w] == m.memory[l[j]..l[j] + w];
    }
  }

  // Whatever the schedule, every lane ends where its own turns alone would have taken it.
  lemma {:induction false} AnySchedule(p: Primitives, c: Config, l: seq<nat>, m: Machine, schedule: seq<nat>, j: nat)
    requires Sized(c, l, m) && j < |l| && forall i | 0 <= i < |schedule| :: schedule[i] < |l|
    ensures LaneAt(c, l, Run(p, c, l, m, schedule), j) == Alone(p, c, LaneAt(c, l, m, j), Turns(schedule, j))
    decreases |schedule|
  {
    hide Step, HalfStep, LaneAt;
    if schedule != [] {
      var n := |schedule| - 1;
      var before := Run(p, c, l, m, schedule[..n]);
      AnySchedule(p, c, l, m, schedule[..n], j);
      StepOnLanes(p, c, l, before, schedule[n], Turns(schedule[..n], schedule[n]), j);
    }
  }

  // Two half-iterations are one iteration of the specification.
  lemma {:induction false} AloneIsRunLane(p: Primitives, c: Config, lane: Lane, n: nat)
    requires |lane.pad| == c.Blocks()
    ensures Alone(p, c, lane, 2 * n) == RunLane(p, c, lane, n)
  {
    hide EncryptStep, MultiplyStep;
    if n > 0 {
      AloneIsRunLane(p, c, lane, n - 1);
      assert Alone(p, c, lane, 2 * n - 1) == HalfStep(p, c, Alone(p, c, lane, 2 * n - 2), 2 * n - 2);
    }
  }

  // So a schedule that gives every lane its iterations runs every lane as the single hash does.
  lemma FullSchedule(p: Primitives, c: Config, l: seq<nat>, m: Machine, schedule: seq<nat>, j: nat)
    requires Sized(c, l, m) && j < |l| && forall i | 0 <= i < |schedule| :: schedule[i] < |l|
    requires Turns(schedule, j) == 2 * c.iterations
    ensures LaneAt(c, l, Run(p, c, l, m, schedule), j) == RunLane(p, c, LaneAt(c, l, m, j), c.iterations)
  {
    AnySchedule(p, c, l, m, schedule, j);
    AloneIsRunLane(p, c, LaneAt(c, l, m, j), c.iterations);
  }
}
