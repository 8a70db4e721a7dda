/**
 * `add_block` and `revert_blocks` run concurrently: each takes its locks one section at a time
 * (testing/common/mod.rs:96-194), so calls interleave between sections.
 */
module TestNodeRaces {
  import opened TestNode

  /** Where a call stands: the lock section it runs next, with what it carries across sections. */
  datatype Task =
    | AddCheck(b: Block)             // parent lookup under the read lock
    | AddInsert(b: Block)            // duplicate check and insert
    | AddTip(b: Block)               // best_hash and best_height
    | AddUtxos(b: Block)             // UTXO update
    | RevertRead(left: nat)          // best_hash under the read lock
    | RevertFetch(left: nat, h: Hash)
    | RevertUtxos(left: nat, b: Block)
    | RevertTip(left: nat, b: Block)
    | Returned(ok: bool)

  datatype System = System(node: State, tasks: seq<Task>)

  predicate ParentKnown(s: State, b: Block) { b.slot > 0 ==> Known(s, b.prevHash) }

  /** One lock section of a call. */
  function Section(s: State, t: Task): (State, Task) {
    match t
    case AddCheck(b) => (s, if ParentKnown(s, b) then AddInsert(b) else Returned(false))
    case AddInsert(b) =>
      if b.hash in s.blocks then (s, Returned(false)) else (s.(blocks := s.blocks[b.hash := b]), AddTip(b))
    case AddTip(b) => (s.(bestHash := b.hash, bestHeight := b.slot), AddUtxos(b))
    case AddUtxos(b) => (s.(utxos := ApplyBlock(s.utxos, b)), Returned(true))
    case RevertRead(left) => (s, if left == 0 then Returned(true) else RevertFetch(left, s.bestHash))
    case RevertFetch(left, h) => (s, if h in s.blocks then RevertUtxos(left, s.blocks[h]) else Returned(false))
    case RevertUtxos(left, b) => (s.(utxos := s.utxos - Outputs(b)), RevertTip(left, b))
    case RevertTip(left, b) =>
      (s.(bestHash := b.prevHash, bestHeight := if s.bestHeight == 0 then 0 else s.bestHeight - 1),
       RevertRead(if left == 0 then 0 else left - 1))
    case Returned(ok) => (s, t)
  }

  function Step(y: System, i: nat): System {
    if i >= |y.tasks| then y
    else
      var (s, t) := Section(y.node, y.tasks[i]);
      System(s, y.tasks[i := t])
  }

  /** A schedule names the call that runs its next section. */
  function Run(y: System, schedule: seq<nat>): System
    decreases |schedule|
  {
    if schedule == [] then y else Run(Step(y, schedule[0]), schedule[1..])
  }

  predicate Calls(tasks: seq<Task>) { forall i :: 0 <= i < |tasks| ==> tasks[i].RevertRead? || tasks[i].AddCheck? }

  const NOTHING := State(map[], ZERO, 0, map[])

  /** A slot-0 block, whose parent nobody checks, starts a chain or names itself. */
  predicate GenesisRooted(b: Block) { b.slot == 0 ==> b.prevHash == ZERO || b.prevHash == b.hash }

  predicate AllRooted(tasks: seq<Task>) {
    forall i :: 0 <= i < |tasks| && tasks[i].AddCheck? ==> GenesisRooted(tasks[i].b)
  }

  /** Every stored block has its parent stored, or starts a chain. */
  predicate Ancestry(s: State) {
    forall h :: h in s.blocks ==> Known(s, s.blocks[h].prevHash)
  }

  predicate TipKnown(s: State) { Known(s, s.bestHash) }

  /** What a call relies on between its sections. */
  predicate TaskOk(s: State, t: Task) {
    match t
    case AddCheck(b) => GenesisRooted(b)
    case AddInsert(b) => Known(s, b.prevHash) || b.prevHash == b.hash
    case AddTip(b) => b.hash in s.blocks
    case RevertUtxos(_, b) => Known(s, b.prevHash)
    case RevertTip(_, b) => Known(s, b.prevHash)
    case _ => true
  }

  predicate Safe(y: System) {
    Ancestry(y.node) && TipKnown(y.node) && forall i :: 0 <= i < |y.tasks| ==> TaskOk(y.node, y.tasks[i])
  }

  predicate Grown(s: State, r: State) {
    forall h :: h in s.blocks ==> h in r.blocks && r.blocks[h] == s.blocks[h]
  }

  lemma SectionSafe(s: State, t: Task)
    requires Ancestry(s) && TipKnown(s) && TaskOk(s, t)
    ensures var (r, u) := Section(s, t); Ancestry(r) && TipKnown(r) && TaskOk(r, u) && Grown(s, r)
  {
    hide ApplyBlock, Outputs;
  }

  lemma StepSafe(y: System, i: nat)
    requires Safe(y)
    ensures Safe(Step(y, i)) && Grown(y.node, Step(y, i).node)
  {
    hide Section;
    if i < |y.tasks| {
      SectionSafe(y.node, y.tasks[i]);
      var z := Step(y, i);
      forall j | 0 <= j < |z.tasks| ensures TaskOk(z.node, z.tasks[j]) {
        if j != i { assert TaskOk(y.node, y.tasks[j]); }
      }
    }
  }

  /** Under every schedule the tip is stored or zero, every stored block has its ancestry, nothing is dropped. */
  lemma {:induction false} RunSafe(y: System, schedule: seq<nat>)
    requires Safe(y)
    ensures Safe(Run(y, schedule)) && Grown(y.node, Run(y, schedule).node)
    decreases |schedule|
  {
    if schedule != [] {
      hide Safe, Step;
      StepSafe(y, schedule[0]);
      RunSafe(Step(y, schedule[0]), schedule[1..]);
    }
  }

  lemma ConcurrentCallsSafe(tasks: seq<Task>, schedule: seq<nat>)
    requires Calls(tasks) && AllRooted(tasks)
    ensures var r := Run(System(NOTHING, tasks), schedule).node; TipKnown(r) && Ancestry(r)
  {
    var y := System(NOTHING, tasks);
    assert Safe(y);
    RunSafe(y, schedule);
  }

  // ----- parents, for any blocks whatever -----

  /** Every stored block with a non-zero slot has a stored parent or a zero one. */
  predicate Parents(s: State) { forall h :: h in s.blocks ==> ParentKnown(s, s.blocks[h]) }

  predicate TaskParents(s: State, t: Task) { t.AddInsert? ==> ParentKnown(s, t.b) }

  predicate Rooted(y: System) { Parents(y.node) && forall i :: 0 <= i < |y.tasks| ==> TaskParents(y.node, y.tasks[i]) }

  lemma SectionParents(s: State, t: Task)
    requires Parents(s) && TaskParents(s, t)
    ensures var (r, u) := Section(s, t); Parents(r) && TaskParents(r, u) && Grown(s, r)
  {
    hide ApplyBlock, Outputs;
  }

  lemma StepParents(y: System, i: nat)
    requires Rooted(y)
    ensures Rooted(Step(y, i))
  {
    hide Section;
    if i < |y.tasks| {
      SectionParents(y.node, y.tasks[i]);
      var z := Step(y, i);
      forall j | 0 <= j < |z.tasks| ensures TaskParents(z.node, z.tasks[j]) {
        if j != i { assert TaskParents(y.node, y.tasks[j]); }
      }
    }
  }

  lemma {:induction false} RunParents(y: System, schedule: seq<nat>)
    requires Rooted(y)
    ensures Rooted(Run(y, schedule))
    decreases |schedule|
  {
    if schedule != [] {
      hide Rooted, Step;
      StepParents(y, schedule[0]);
      RunParents(Step(y, schedule[0]), schedule[1..]);
    }
  }

  /** Under every schedule of any concurrent calls, on any blocks, the parents are stored. */
  lemma ConcurrentCallsParents(tasks: seq<Task>, schedule: seq<nat>)
    requires Calls(tasks)
    ensures Parents(Run(System(NOTHING, tasks), schedule).node)
  {
    RunParents(System(NOTHING, tasks), schedule);
  }

  // ----- when the tip is known -----

  predicate Reverts(tasks: seq<Task>) { exists j :: 0 <= j < |tasks| && tasks[j].RevertRead? && tasks[j].left > 0 }

  /** A call that takes no block off keeps the tip on a stored block. */
  predicate Adding(s: State, t: Task) {
    match t
    case AddTip(b) => b.hash in s.blocks
    case RevertRead(left) => left == 0
    case RevertFetch(_, _) => false
    case RevertUtxos(_, _) => false
    case RevertTip(_, _) => false
    case _ => true
  }

  predicate OnlyAdds(y: System) { TipKnown(y.node) && forall i :: 0 <= i < |y.tasks| ==> Adding(y.node, y.tasks[i]) }

  lemma SectionAdds(s: State, t: Task)
    requires TipKnown(s) && Adding(s, t)
    ensures var (r, u) := Section(s, t); TipKnown(r) && Adding(r, u) && Grown(s, r)
  {
    hide ApplyBlock, Outputs;
  }

  lemma StepAdds(y: System, i: nat)
    requires OnlyAdds(y)
    ensures OnlyAdds(Step(y, i))
  {
    hide Section;
    if i < |y.tasks| {
      SectionAdds(y.node, y.tasks[i]);
      var z := Step(y, i);
      forall j | 0 <= j < |z.tasks| ensures Adding(z.node, z.tasks[j]) {
        if j != i { assert Adding(y.node, y.tasks[j]); }
      }
    }
  }

  lemma {:induction false} RunAdds(y: System, schedule: seq<nat>)
    requires OnlyAdds(y)
    ensures TipKnown(Run(y, schedule).node)
    decreases |schedule|
  {
    if schedule != [] {
      StepAdds(y, schedule[0]);
      hide OnlyAdds, Step;
      RunAdds(Step(y, schedule[0]), schedule[1..]);
    }
  }

  function Four(y: System, i: nat): System { Step(Step(Step(Step(y, i), i), i), i) }

  /** An add and a revert by turns leave the tip on the block's parent. */
  lemma TipLost(tasks: seq<Task>, i: nat, j: nat)
    requires i < |tasks| && tasks[i].AddCheck? && tasks[i].b.slot == 0
    requires j < |tasks| && tasks[j].RevertRead? && tasks[j].left > 0
    ensures var r := Run(System(NOTHING, tasks), [i, i, i, i, j, j, j, j]).node;
            r.blocks.Keys == {tasks[i].b.hash} && r.bestHash == tasks[i].b.prevHash
  {
    var y0 := System(NOTHING, tasks);
    var y4 := Four(y0, i);
    AddFour(y0, i);
    RevertFour(y4, j);
    hide Four;
    RunFour(y0, i, [j, j, j, j]);
    RunFour(y4, j, []);
    assert [i, i, i, i] + [j, j, j, j] == [i, i, i, i, j, j, j, j] && [j, j, j, j] + [] == [j, j, j, j];
  }

  lemma AddFour(y: System, i: nat)
    requires y.node == NOTHING && i < |y.tasks| && y.tasks[i].AddCheck? && y.tasks[i].b.slot == 0
    ensures var b, z := y.tasks[i].b, Four(y, i);
            && z.tasks == y.tasks[i := Returned(true)]
            && z.node.blocks == map[b.hash := b] && z.node.bestHash == b.hash
  {
    hide ApplyBlock, Outputs;
  }

  lemma RevertFour(y: System, j: nat)
    requires j < |y.tasks| && y.tasks[j].RevertRead? && y.tasks[j].left > 0 && y.node.bestHash in y.node.blocks
    ensures var z := Four(y, j).node;
            z.blocks == y.node.blocks && z.bestHash == y.node.blocks[y.node.bestHash].prevHash
  {
    hide ApplyBlock, Outputs;
  }

  lemma RunFour(y: System, i: nat, rest: seq<nat>)
    ensures Run(y, [i, i, i, i] + rest) == Run(Four(y, i), rest)
  {
    hide Step, Run;
    RunFirst(y, i, [i, i, i] + rest);
    RunFirst(Step(y, i), i, [i, i] + rest);
    RunFirst(Step(Step(y, i), i), i, [i] + rest);
    RunFirst(Step(Step(Step(y, i), i), i), i, rest);
    assert [i, i, i, i] + rest == [i] + ([i, i, i] + rest);
    assert [i, i, i] + rest == [i] + ([i, i] + rest);
    assert [i, i] + rest == [i] + ([i] + rest);
  }

  lemma RunFirst(y: System, i: nat, rest: seq<nat>)
    ensures Run(y, [i] + rest) == Run(Step(y, i), rest)
  {
    hide Step;
    assert ([i] + rest)[1..] == rest;
  }

  /**
   * Calls keep the tip known under every schedule exactly when none of them takes a block off, or every
   * slot-0 block among them starts a chain or names itself.
   */
  lemma TipExact(tasks: seq<Task>)
    requires Calls(tasks)
    ensures (forall schedule :: TipKnown(Run(System(NOTHING, tasks), schedule).node))
            <==> !Reverts(tasks) || AllRooted(tasks)
  {
    var y := System(NOTHING, tasks);
    if !Reverts(tasks) {
      assert OnlyAdds(y);
      forall schedule ensures TipKnown(Run(y, schedule).node) { RunAdds(y, schedule); }
    } else if AllRooted(tasks) {
      forall schedule ensures TipKnown(Run(y, schedule).node) { ConcurrentCallsSafe(tasks, schedule); }
    } else {
      var i: nat :| i < |tasks| && tasks[i].AddCheck? && !GenesisRooted(tasks[i].b);
      var j: nat :| j < |tasks| && tasks[j].RevertRead? && tasks[j].left > 0;
      TipLost(tasks, i, j);
      assert !TipKnown(Run(y, [i, i, i, i, j, j, j, j]).node);
    }
  }

  /** They keep every stored block's parent stored, slot-0 blocks included, exactly when those are rooted. */
  lemma AncestryExact(tasks: seq<Task>)
    requires Calls(tasks)
    ensures (forall schedule :: Ancestry(Run(System(NOTHING, tasks), schedule).node)) <==> AllRooted(tasks)
  {
    var y := System(NOTHING, tasks);
    if AllRooted(tasks) {
      forall schedule ensures Ancestry(Run(y, schedule).node) { ConcurrentCallsSafe(tasks, schedule); }
    } else {
      var i: nat :| i < |tasks| && tasks[i].AddCheck? && !GenesisRooted(tasks[i].b);
      AddFour(y, i);
      hide Four;
      RunFour(y, i, []);
      assert [i, i, i, i] + [] == [i, i, i, i];
      assert !Ancestry(Run(y, [i, i, i, i]).node);
    }
  }

  // ----- a call that runs alone -----

  function Steps(n: nat): seq<nat> { if n == 0 then [] else [0] + Steps(n - 1) }

  /** Its sections run back to back are the sequential `add_block`. */
  lemma AddAlone(s: State, b: Block)
    ensures var y := Run(System(s, [AddCheck(b)]), [0, 0, 0, 0]);
            y == System(if Admits(s, b) then Added(s, b) else s, [Returned(Admits(s, b))])
  {
    hide ApplyBlock, Outputs;
    var y0 := System(s, [AddCheck(b)]);
    var y1 := Step(y0, 0);
    var y2 := Step(y1, 0);
    var y3 := Step(y2, 0);
    var y4 := Step(y3, 0);
    assert Run(y0, [0, 0, 0, 0]) == Run(y1, [0, 0, 0]) == Run(y2, [0, 0]) == Run(y3, [0]) == Run(y4, []);
  }

  lemma {:induction false} RevertAlone(s: State, n: nat)
    ensures exists k: nat ::
              Run(System(s, [RevertRead(n)]), Steps(k)) == System(Reverted(s, n).0, [Returned(Reverted(s, n).1)])
    decreases n
  {
    hide Outputs;
    var y0 := System(s, [RevertRead(n)]);
    var y1 := Step(y0, 0);
    if n == 0 {
      RunOne(y0, 0);
    } else if s.bestHash !in s.blocks {
      var y2 := Step(y1, 0);
      RunOne(y1, 0);
      RunOne(y0, 1);
    } else {
      var b := s.blocks[s.bestHash];
      var y4 := System(RevertedOne(s, b), [RevertRead(n - 1)]);
      assert Step(Step(Step(y1, 0), 0), 0) == y4;
      RevertAlone(RevertedOne(s, b), n - 1);
      var k: nat :| Run(y4, Steps(k)) == System(Reverted(s, n).0, [Returned(Reverted(s, n).1)]);
      RunOne(Step(Step(y1, 0), 0), k);
      RunOne(Step(y1, 0), k + 1);
      RunOne(y1, k + 2);
      RunOne(y0, k + 3);
    }
  }

  lemma RunOne(y: System, k: nat)
    ensures Run(y, Steps(k + 1)) == Run(Step(y, 0), Steps(k))
  {
    assert Steps(k + 1)[1..] == Steps(k);
  }
}
