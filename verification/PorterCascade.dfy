/** Which ports can finish, and when a finished one has lost rows to a `TRUNCATE ... CASCADE` during set-up. */
module PorterCascade {
  import opened Wrappers
  import opened Graph
  import opened PortRows
  import opened Sweep
  import opened PortSchedule
  import opened PortTable
  import opened PorterRuns

  // ----- Runs from one world to another -----

  ghost predicate Leads(plan: Plan, from: World, to: World) {
    exists worlds: seq<World> :: IsRun(plan, worlds) && worlds[0] == from && worlds[|worlds| - 1] == to
  }

  lemma LeadsNowhere(plan: Plan, w: World)
    ensures Leads(plan, w, w)
  {
    assert IsRun(plan, [w]);
  }

  lemma LeadsOn(plan: Plan, from: World, middle: World, to: World, step: Step)
    requires Leads(plan, from, middle) && Takes(plan, middle, to, step)
    ensures Leads(plan, from, to)
  {
    var worlds :| IsRun(plan, worlds) && worlds[0] == from && worlds[|worlds| - 1] == middle;
    var longer := worlds + [to];
    forall i | 0 < i < |longer|
      ensures Follows(plan, longer[i - 1], longer[i])
    {
      if i < |worlds| {
        assert Follows(plan, worlds[i - 1], worlds[i]);
      }
    }
    assert IsRun(plan, longer);
  }

  // ----- There is always a way to go on copying -----

  lemma {:induction false} NextExists(source: Source<Row>, from: int, direction: Direction, some: int)
    returns (next: int)
    requires some in source && direction.Along(from) <= direction.Along(some)
    ensures IsNext(source, from, direction, next)
    decreases direction.Along(some) - direction.Along(from)
  {
    if earlier: int :| earlier in source && direction.Along(from) <= direction.Along(earlier) < direction.Along(some) {
      next := NextExists(source, from, direction, earlier);
    } else {
      next := some;
    }
  }

  lemma {:induction false} BatchExists(source: Source<Row>, from: int, limit: nat, direction: Direction)
    returns (batch: seq<int>)
    ensures IsBatch(source, from, limit, direction, batch)
    decreases limit
  {
    if limit == 0 || NoneLeft(source, from, direction) {
      batch := [];
    } else {
      var some :| some in source && direction.Along(from) <= direction.Along(some);
      var next := NextExists(source, from, direction, some);
      var rest := BatchExists(source, direction.After(next), limit - 1, direction);
      batch := [next] + rest;
      assert batch[1..] == rest;
    }
  }

  lemma CopyStepExists(source: Source<Row>, port: Port<Row>, batchSize: nat) returns (after: Port<Row>)
    requires batchSize >= 1 && port.mark.backward < port.mark.forward && !Exhausted(source, port.mark)
    ensures CopyStep(source, port, after, batchSize)
    ensures after.mark.backward < after.mark.forward
    ensures Uncopied(source, after.mark.forward, after.mark.backward)
          < Uncopied(source, port.mark.forward, port.mark.backward)
  {
    var forward := BatchExists(source, port.mark.forward, batchSize, Forward);
    var backward := BatchExists(source, port.mark.backward, batchSize, Backward);
    after := Port(port.rows + multiset(Kept(source, forward + backward)),
                  Mark(AfterBatch(forward, port.mark.forward, Forward),
                       AfterBatch(backward, port.mark.backward, Backward)));
    assert CopiesBatches(source, port, after, batchSize, forward, backward);
    UncopiedShrinks(source, port.mark, batchSize, forward, backward);
    BatchMovesOn(source, port.mark.forward, batchSize, Forward, forward);
    BatchMovesOn(source, port.mark.backward, batchSize, Backward, backward);
  }

  /** Every table exists; every table that is set up has a sensible checkpoint. */
  ghost predicate Sound(plan: Plan, w: World) {
    && w.rows.Keys == plan.sources.Keys
    && (forall t <- w.marks :: w.marks[t].backward < w.marks[t].forward)
    && (w.phase.SettingUp? ==>
          && w.phase.pending <= plan.sources.Keys && w.phase.unmarked <= plan.sources.Keys
          && forall t <- plan.sources :: t in w.marks || t in w.phase.pending || t in w.phase.unmarked)
    && (w.phase.Copying? ==> plan.sources.Keys <= w.marks.Keys && w.phase.ported <= ToPort(plan))
  }

  /** Tables whose checkpoint says that nothing is left to copy stay as they are. */
  ghost predicate KeepsExhausted(plan: Plan, w: World, end: World) {
    forall x <- plan.sources | x in w.marks && x in w.rows && Exhausted(plan.sources[x], w.marks[x]) ::
      x in end.rows && x in end.marks && end.rows[x] == w.rows[x] && end.marks[x] == w.marks[x]
  }

  lemma {:induction false} CopyTable(plan: Plan, start: World, w: World, t: string) returns (end: World)
    requires plan.batchSize >= 1 && Sound(plan, w) && w.phase.Copying? && Leads(plan, start, w)
    requires t in Round(plan, w.phase.ported)
    ensures Leads(plan, start, end) && Sound(plan, end) && end.phase == w.phase
    ensures Exhausted(plan.sources[t], end.marks[t]) && KeepsExhausted(plan, w, end)
    decreases Uncopied(plan.sources[t], w.marks[t].forward, w.marks[t].backward)
  {
    if Exhausted(plan.sources[t], w.marks[t]) {
      return w;
    }
    var after := CopyStepExists(plan.sources[t], Port(w.rows[t], w.marks[t]), plan.batchSize);
    var next := World(w.rows[t := after.rows], w.marks[t := after.mark], w.phase);
    assert Takes(plan, w, next, Copy(t));
    LeadsOn(plan, start, w, next, Copy(t));
    end := CopyTable(plan, start, next, t);
  }

  ghost predicate AllExhausted(plan: Plan, w: World, tables: set<string>) {
    forall t <- tables :: t in plan.sources && t in w.marks && t in w.rows && Exhausted(plan.sources[t], w.marks[t])
  }

  lemma StayExhausted(plan: Plan, w: World, middle: World, end: World, tables: set<string>)
    requires KeepsExhausted(plan, w, middle)
    ensures AllExhausted(plan, w, tables) ==> AllExhausted(plan, middle, tables)
    ensures KeepsExhausted(plan, middle, end) ==> KeepsExhausted(plan, w, end)
  {
  }

  lemma MovedOver(done: set<string>, todo: set<string>, t: string)
    requires t in todo
    ensures done + {t} + (todo - {t}) == done + todo
  {
  }

  lemma {:induction false} CopyTables(plan: Plan, start: World, w: World, done: set<string>, todo: set<string>)
    returns (end: World)
    requires plan.batchSize >= 1 && Sound(plan, w) && w.phase.Copying? && Leads(plan, start, w)
    requires forall t <- todo :: t in Round(plan, w.phase.ported)
    requires AllExhausted(plan, w, done)
    ensures Leads(plan, start, end) && Sound(plan, end) && end.phase == w.phase && KeepsExhausted(plan, w, end)
    ensures AllExhausted(plan, end, done + todo)
    decreases todo
  {
    if todo == {} {
      assert done + todo == done;
      return w;
    }
    var t :| t in todo;
    var next := CopyTable(plan, start, w, t);
    StayExhausted(plan, w, next, next, done);
    end := CopyTables(plan, start, next, done + {t}, todo - {t});
    StayExhausted(plan, w, next, end, done);
    MovedOver(done, todo, t);
  }

  /** While every table is portable, each round ports at least one. */
  lemma {:induction false} CopyRounds(plan: Plan, start: World, w: World) returns (end: World)
    requires plan.batchSize >= 1 && AllPortable(plan)
    requires Sound(plan, w) && w.phase.Copying? && Leads(plan, start, w)
    ensures Leads(plan, start, end) && Sound(plan, end) && Finished(plan, end) && KeepsExhausted(plan, w, end)
    decreases ToPort(plan) - (if w.phase.Copying? then w.phase.ported else {})
  {
    if Finished(plan, w) {
      return w;
    }
    var ported := w.phase.ported;
    var round := Round(plan, ported);
    var some :| some in ToPort(plan) && some !in ported;
    if round == {} {
      NothingReady(ToPort(plan), Constraints(plan), ported, some);
    }
    var copied := CopyTables(plan, start, w, {}, round);
    assert {} + round == round;
    var next := World(copied.rows, copied.marks, Copying(ported + round));
    assert Takes(plan, copied, next, EndRound);
    LeadsOn(plan, start, copied, next, EndRound);
    end := CopyRounds(plan, start, next);
  }

  // ----- Set-up -----

  /** `a` keeps its checkpoint, and once emptied stays empty. */
  ghost predicate KeepsMark(w: World, next: World, a: string) {
    && a in w.marks && a in next.marks && next.marks[a] == w.marks[a]
    && a in w.rows && a in next.rows && (w.rows[a] == multiset{} ==> next.rows[a] == multiset{})
  }

  ghost predicate InSetUp(plan: Plan, w: World) {
    && Sound(plan, w) && w.phase.SettingUp? && w.phase.pending !! w.phase.unmarked
    && forall t <- w.phase.unmarked :: t !in plan.appendOnly
  }

  lemma ResumeOne(plan: Plan, w: World, t: string) returns (next: World)
    requires InSetUp(plan, w) && t in w.phase.pending && t in plan.appendOnly
    ensures Takes(plan, w, next, SetUp(t)) && InSetUp(plan, next) && next.phase.pending == w.phase.pending - {t}
    ensures forall a <- w.marks | a in plan.sources :: KeepsMark(w, next, a)
  {
    next := World(w.rows, if t in w.marks then w.marks else w.marks[t := START],
                  SettingUp(w.phase.pending - {t}, w.phase.unmarked));
    assert SetsUp(plan, w, next, t);
  }

  lemma TruncateOne(plan: Plan, w: World, t: string) returns (next: World)
    requires InSetUp(plan, w) && t in w.phase.pending && t !in plan.appendOnly
    ensures Takes(plan, w, next, SetUp(t)) && InSetUp(plan, next) && next.phase.pending == w.phase.pending - {t}
    ensures next.rows == Truncate(plan, w.rows, t) && next.marks == w.marks - {t}
  {
    next := World(Truncate(plan, w.rows, t), w.marks - {t}, SettingUp(w.phase.pending - {t}, w.phase.unmarked + {t}));
    assert SetsUp(plan, w, next, t);
  }

  lemma SetUpOne(plan: Plan, w: World, t: string, a: string) returns (next: World)
    requires InSetUp(plan, w) && t in w.phase.pending
    ensures Takes(plan, w, next, SetUp(t)) && InSetUp(plan, next) && next.phase.pending == w.phase.pending - {t}
    ensures a in plan.appendOnly && a in plan.sources && a in w.marks ==>
              && KeepsMark(w, next, a)
              && (t !in plan.appendOnly && Reaches(plan.references, a, t) ==> next.rows[a] == multiset{})
  {
    if t in plan.appendOnly {
      next := ResumeOne(plan, w, t);
    } else {
      next := TruncateOne(plan, w, t);
    }
  }

  lemma InsertOne(plan: Plan, w: World, t: string) returns (next: World)
    requires InSetUp(plan, w) && t in w.phase.unmarked
    ensures Takes(plan, w, next, InsertMark(t)) && InSetUp(plan, next)
    ensures next.phase == SettingUp(w.phase.pending, w.phase.unmarked - {t})
    ensures forall a <- w.marks | a in plan.appendOnly && a in plan.sources :: KeepsMark(w, next, a)
  {
    next := World(w.rows, w.marks[t := START], SettingUp(w.phase.pending, w.phase.unmarked - {t}));
    assert Marks(plan, w, next, t);
  }

  lemma {:induction false} SetUpTables(plan: Plan, start: World, w: World, a: string, b: string) returns (end: World)
    requires InSetUp(plan, w) && Leads(plan, start, w)
    ensures Leads(plan, start, end) && Sound(plan, end) && end.phase == SettingUp({}, {})
    ensures a in plan.appendOnly && a in plan.sources && a in w.marks ==>
              && KeepsMark(w, end, a)
              && (b in w.phase.pending && b !in plan.appendOnly && Reaches(plan.references, a, b)
                  ==> end.rows[a] == multiset{})
    decreases w.phase.pending, w.phase.unmarked
  {
    if w.phase.pending != {} {
      var t :| t in w.phase.pending;
      var next := SetUpOne(plan, w, t, a);
      LeadsOn(plan, start, w, next, SetUp(t));
      end := SetUpTables(plan, start, next, a, b);
    } else if w.phase.unmarked != {} {
      var t :| t in w.phase.unmarked;
      var next := InsertOne(plan, w, t);
      LeadsOn(plan, start, w, next, InsertMark(t));
      end := SetUpTables(plan, start, next, a, b);
    } else {
      end := w;
    }
  }

  /** If every table is portable, a run can be brought to its end from the beginning of set-up. If the checkpoint of
      `a` says that nothing is left, then whatever set-up took away from `a` does not come back. */
  lemma RunToEnd(plan: Plan, start: World, w: World, a: string, b: string) returns (end: World)
    requires plan.batchSize >= 1 && AllPortable(plan)
    requires Sound(plan, w) && w.phase == SettingUp(plan.sources.Keys, {}) && Leads(plan, start, w)
    ensures Leads(plan, start, end) && Sound(plan, end) && Finished(plan, end)
    ensures && a in plan.appendOnly && a in plan.sources && a in w.marks && Exhausted(plan.sources[a], w.marks[a])
            && b in plan.sources && b !in plan.appendOnly && Reaches(plan.references, a, b)
            ==> end.rows[a] == multiset{}
  {
    var ready := SetUpTables(plan, start, w, a, b);
    var copying := World(ready.rows, ready.marks, Copying({}));
    assert Takes(plan, ready, copying, BeginCopying);
    LeadsOn(plan, start, ready, copying, BeginCopying);
    end := CopyRounds(plan, start, copying);
  }

  /** A port can be brought to its end if and only if no table to port reaches a cycle of foreign keys or a table that
      is not to be ported. */
  lemma FinishesExactly(plan: Plan)
    requires plan.batchSize >= 1
    ensures (exists worlds :: FinishedRun(plan, worlds)) <==> AllPortable(plan)
  {
    if AllPortable(plan) {
      var empty := Fresh(plan);
      LeadsNowhere(plan, empty);
      var end := RunToEnd(plan, empty, empty, "", "");
      var worlds :| IsRun(plan, worlds) && worlds[0] == empty && worlds[|worlds| - 1] == end;
      assert FinishedRun(plan, worlds);
    }
    forall worlds | FinishedRun(plan, worlds)
      ensures AllPortable(plan)
    {
      FinishedMeansPortable(plan, worlds);
    }
  }

  /** Two tables that reference each other: no run ever ends, however the porter is restarted. */
  lemma CycleNeverFinishes(sources: map<string, Source<Row>>, appendOnly: set<string>, batchSize: nat)
    requires sources.Keys == {"a", "b"}
    ensures var plan := Plan(sources, appendOnly, {}, map["a" := {"b"}, "b" := {"a"}], batchSize);
            forall worlds :: !FinishedRun(plan, worlds)
  {
    var plan := Plan(sources, appendOnly, {}, map["a" := {"b"}, "b" := {"a"}], batchSize);
    var g := Needed(ToPort(plan), Constraints(plan));
    assert ToPort(plan) == {"a", "b"};
    assert Edge(g, "a", "b") && Edge(g, "b", "a");
    assert OnCycle(g, "a") by {
      assert PathFromTo(g, ["a", "b", "a"], "a", "a");
    }
    ReachesItself(g, "a");
    assert !Portable(g, "a");
    forall worlds | FinishedRun(plan, worlds)
      ensures false
    {
      FinishedMeansPortable(plan, worlds);
    }
  }

  /** In a world reached by a finished run, every ported table's checkpoint says that nothing is left. */
  lemma {:induction false} FinishedIsExhausted(plan: Plan, worlds: seq<World>, i: nat, t: string)
    requires IsRun(plan, worlds) && worlds[0] == Fresh(plan) && i < |worlds| && t in plan.sources
    ensures worlds[i].phase.Copying? && t in worlds[i].phase.ported ==>
              t in worlds[i].marks && Exhausted(plan.sources[t], worlds[i].marks[t])
  {
    if i > 0 {
      FinishedIsExhausted(plan, worlds, i - 1, t);
      assert Follows(plan, worlds[i - 1], worlds[i]);
    }
  }

  /** Porting again after a finished port empties an append-only table that references a truncated one. */
  lemma CascadeLosesRows(plan: Plan, a: string, b: string) returns (worlds: seq<World>)
    requires plan.batchSize >= 1 && AllPortable(plan) && IsPorted(plan, a) && a in plan.appendOnly
    requires b in plan.sources && b !in plan.appendOnly && Reaches(plan.references, a, b)
    ensures FinishedRun(plan, worlds)
    ensures a in worlds[|worlds| - 1].rows && worlds[|worlds| - 1].rows[a] == multiset{}
  {
    var empty := Fresh(plan);
    LeadsNowhere(plan, empty);
    var first := RunToEnd(plan, empty, empty, a, b);
    assert Exhausted(plan.sources[a], first.marks[a]) by {
      var run :| IsRun(plan, run) && run[0] == empty && run[|run| - 1] == first;
      assert a in ToPort(plan);
      FinishedIsExhausted(plan, run, |run| - 1, a);
    }
    var again := World(first.rows, first.marks, SettingUp(plan.sources.Keys, {}));
    assert Takes(plan, first, again, Restart);
    LeadsOn(plan, empty, first, again, Restart);
    var second := RunToEnd(plan, empty, again, a, b);
    worlds :| IsRun(plan, worlds) && worlds[0] == empty && worlds[|worlds| - 1] == second;
  }

  /** For a table with at least one row that is not dropped: every finished run, whatever interruptions it had, copied
      the table exactly, if and only if no cascade can reach the table past its checkpoint or no run finishes at all. */
  lemma ExactlyOnceExactly(plan: Plan, t: string, id: int)
    requires plan.batchSize >= 1 && IsPorted(plan, t) && id in plan.sources[t] && plan.sources[t][id].Some?
    ensures (forall worlds | FinishedRun(plan, worlds) :: Exact(plan, worlds[|worlds| - 1], t))
       <==> CascadeSafe(plan, t) || !AllPortable(plan)
  {
    forall worlds | FinishedRun(plan, worlds) && CascadeSafe(plan, t)
      ensures Exact(plan, worlds[|worlds| - 1], t)
    {
      FinishedRunIsExact(plan, worlds, t);
    }
    forall worlds | FinishedRun(plan, worlds)
      ensures AllPortable(plan)
    {
      FinishedMeansPortable(plan, worlds);
    }
    if !CascadeSafe(plan, t) && AllPortable(plan) {
      var b :| b in plan.sources && b !in plan.appendOnly && Reaches(plan.references, t, b);
      var worlds := CascadeLosesRows(plan, t, b);
      LostRow(plan, worlds[|worlds| - 1], t, id);
    }
  }

  lemma LostRow(plan: Plan, w: World, t: string, id: int)
    requires t in plan.sources && id in plan.sources[t] && plan.sources[t][id].Some?
    requires t in w.rows && w.rows[t] == multiset{}
    ensures !Exact(plan, w, t)
  {
    var row := plan.sources[t][id].value;
    var matching := set other <- plan.sources[t] | plan.sources[t][other] == Some(row);
    assert id in matching && |matching| != 0;
    assert w.rows[t][row] == 0;
  }
}
