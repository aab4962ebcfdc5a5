/** Whole runs of the database porter over many tables: set-up, copying, crashes between any two transactions and
    restarts (`setup_table` and `run` in synapse/_scripts/synapse_port_db.py). */
module PorterRuns {
  import opened Wrappers
  import opened Graph
  import opened PortRows
  import opened Sweep
  import opened PortSchedule
  import opened PortTable

  /** The fixed surroundings of a port: the SQLite tables as converted, and how Postgres relates them. */
  datatype Plan = Plan(
    sources: map<string, Source<Row>>,
    appendOnly: set<string>,
    ignored: set<string>,
    references: Graph<string>,
    batchSize: nat
  )

  /** Set-up works through the tables in any order; a truncated table gets its checkpoint in a second transaction.
      Copying goes in rounds and remembers the tables of the rounds before. */
  datatype Phase =
    | SettingUp(pending: set<string>, unmarked: set<string>)
    | Copying(ported: set<string>)

  /** The Postgres tables, the rows of `port_from_sqlite3`, and where the running process is. */
  datatype World = World(rows: map<string, multiset<Row>>, marks: map<string, Mark>, phase: Phase)

  datatype Step =
    | Restart
    | SetUp(table: string)
    | InsertMark(table: string)
    | BeginCopying
    | Copy(table: string)
    | EndRound

  /** `TRUNCATE ... CASCADE`: also empties every table that references the truncated one, however indirectly. */
  ghost function Truncate(plan: Plan, rows: map<string, multiset<Row>>, table: string): map<string, multiset<Row>> {
    map t <- rows :: if Reaches(plan.references, t, table) then multiset{} else rows[t]
  }

  ghost predicate SetsUp(plan: Plan, w: World, next: World, t: string) {
    && w.phase.SettingUp? && t in w.phase.pending
    && next == if t in plan.appendOnly then
         World(w.rows, if t in w.marks then w.marks else w.marks[t := START],
               SettingUp(w.phase.pending - {t}, w.phase.unmarked))
       else
         World(Truncate(plan, w.rows, t), w.marks - {t}, SettingUp(w.phase.pending - {t}, w.phase.unmarked + {t}))
  }

  ghost predicate Marks(plan: Plan, w: World, next: World, t: string) {
    && w.phase.SettingUp? && t in w.phase.unmarked
    && next == World(w.rows, w.marks[t := START], SettingUp(w.phase.pending, w.phase.unmarked - {t}))
  }

  predicate IsPorted(plan: Plan, t: string) {
    t in plan.sources && t !in plan.ignored
  }

  function ToPort(plan: Plan): set<string> {
    set t <- plan.sources | IsPorted(plan, t)
  }

  /** The foreign keys the scheduler looks at: those to another table. */
  function Constraints(plan: Plan): map<string, set<string>> {
    map t <- plan.references :: plan.references[t] - {t}
  }

  /** The tables being copied side by side once those in `ported` are done. */
  function Round(plan: Plan, ported: set<string>): set<string> {
    Ready(ToPort(plan), Constraints(plan), ported)
  }

  ghost predicate Copies(plan: Plan, w: World, next: World, t: string) {
    && w.phase.Copying? && t in Round(plan, w.phase.ported) && t in w.rows && t in w.marks
    && exists after: Port<Row> ::
         && CopyStep(plan.sources[t], Port(w.rows[t], w.marks[t]), after, plan.batchSize)
         && next == World(w.rows[t := after.rows], w.marks[t := after.mark], w.phase)
  }

  /** A round ends once every table of it has been copied; one without tables ends at once and achieves nothing. */
  ghost predicate EndsRound(plan: Plan, w: World, next: World) {
    && w.phase.Copying?
    && var round := Round(plan, w.phase.ported);
    && (forall t <- round :: t in w.marks && Exhausted(plan.sources[t], w.marks[t]))
    && next == World(w.rows, w.marks, Copying(w.phase.ported + round))
  }

  ghost predicate Takes(plan: Plan, w: World, next: World, step: Step) {
    match step
    case Restart => next == World(w.rows, w.marks, SettingUp(plan.sources.Keys, {}))
    case SetUp(t) => SetsUp(plan, w, next, t)
    case InsertMark(t) => Marks(plan, w, next, t)
    case BeginCopying => w.phase == SettingUp({}, {}) && next == World(w.rows, w.marks, Copying({}))
    case Copy(t) => Copies(plan, w, next, t)
    case EndRound => EndsRound(plan, w, next)
  }

  ghost predicate Follows(plan: Plan, w: World, next: World) {
    exists step :: Takes(plan, w, next, step)
  }

  /** A run of the porter, crashes and restarts included. */
  ghost predicate IsRun(plan: Plan, worlds: seq<World>) {
    |worlds| >= 1 && forall i | 0 < i < |worlds| :: Follows(plan, worlds[i - 1], worlds[i])
  }

  /** An empty Postgres database, before the first table is set up. */
  ghost function Fresh(plan: Plan): World {
    World(map t <- plan.sources :: multiset{}, map[], SettingUp(plan.sources.Keys, {}))
  }

  /** The copy loop ends: no table is left to port. */
  ghost predicate Finished(plan: Plan, w: World) {
    w.phase.Copying? && ToPort(plan) <= w.phase.ported
  }

  /** A run from an empty database to the end of the copy loop. */
  ghost predicate FinishedRun(plan: Plan, worlds: seq<World>) {
    IsRun(plan, worlds) && worlds[0] == Fresh(plan) && Finished(plan, worlds[|worlds| - 1])
  }

  /** Every table to port reaches neither a cycle of foreign keys nor a table that is not to be ported. */
  ghost predicate AllPortable(plan: Plan) {
    forall t <- ToPort(plan) :: Portable(Needed(ToPort(plan), Constraints(plan)), t)
  }

  /** Every row of the table that is not dropped is in Postgres exactly once, and nothing else is. */
  ghost predicate Exact(plan: Plan, w: World, t: string)
    requires t in plan.sources
  {
    t in w.rows && forall row: Row :: w.rows[t][row] == |set id <- plan.sources[t] | plan.sources[t][id] == Some(row)|
  }

  /** No set-up step can empty the table while its checkpoint survives. */
  ghost predicate CascadeSafe(plan: Plan, t: string) {
    t in plan.appendOnly ==> forall b <- plan.sources | b !in plan.appendOnly :: !Reaches(plan.references, t, b)
  }

  // ----- Safety -----

  ghost predicate PortedIn(plan: Plan, w: World, t: string)
    requires t in plan.sources && t in w.rows && t in w.marks
  {
    Ported(plan.sources[t], Port(w.rows[t], w.marks[t]))
  }

  /** What holds of one table in every reachable world. */
  ghost predicate TableInvariant(plan: Plan, w: World, t: string)
    requires t in plan.sources
  {
    && t in w.rows
    && (w.phase.SettingUp? ==> w.phase.pending !! w.phase.unmarked)
    && (w.phase.Copying? ==>
          && t in w.marks && PortedIn(plan, w, t)
          && (t in w.phase.ported ==> Exhausted(plan.sources[t], w.marks[t])))
    && (w.phase.SettingUp? && t in plan.appendOnly ==>
          && t !in w.phase.unmarked
          && (t !in w.phase.pending ==> t in w.marks)
          && (if t in w.marks then PortedIn(plan, w, t) else w.rows[t] == multiset{}))
    && (w.phase.SettingUp? && t !in plan.appendOnly && t !in w.phase.pending ==>
          && w.rows[t] == multiset{}
          && (if t in w.phase.unmarked then t !in w.marks else t in w.marks && w.marks[t] == START))
  }

  lemma EmptyIsPorted(source: Source<Row>)
    ensures Ported(source, Port(multiset{}, START))
  {
  }

  lemma CopyStepKeepsPorted(source: Source<Row>, before: Port<Row>, after: Port<Row>, batchSize: nat)
    requires Ported(source, before) && CopyStep(source, before, after, batchSize)
    ensures Ported(source, after)
  {
    var forward, backward :| CopiesBatches(source, before, after, batchSize, forward, backward);
    CopyKeepsPorted(source, before, after, batchSize, forward, backward);
  }

  lemma SetUpKeepsInvariant(plan: Plan, w: World, next: World, b: string, t: string)
    requires t in plan.sources && CascadeSafe(plan, t) && b in plan.sources
    requires TableInvariant(plan, w, t) && SetsUp(plan, w, next, b)
    ensures TableInvariant(plan, next, t)
  {
    EmptyIsPorted(plan.sources[t]);
    ReachesItself(plan.references, t);
  }

  lemma CopyKeepsInvariant(plan: Plan, w: World, next: World, c: string, t: string)
    requires t in plan.sources && TableInvariant(plan, w, t) && Copies(plan, w, next, c)
    ensures TableInvariant(plan, next, t)
  {
    var after: Port<Row> :| CopyStep(plan.sources[c], Port(w.rows[c], w.marks[c]), after, plan.batchSize)
                            && next == World(w.rows[c := after.rows], w.marks[c := after.mark], w.phase);
    if c == t {
      CopyStepKeepsPorted(plan.sources[t], Port(w.rows[t], w.marks[t]), after, plan.batchSize);
    }
  }

  lemma StepKeepsInvariant(plan: Plan, w: World, next: World, step: Step, t: string)
    requires t in plan.sources && CascadeSafe(plan, t)
    requires w.phase.SettingUp? ==> w.phase.pending <= plan.sources.Keys
    requires TableInvariant(plan, w, t) && Takes(plan, w, next, step)
    ensures TableInvariant(plan, next, t)
  {
    match step
    case Restart =>
    case SetUp(b) => SetUpKeepsInvariant(plan, w, next, b, t);
    case InsertMark(_) =>
    case BeginCopying => EmptyIsPorted(plan.sources[t]);
    case Copy(c) => CopyKeepsInvariant(plan, w, next, c, t);
    case EndRound =>
  }

  lemma {:induction false} RunKeepsInvariant(plan: Plan, worlds: seq<World>, i: nat, t: string)
    requires IsRun(plan, worlds) && worlds[0] == Fresh(plan) && i < |worlds|
    requires t in plan.sources && CascadeSafe(plan, t)
    ensures TableInvariant(plan, worlds[i], t)
    ensures worlds[i].phase.SettingUp? ==> worlds[i].phase.pending <= plan.sources.Keys
  {
    if i > 0 {
      RunKeepsInvariant(plan, worlds, i - 1, t);
      assert Follows(plan, worlds[i - 1], worlds[i]);
      var step :| Takes(plan, worlds[i - 1], worlds[i], step);
      StepKeepsInvariant(plan, worlds[i - 1], worlds[i], step, t);
    }
  }

  /** At every point of every run, crashes included: a table that is being copied or resumed holds exactly the rows
      inside its checkpoint, and a table that was truncated by set-up is empty until copying begins. */
  lemma CheckpointIsExact(plan: Plan, worlds: seq<World>, t: string)
    requires IsRun(plan, worlds) && worlds[0] == Fresh(plan)
    requires t in plan.sources && CascadeSafe(plan, t)
    ensures var w := worlds[|worlds| - 1];
            && t in w.rows
            && (w.phase.Copying? ==> t in w.marks && PortedIn(plan, w, t))
            && (t in plan.appendOnly && t in w.marks ==> PortedIn(plan, w, t))
            && (t in plan.appendOnly && t !in w.marks ==> w.rows[t] == multiset{})
            && (w.phase.SettingUp? && t !in plan.appendOnly && t !in w.phase.pending ==>
                  && w.rows[t] == multiset{}
                  && (if t in w.phase.unmarked then t !in w.marks else t in w.marks && w.marks[t] == START))
  {
    RunKeepsInvariant(plan, worlds, |worlds| - 1, t);
  }

  /** However often a run was interrupted, once it finishes every source row has been copied exactly once. */
  lemma FinishedRunIsExact(plan: Plan, worlds: seq<World>, t: string)
    requires FinishedRun(plan, worlds) && IsPorted(plan, t) && CascadeSafe(plan, t)
    ensures Exact(plan, worlds[|worlds| - 1], t)
  {
    var w := worlds[|worlds| - 1];
    RunKeepsInvariant(plan, worlds, |worlds| - 1, t);
    assert t in ToPort(plan);
    forall row: Row
      ensures w.rows[t][row] == |set id <- plan.sources[t] | plan.sources[t][id] == Some(row)|
    {
      ExhaustedMeansComplete(plan.sources[t], Port(w.rows[t], w.marks[t]), row);
    }
  }

  /** Nothing is ever copied into an ignored table. */
  lemma {:induction false} IgnoredStayEmpty(plan: Plan, worlds: seq<World>, i: nat, t: string)
    requires IsRun(plan, worlds) && worlds[0] == Fresh(plan) && i < |worlds| && t in plan.sources && t in plan.ignored
    ensures t in worlds[i].rows && worlds[i].rows[t] == multiset{}
  {
    if i > 0 {
      IgnoredStayEmpty(plan, worlds, i - 1, t);
      assert Follows(plan, worlds[i - 1], worlds[i]);
      var step :| Takes(plan, worlds[i - 1], worlds[i], step);
      if step.Copy? {
        assert step.table in ToPort(plan);
      }
    }
  }

  /** References of a table to itself keep nothing from being ported. */
  lemma SelfReferencesAreFine(plan: Plan, t: string)
    requires IsPorted(plan, t) && t in plan.references && plan.references[t] <= {t}
    ensures forall ported: set<string> | t !in ported :: t in Round(plan, ported)
  {
    assert Constraints(plan)[t] == {};
  }

  // ----- Which plans can finish -----

  /** The tables ported so far could have been ported one by one, each after all it references. */
  lemma {:induction false} RoundsAreOrderly(plan: Plan, worlds: seq<World>, i: nat)
    requires IsRun(plan, worlds) && worlds[0] == Fresh(plan) && i < |worlds|
    ensures worlds[i].phase.Copying? ==>
              && worlds[i].phase.ported <= ToPort(plan)
              && Orderly(Needed(ToPort(plan), Constraints(plan)), worlds[i].phase.ported)
  {
    if i > 0 {
      RoundsAreOrderly(plan, worlds, i - 1);
      assert Follows(plan, worlds[i - 1], worlds[i]);
      var step :| Takes(plan, worlds[i - 1], worlds[i], step);
      match step
      case BeginCopying => NothingIsOrderly(Needed(ToPort(plan), Constraints(plan)));
      case EndRound => RoundIsOrderly(ToPort(plan), Constraints(plan), worlds[i - 1].phase.ported);
      case _ =>
    }
  }

  lemma NothingIsOrderly(g: Graph<string>)
    ensures Orderly(g, {})
  {
    assert DependencyOrder(g, []);
  }

  /** A run can only finish if every table to port is portable. */
  lemma FinishedMeansPortable(plan: Plan, worlds: seq<World>)
    requires FinishedRun(plan, worlds)
    ensures AllPortable(plan)
  {
    var w := worlds[|worlds| - 1];
    RoundsAreOrderly(plan, worlds, |worlds| - 1);
    OrderlyIsPortable(Needed(ToPort(plan), Constraints(plan)), w.phase.ported);
  }
}
