/** matching/evaluate_persist.py:232-262: workers that select, insert, conflict, re-select and
    update one table, each step at any moment, against the single atomic statement of lines
    214-230. */
module UpsertRace {
  import opened Wrappers

  /** One call's arguments. */
  datatype Job = Job(id: string, opportunity: string, pack: string, values: map<string, string>)

  datatype Row = Row(id: string, opportunity: string, columns: map<string, string>)

  /** Where a worker stands: the statement it executes next. */
  datatype Phase = Selecting | Inserting | Reselecting | Updating(seen: Row) | Done | Raised

  /** `commits` lists the workers in the order in which they committed. */
  datatype State = State(table: seq<Row>, phases: seq<Phase>, commits: seq<nat>)

  /** `known` are the opportunities the foreign key accepts; `onlyChanges` says whether the mapper
      writes just the columns that differ from what the worker read. */
  datatype Setting = Setting(jobs: seq<Job>, known: set<string>, onlyChanges: bool)

  /** The columns a job assigns. */
  function Assigned(job: Job): map<string, string> {
    job.values["truth_pack_hash" := job.pack]
  }

  /** Position of the opportunity's first row, or the length of the table. */
  function Find(table: seq<Row>, opportunity: string): (i: nat)
    ensures i <= |table|
    ensures i < |table| ==> table[i].opportunity == opportunity
    ensures forall j :: 0 <= j < i ==> table[j].opportunity != opportunity
  {
    if table == [] then 0
    else if table[0].opportunity == opportunity then 0
    else 1 + Find(table[1..], opportunity)
  }

  predicate Has(table: seq<Row>, opportunity: string) {
    Find(table, opportunity) < |table|
  }

  /** `INSERT ... ON CONFLICT DO UPDATE`: the whole call as one statement. */
  function Atomic(table: seq<Row>, job: Job): seq<Row> {
    var i := Find(table, job.opportunity);
    if i < |table| then table[i := table[i].(columns := table[i].columns + Assigned(job))]
    else table + [Row(job.id, job.opportunity, Assigned(job))]
  }

  /** The columns an UPDATE writes. */
  function Written(seen: Row, job: Job, onlyChanges: bool): map<string, string> {
    map k | k in Assigned(job) && !(onlyChanges && k in seen.columns && seen.columns[k] == Assigned(job)[k])
      :: Assigned(job)[k]
  }

  /** `UPDATE ... WHERE id = seen.id`. */
  function UpdateRow(table: seq<Row>, seen: Row, columns: map<string, string>): (r: seq<Row>)
    ensures |r| == |table|
    ensures forall i :: 0 <= i < |r| ==>
      r[i] == if table[i].id == seen.id then table[i].(columns := table[i].columns + columns) else table[i]
  {
    seq(|table|, (i: int) requires 0 <= i < |table| =>
      if table[i].id == seen.id then table[i].(columns := table[i].columns + columns) else table[i])
  }

  /** The primary key, the unique constraint and the foreign key. */
  predicate Violates(table: seq<Row>, job: Job, known: set<string>) {
    job.opportunity !in known || exists r :: r in table && (r.id == job.id || r.opportunity == job.opportunity)
  }

  /** What worker `w` does when it is scheduled. */
  function Step(g: Setting, s: State, w: nat): State
    requires w < |g.jobs| == |s.phases|
  {
    var job, i := g.jobs[w], Find(s.table, g.jobs[w].opportunity);
    match s.phases[w]
    case Selecting =>
      s.(phases := s.phases[w := if i < |s.table| then Updating(s.table[i]) else Inserting])
    case Inserting =>
      if Violates(s.table, job, g.known) then s.(phases := s.phases[w := Reselecting])
      else State(s.table + [Row(job.id, job.opportunity, Assigned(job))], s.phases[w := Done], s.commits + [w])
    case Reselecting =>
      s.(phases := s.phases[w := if i < |s.table| then Updating(s.table[i]) else Raised])
    case Updating(seen) =>
      State(UpdateRow(s.table, seen, Written(seen, job, g.onlyChanges)), s.phases[w := Done], s.commits + [w])
    case Done => s
    case Raised => s
  }

  /** `ws` names workers among `n`. */
  ghost predicate Names(ws: seq<nat>, n: nat) {
    forall i :: 0 <= i < |ws| ==> ws[i] < n
  }

  /** A schedule: which worker moves, step after step. */
  ghost function Run(g: Setting, s: State, schedule: seq<nat>): (r: State)
    requires |g.jobs| == |s.phases| && Names(schedule, |g.jobs|)
    ensures |r.phases| == |s.phases|
  {
    if schedule == [] then s
    else Step(g, Run(g, s, schedule[..|schedule| - 1]), schedule[|schedule| - 1])
  }

  function Start(g: Setting, table: seq<Row>): State {
    State(table, seq(|g.jobs|, i => Selecting), [])
  }

  /** Every statement of `commits`, executed atomically in that order. */
  ghost function AtomicAll(table: seq<Row>, jobs: seq<Job>, commits: seq<nat>): seq<Row>
    requires Names(commits, |jobs|)
  {
    if commits == [] then table
    else Atomic(AtomicAll(table, jobs, commits[..|commits| - 1]), jobs[commits[|commits| - 1]])
  }

  // ----- what every step keeps -----

  /** At most one row per opportunity and per primary key, no dangling opportunity. */
  ghost predicate Sound(table: seq<Row>, known: set<string>) {
    && (forall i, j :: 0 <= i < j < |table| ==>
          table[i].opportunity != table[j].opportunity && table[i].id != table[j].id)
    && (forall r :: r in table ==> r.opportunity in known)
  }

  /** Primary keys are digests of the opportunity. */
  ghost predicate KeyedByOpportunity(g: Setting, table: seq<Row>) {
    && (forall v, w :: 0 <= v < |g.jobs| && 0 <= w < |g.jobs| && g.jobs[v].id == g.jobs[w].id ==>
          g.jobs[v].opportunity == g.jobs[w].opportunity)
    && (forall r, w :: r in table && 0 <= w < |g.jobs| && r.id == g.jobs[w].id ==>
          r.opportunity == g.jobs[w].opportunity)
  }

  ghost predicate PhaseOk(g: Setting, table: seq<Row>, job: Job, phase: Phase) {
    match phase
    case Selecting => true
    case Inserting => true
    case Reselecting => job.opportunity in g.known ==> Has(table, job.opportunity)
    case Updating(seen) =>
      && seen.opportunity == job.opportunity
      && exists r :: r in table && r.id == seen.id && r.opportunity == seen.opportunity
    case Done => job.opportunity in g.known && Has(table, job.opportunity)
    case Raised => job.opportunity !in g.known
  }

  ghost predicate Inv(g: Setting, s: State) {
    && |s.phases| == |g.jobs|
    && Sound(s.table, g.known)
    && KeyedByOpportunity(g, s.table)
    && (forall w :: 0 <= w < |g.jobs| ==> PhaseOk(g, s.table, g.jobs[w], s.phases[w]))
  }

  lemma FindMember(table: seq<Row>, r: Row)
    requires r in table
    ensures Has(table, r.opportunity)
  {
    var i :| 0 <= i < |table| && table[i] == r;
  }

  lemma {:induction false} FindAppend(table: seq<Row>, r: Row, opportunity: string)
    ensures Find(table + [r], opportunity) ==
      if Has(table, opportunity) then Find(table, opportunity)
      else if r.opportunity == opportunity then |table| else |table| + 1
  {
    if table != [] && table[0].opportunity != opportunity {
      FindAppend(table[1..], r, opportunity);
      assert (table + [r])[1..] == table[1..] + [r];
    }
  }

  /** Rows are never dropped, and keep their two keys. */
  ghost predicate Extends(a: seq<Row>, b: seq<Row>) {
    |a| <= |b| && forall i :: 0 <= i < |a| ==> a[i].id == b[i].id && a[i].opportunity == b[i].opportunity
  }

  lemma ExtendsHas(a: seq<Row>, b: seq<Row>, opportunity: string)
    requires Extends(a, b) && Has(a, opportunity)
    ensures Has(b, opportunity)
  {
    var i := Find(a, opportunity);
    FindMember(b, b[i]);
  }

  lemma PhaseOkExtends(g: Setting, a: seq<Row>, b: seq<Row>, job: Job, phase: Phase)
    requires Extends(a, b) && PhaseOk(g, a, job, phase)
    ensures PhaseOk(g, b, job, phase)
  {
    match phase
    case Selecting =>
    case Inserting =>
    case Reselecting =>
      if job.opportunity in g.known {
        ExtendsHas(a, b, job.opportunity);
      }
    case Updating(seen) =>
      var r :| r in a && r.id == seen.id && r.opportunity == seen.opportunity;
      var i :| 0 <= i < |a| && a[i] == r;
      assert b[i] in b;
    case Done => ExtendsHas(a, b, job.opportunity);
    case Raised =>
  }

  lemma InsertSound(g: Setting, table: seq<Row>, w: nat)
    requires Sound(table, g.known) && KeyedByOpportunity(g, table)
    requires w < |g.jobs| && !Violates(table, g.jobs[w], g.known)
    ensures var job := g.jobs[w]; var after := table + [Row(job.id, job.opportunity, Assigned(job))];
      && Sound(after, g.known) && KeyedByOpportunity(g, after) && Extends(table, after)
      && Has(after, job.opportunity) && after == Atomic(table, job)
  {
    var job := g.jobs[w];
    var row := Row(job.id, job.opportunity, Assigned(job));
    var after := table + [row];
    assert forall i :: 0 <= i < |table| ==> table[i] in table;
    FindMember(after, row);
  }

  lemma UpdateSound(g: Setting, table: seq<Row>, seen: Row, columns: map<string, string>)
    requires Sound(table, g.known) && KeyedByOpportunity(g, table)
    ensures var after := UpdateRow(table, seen, columns);
      Sound(after, g.known) && KeyedByOpportunity(g, after) && Extends(table, after)
  {
    var after := UpdateRow(table, seen, columns);
    forall r | r in after ensures exists q :: q in table && q.id == r.id && q.opportunity == r.opportunity {
      var i :| 0 <= i < |after| && after[i] == r;
      assert table[i] in table;
    }
  }

  /** One step's effect on the table and on the worker's own phase. */
  lemma OwnStep(g: Setting, s: State, w: nat)
    requires Inv(g, s) && w < |g.jobs|
    ensures var t := Step(g, s, w);
      && Sound(t.table, g.known) && KeyedByOpportunity(g, t.table) && Extends(s.table, t.table)
      && |t.phases| == |s.phases| && (forall v :: 0 <= v < |s.phases| && v != w ==> t.phases[v] == s.phases[v])
      && PhaseOk(g, t.table, g.jobs[w], t.phases[w])
  {
    hide Sound, KeyedByOpportunity;
    var job := g.jobs[w];
    var i := Find(s.table, job.opportunity);
    assert PhaseOk(g, s.table, job, s.phases[w]);
    match s.phases[w]
    case Selecting => if i < |s.table| { assert s.table[i] in s.table; }
    case Inserting =>
      if Violates(s.table, job, g.known) {
        ConflictMeansRow(g, s.table, w);
      } else {
        InsertSound(g, s.table, w);
      }
    case Reselecting => if i < |s.table| { assert s.table[i] in s.table; }
    case Updating(seen) =>
      UpdateSound(g, s.table, seen, Written(seen, job, g.onlyChanges));
      UpdatingKnown(g, s, w);
      ExtendsHas(s.table, Step(g, s, w).table, job.opportunity);
    case Done =>
    case Raised =>
  }

  /** A rejected insert finds the winner's row, unless the opportunity itself is missing. */
  lemma ConflictMeansRow(g: Setting, table: seq<Row>, w: nat)
    requires KeyedByOpportunity(g, table) && w < |g.jobs| && Violates(table, g.jobs[w], g.known)
    ensures g.jobs[w].opportunity in g.known ==> Has(table, g.jobs[w].opportunity)
  {
    if g.jobs[w].opportunity in g.known {
      var r :| r in table && (r.id == g.jobs[w].id || r.opportunity == g.jobs[w].opportunity);
      FindMember(table, r);
    }
  }

  lemma UpdatingKnown(g: Setting, s: State, w: nat)
    requires Inv(g, s) && w < |g.jobs| && s.phases[w].Updating?
    ensures g.jobs[w].opportunity in g.known && Has(s.table, g.jobs[w].opportunity)
    ensures s.table[Find(s.table, g.jobs[w].opportunity)].id == s.phases[w].seen.id
  {
    assert PhaseOk(g, s.table, g.jobs[w], s.phases[w]);
    var r :| r in s.table && r.id == s.phases[w].seen.id && r.opportunity == g.jobs[w].opportunity;
    FindMember(s.table, r);
    var i :| 0 <= i < |s.table| && s.table[i] == r;
  }

  lemma StepKeepsInv(g: Setting, s: State, w: nat)
    requires Inv(g, s) && w < |g.jobs|
    ensures Inv(g, Step(g, s, w))
  {
    hide Sound, KeyedByOpportunity, Step, PhaseOk, Extends;
    OwnStep(g, s, w);
    var t := Step(g, s, w);
    forall v | 0 <= v < |g.jobs| ensures PhaseOk(g, t.table, g.jobs[v], t.phases[v]) {
      if v != w {
        PhaseOkExtends(g, s.table, t.table, g.jobs[v], s.phases[v]);
      }
    }
  }

  /** In every reachable state there is at most one row per opportunity, and a worker re-raises
      only if its opportunity is not there to be evaluated. */
  lemma {:induction false} ReachableInv(g: Setting, table: seq<Row>, schedule: seq<nat>)
    requires Sound(table, g.known) && KeyedByOpportunity(g, table)
    requires Names(schedule, |g.jobs|)
    ensures Inv(g, Run(g, Start(g, table), schedule))
  {
    if schedule != [] {
      ReachableInv(g, table, schedule[..|schedule| - 1]);
      StepKeepsInv(g, Run(g, Start(g, table), schedule[..|schedule| - 1]), schedule[|schedule| - 1]);
    }
  }

  lemma NeverReraises(g: Setting, table: seq<Row>, schedule: seq<nat>, w: nat)
    requires Sound(table, g.known) && KeyedByOpportunity(g, table)
    requires Names(schedule, |g.jobs|)
    requires w < |g.jobs|
    ensures var s := Run(g, Start(g, table), schedule);
      && (g.jobs[w].opportunity in g.known ==> s.phases[w] != Raised)
      && (g.jobs[w].opportunity !in g.known ==> s.phases[w] != Done)
  {
    ReachableInv(g, table, schedule);
    var s := Run(g, Start(g, table), schedule);
    assert PhaseOk(g, s.table, g.jobs[w], s.phases[w]);
  }

  // ----- the commit order is a linearization -----

  /** Each column this UPDATE skips, because the worker read the value it wants, still has it. */
  predicate Unspoiled(seen: Row, row: Row, job: Job) {
    forall k :: k in Assigned(job) && k in seen.columns && seen.columns[k] == Assigned(job)[k] ==>
      k in row.columns && row.columns[k] == Assigned(job)[k]
  }

  lemma WrittenExact(seen: Row, row: Row, job: Job, onlyChanges: bool)
    ensures row.columns + Written(seen, job, onlyChanges) == row.columns + Assigned(job)
       <==> !onlyChanges || Unspoiled(seen, row, job)
  {
    var some, all := row.columns + Written(seen, job, onlyChanges), row.columns + Assigned(job);
    if some == all && onlyChanges {
      forall k | k in Assigned(job) && k in seen.columns && seen.columns[k] == Assigned(job)[k]
        ensures k in row.columns && row.columns[k] == Assigned(job)[k]
      {
        assert k !in Written(seen, job, onlyChanges) && k in all && all[k] == Assigned(job)[k];
        assert k in some;
      }
    }
    if !onlyChanges || Unspoiled(seen, row, job) {
      forall k | k in all ensures k in some && some[k] == all[k] {
      }
      assert some.Keys == all.Keys;
    }
  }

  lemma UpdateAtFind(g: Setting, s: State, w: nat, columns: map<string, string>)
    requires Inv(g, s) && w < |g.jobs| && s.phases[w].Updating?
    ensures var i := Find(s.table, g.jobs[w].opportunity);
      && i < |s.table|
      && UpdateRow(s.table, s.phases[w].seen, columns)
         == s.table[i := s.table[i].(columns := s.table[i].columns + columns)]
  {
    hide PhaseOk;
    UpdatingKnown(g, s, w);
  }

  /** An UPDATE acts as the atomic statement exactly if it is unspoiled or writes every column. */
  lemma CommitIsAtomic(g: Setting, s: State, w: nat)
    requires Inv(g, s) && w < |g.jobs| && s.phases[w].Updating?
    ensures var i := Find(s.table, g.jobs[w].opportunity);
      && i < |s.table|
      && (Step(g, s, w).table == Atomic(s.table, g.jobs[w])
          <==> !g.onlyChanges || Unspoiled(s.phases[w].seen, s.table[i], g.jobs[w]))
  {
    hide Written, Assigned, Unspoiled, UpdateRow, Sound, KeyedByOpportunity, PhaseOk;
    var i, job, seen := Find(s.table, g.jobs[w].opportunity), g.jobs[w], s.phases[w].seen;
    UpdateAtFind(g, s, w, Written(seen, job, g.onlyChanges));
    UpdatingKnown(g, s, w);
    WrittenExact(seen, s.table[i], job, g.onlyChanges);
    var a, b := Step(g, s, w).table, Atomic(s.table, job);
    assert a[i].columns == s.table[i].columns + Written(seen, job, g.onlyChanges);
    assert b[i].columns == s.table[i].columns + Assigned(job);
  }

  /** Worker `w` may move now: if it updates, its update is unspoiled or writes everything. */
  ghost predicate WellTimed(g: Setting, s: State, w: nat)
    requires w < |g.jobs| == |s.phases|
  {
    s.phases[w].Updating? && g.onlyChanges ==>
      var i := Find(s.table, g.jobs[w].opportunity);
      i < |s.table| && Unspoiled(s.phases[w].seen, s.table[i], g.jobs[w])
  }

  /** The commit log: every finished worker once, nobody else. */
  ghost predicate LogOk(g: Setting, s: State) {
    && |s.phases| == |g.jobs|
    && Names(s.commits, |g.jobs|)
    && (forall i :: 0 <= i < |s.commits| ==> s.phases[s.commits[i]] == Done)
    && (forall w :: 0 <= w < |g.jobs| && s.phases[w] == Done ==> w in s.commits)
    && (forall i, j :: 0 <= i < j < |s.commits| ==> s.commits[i] != s.commits[j])
  }

  lemma StepKeepsLog(g: Setting, s: State, w: nat)
    requires LogOk(g, s) && w < |g.jobs|
    ensures LogOk(g, Step(g, s, w))
    ensures Step(g, s, w).commits == s.commits || Step(g, s, w).commits == s.commits + [w]
  {
    hide Find, Violates, UpdateRow;
  }

  /** Worker `w`'s next statement ends in a commit. */
  predicate Commits(g: Setting, s: State, w: nat)
    requires w < |g.jobs| == |s.phases|
  {
    s.phases[w].Updating? || (s.phases[w].Inserting? && !Violates(s.table, g.jobs[w], g.known))
  }

  predicate CommitsFor(g: Setting, s: State, w: nat, opportunity: string)
    requires w < |g.jobs| == |s.phases|
  {
    Commits(g, s, w) && g.jobs[w].opportunity == opportunity
  }

  /** It commits a value for this column of this opportunity. */
  predicate Assigns(g: Setting, s: State, w: nat, opportunity: string, k: string)
    requires w < |g.jobs| == |s.phases|
  {
    CommitsFor(g, s, w, opportunity) && k in Assigned(g.jobs[w])
  }

  /** Its UPDATE leaves this column out, because the worker read the value it wants. */
  predicate Skips(g: Setting, s: State, w: nat, k: string)
    requires w < |g.jobs| == |s.phases| && k in Assigned(g.jobs[w])
  {
    && g.onlyChanges && s.phases[w].Updating?
    && k in s.phases[w].seen.columns && s.phases[w].seen.columns[k] == Assigned(g.jobs[w])[k]
  }

  /** What the table holds for a column of an opportunity. */
  function Cell(table: seq<Row>, opportunity: string, k: string): Option<string> {
    var i := Find(table, opportunity);
    if i < |table| && k in table[i].columns then Some(table[i].columns[k]) else None
  }

  lemma WrittenCell(row: Row, seen: Row, job: Job, onlyChanges: bool, k: string)
    ensures var columns := row.columns + Written(seen, job, onlyChanges);
      var skipped := onlyChanges && k in Assigned(job) && k in seen.columns && seen.columns[k] == Assigned(job)[k];
      && (k in Assigned(job) && !skipped ==> k in columns && columns[k] == Assigned(job)[k])
      && (k !in Assigned(job) || skipped ==>
           (k in columns <==> k in row.columns) && (k in columns ==> columns[k] == row.columns[k]))
  {
  }

  /** A step sets exactly the cells it assigns and does not skip. */
  lemma StepCell(g: Setting, s: State, w: nat, opportunity: string, k: string)
    requires Inv(g, s) && w < |g.jobs|
    ensures Cell(Step(g, s, w).table, opportunity, k) ==
      if Assigns(g, s, w, opportunity, k) && !Skips(g, s, w, k) then Some(Assigned(g.jobs[w])[k])
      else Cell(s.table, opportunity, k)
  {
    hide PhaseOk, Sound, KeyedByOpportunity, UpdateRow, Violates, Written, Assigned, Cell;
    var job := g.jobs[w];
    if s.phases[w].Updating? {
      UpdateAtFind(g, s, w, Written(s.phases[w].seen, job, g.onlyChanges));
      UpdateCell(s.table, s.phases[w].seen, job, g.onlyChanges, opportunity, k);
    } else if s.phases[w].Inserting? && !Violates(s.table, job, g.known) {
      NoConflictNoRow(s.table, job, g.known);
      InsertCell(s.table, job, opportunity, k);
    }
  }

  lemma UpdateCell(table: seq<Row>, seen: Row, job: Job, onlyChanges: bool, opportunity: string, k: string)
    requires Has(table, job.opportunity)
    ensures var i := Find(table, job.opportunity);
      var after := table[i := table[i].(columns := table[i].columns + Written(seen, job, onlyChanges))];
      var skipped := onlyChanges && k in Assigned(job) && k in seen.columns && seen.columns[k] == Assigned(job)[k];
      Cell(after, opportunity, k) ==
      if job.opportunity == opportunity && k in Assigned(job) && !skipped then Some(Assigned(job)[k])
      else Cell(table, opportunity, k)
  {
    hide Written, Assigned;
    var i := Find(table, job.opportunity);
    FindReplace(table, i, table[i].(columns := table[i].columns + Written(seen, job, onlyChanges)), opportunity);
    WrittenCell(table[i], seen, job, onlyChanges, k);
  }

  lemma InsertCell(table: seq<Row>, job: Job, opportunity: string, k: string)
    requires !Has(table, job.opportunity)
    ensures Cell(table + [Row(job.id, job.opportunity, Assigned(job))], opportunity, k) ==
      if job.opportunity == opportunity && k in Assigned(job) then Some(Assigned(job)[k])
      else Cell(table, opportunity, k)
  {
    hide Assigned;
    FindAppend(table, Row(job.id, job.opportunity, Assigned(job)), opportunity);
  }

  lemma NoConflictNoRow(table: seq<Row>, job: Job, known: set<string>)
    requires !Violates(table, job, known)
    ensures !Has(table, job.opportunity)
  {
    assert forall i :: 0 <= i < |table| ==> table[i] in table;
  }

  /** The atomic statement sets exactly the cells it assigns. */
  lemma AtomicCell(table: seq<Row>, job: Job, opportunity: string, k: string)
    ensures Cell(Atomic(table, job), opportunity, k) ==
      if job.opportunity == opportunity && k in Assigned(job) then Some(Assigned(job)[k])
      else Cell(table, opportunity, k)
  {
    hide Assigned;
    var i := Find(table, job.opportunity);
    if i < |table| {
      FindReplace(table, i, table[i].(columns := table[i].columns + Assigned(job)), opportunity);
    } else {
      FindAppend(table, Row(job.id, job.opportunity, Assigned(job)), opportunity);
    }
  }

  /** The same rows, up to their columns. */
  ghost predicate SameRows(a: seq<Row>, b: seq<Row>) {
    |a| == |b| && forall i :: 0 <= i < |a| ==> a[i].id == b[i].id && a[i].opportunity == b[i].opportunity
  }

  lemma SameRowsFind(a: seq<Row>, b: seq<Row>, opportunity: string)
    requires SameRows(a, b)
    ensures Find(a, opportunity) == Find(b, opportunity)
  {
  }

  lemma StepRows(g: Setting, s: State, w: nat, atomic: seq<Row>)
    requires Inv(g, s) && w < |g.jobs| && SameRows(s.table, atomic)
    ensures SameRows(Step(g, s, w).table, if Commits(g, s, w) then Atomic(atomic, g.jobs[w]) else atomic)
    ensures Step(g, s, w).commits == s.commits + if Commits(g, s, w) then [w] else []
  {
    hide PhaseOk, Sound, KeyedByOpportunity, Violates, Written, Assigned, UpdateRow, SameRows, Atomic;
    var job := g.jobs[w];
    if s.phases[w].Updating? {
      UpdateAtFind(g, s, w, Written(s.phases[w].seen, job, g.onlyChanges));
      AtomicRows(s.table, atomic, job, Written(s.phases[w].seen, job, g.onlyChanges));
    } else if s.phases[w].Inserting? && !Violates(s.table, job, g.known) {
      NoConflictNoRow(s.table, job, g.known);
      AtomicRows(s.table, atomic, job, map[]);
    }
  }

  lemma AtomicRows(table: seq<Row>, atomic: seq<Row>, job: Job, columns: map<string, string>)
    requires SameRows(table, atomic)
    ensures var i := Find(table, job.opportunity);
      SameRows(if i < |table| then table[i := table[i].(columns := table[i].columns + columns)]
               else table + [Row(job.id, job.opportunity, Assigned(job))], Atomic(atomic, job))
  {
    hide Find, Assigned;
    SameRowsFind(table, atomic, job.opportunity);
  }

  lemma SameCellsSameTable(a: seq<Row>, b: seq<Row>)
    requires SameRows(a, b)
    requires forall i, j :: 0 <= i < j < |a| ==> a[i].opportunity != a[j].opportunity
    requires forall o, k :: Cell(a, o, k) == Cell(b, o, k)
    ensures a == b
  {
    forall i | 0 <= i < |a| ensures a[i] == b[i] {
      var o := a[i].opportunity;
      SameRowsFind(a, b, o);
      FindMember(a, a[i]);
      assert Find(a, o) == i;
      forall k ensures k in a[i].columns <==> k in b[i].columns
        ensures k in a[i].columns ==> a[i].columns[k] == b[i].columns[k]
      {
        assert Cell(a, o, k) == Cell(b, o, k);
      }
      assert a[i].columns.Keys == b[i].columns.Keys;
      assert a[i].columns == b[i].columns;
    }
  }

  /** Of the commits for this column of this opportunity, the last skipped it although it no
      longer held the value wanted. */
  ghost predicate Lost(g: Setting, table: seq<Row>, schedule: seq<nat>, opportunity: string, k: string)
    requires Names(schedule, |g.jobs|)
  {
    schedule != [] &&
    var n := |schedule| - 1;
    var s, w := Run(g, Start(g, table), schedule[..n]), schedule[n];
    if Assigns(g, s, w, opportunity, k)
    then Skips(g, s, w, k) && Cell(s.table, opportunity, k) != Some(Assigned(g.jobs[w])[k])
    else Lost(g, table, schedule[..n], opportunity, k)
  }

  /** No cell was lost. */
  ghost predicate NoneLost(g: Setting, table: seq<Row>, schedule: seq<nat>)
    requires Names(schedule, |g.jobs|)
  {
    forall o, k :: !Lost(g, table, schedule, o, k)
  }

  /** Every interleaving leaves the rows the atomic statements leave in commit order, and a cell
      holds what they leave in it exactly if it was not lost. */
  lemma {:induction false} CellIff(g: Setting, table: seq<Row>, schedule: seq<nat>, opportunity: string, k: string)
    requires Sound(table, g.known) && KeyedByOpportunity(g, table) && Names(schedule, |g.jobs|)
    ensures var s := Run(g, Start(g, table), schedule);
      && Names(s.commits, |g.jobs|)
      && SameRows(s.table, AtomicAll(table, g.jobs, s.commits))
      && (Cell(s.table, opportunity, k) == Cell(AtomicAll(table, g.jobs, s.commits), opportunity, k)
          <==> !Lost(g, table, schedule, opportunity, k))
  {
    if schedule != [] {
      hide Step, Inv, Atomic, Cell, SameRows, Sound, KeyedByOpportunity, Assigned, Skips;
      var n := |schedule| - 1;
      var s, w := Run(g, Start(g, table), schedule[..n]), schedule[n];
      CellIff(g, table, schedule[..n], opportunity, k);
      ReachableInv(g, table, schedule[..n]);
      var atomic := AtomicAll(table, g.jobs, s.commits);
      StepRows(g, s, w, atomic);
      StepCell(g, s, w, opportunity, k);
      AtomicCell(atomic, g.jobs[w], opportunity, k);
      AtomicAllSnoc(table, g.jobs, s.commits, w);
    }
  }

  lemma AtomicAllSnoc(table: seq<Row>, jobs: seq<Job>, commits: seq<nat>, w: nat)
    requires Names(commits, |jobs|) && w < |jobs|
    ensures Names(commits + [w], |jobs|) && commits + [] == commits
    ensures AtomicAll(table, jobs, commits + [w]) == Atomic(AtomicAll(table, jobs, commits), jobs[w])
  {
    assert (commits + [w])[..|commits|] == commits;
  }

  lemma {:induction false} ReachableLog(g: Setting, table: seq<Row>, schedule: seq<nat>)
    requires Names(schedule, |g.jobs|)
    ensures LogOk(g, Run(g, Start(g, table), schedule))
  {
    if schedule != [] {
      hide Step, LogOk;
      ReachableLog(g, table, schedule[..|schedule| - 1]);
      StepKeepsLog(g, Run(g, Start(g, table), schedule[..|schedule| - 1]), schedule[|schedule| - 1]);
    }
  }

  /** An interleaving leaves the table that the atomic statements leave in commit order exactly if
      no cell was lost - so always, if updates write every column. */
  lemma Linearizable(g: Setting, table: seq<Row>, schedule: seq<nat>)
    requires Sound(table, g.known) && KeyedByOpportunity(g, table) && Names(schedule, |g.jobs|)
    ensures var s := Run(g, Start(g, table), schedule);
      && LogOk(g, s)
      && (s.table == AtomicAll(table, g.jobs, s.commits) <==> NoneLost(g, table, schedule))
      && (!g.onlyChanges ==> s.table == AtomicAll(table, g.jobs, s.commits))
  {
    hide Run, AtomicAll, Cell, SameRows, KeyedByOpportunity, Lost, LogOk;
    var s := Run(g, Start(g, table), schedule);
    ReachableLog(g, table, schedule);
    ReachableInv(g, table, schedule);
    LogNames(g, s);
    var atomic := AtomicAll(table, g.jobs, s.commits);
    CellIff(g, table, schedule, "", "");
    if s.table == atomic {
      forall o, k ensures !Lost(g, table, schedule, o, k) {
        CellIff(g, table, schedule, o, k);
      }
    }
    if !g.onlyChanges {
      forall o, k ensures !Lost(g, table, schedule, o, k) {
        NothingLost(g, table, schedule, o, k);
      }
    }
    if NoneLost(g, table, schedule) {
      forall o, k ensures Cell(s.table, o, k) == Cell(atomic, o, k) {
        CellIff(g, table, schedule, o, k);
      }
      SameCellsSameTable(s.table, atomic);
    }
  }

  lemma LogNames(g: Setting, s: State)
    requires LogOk(g, s)
    ensures Names(s.commits, |g.jobs|)
  {
  }

  lemma {:induction false} NothingLost(g: Setting, table: seq<Row>, schedule: seq<nat>, opportunity: string, k: string)
    requires !g.onlyChanges && Names(schedule, |g.jobs|)
    ensures !Lost(g, table, schedule, opportunity, k)
  {
    if schedule != [] {
      hide Run, Cell, Assigned;
      NothingLost(g, table, schedule[..|schedule| - 1], opportunity, k);
    }
  }

  lemma {:induction false} AtomicAllRow(table: seq<Row>, jobs: seq<Job>, commits: seq<nat>, opportunity: string)
    requires Names(commits, |jobs|)
    ensures var after := AtomicAll(table, jobs, commits);
      && (Has(after, opportunity) <==>
            || Has(table, opportunity)
            || exists i :: 0 <= i < |commits| && jobs[commits[i]].opportunity == opportunity)
      && (Has(table, opportunity) ==> after[Find(after, opportunity)].id == table[Find(table, opportunity)].id)
  {
    if commits != [] {
      hide Atomic, Find;
      var n := |commits| - 1;
      AtomicAllRow(table, jobs, commits[..n], opportunity);
      AtomicRow(AtomicAll(table, jobs, commits[..n]), jobs[commits[n]], opportunity);
    }
  }

  lemma {:induction false} FindReplace(table: seq<Row>, i: nat, r: Row, opportunity: string)
    requires i < |table| && r.opportunity == table[i].opportunity
    ensures Find(table[i := r], opportunity) == Find(table, opportunity)
  {
    if i > 0 && table[0].opportunity != opportunity {
      FindReplace(table[1..], i - 1, r, opportunity);
      assert table[i := r][1..] == table[1..][i - 1 := r];
    } else if i == 0 {
      assert table[i := r][1..] == table[1..];
    }
  }

  const PACK := "truth_pack_hash"

  /** The row names the job's truth pack and holds its values. */
  ghost predicate Carries(row: Row, job: Job) {
    && PACK in row.columns && row.columns[PACK] == job.pack
    && forall k :: k in job.values && k != PACK ==> k in row.columns && row.columns[k] == job.values[k]
  }

  lemma AssignedMeans(job: Job)
    ensures PACK in Assigned(job) && Assigned(job)[PACK] == job.pack
    ensures forall k :: k != PACK ==> (k in Assigned(job) <==> k in job.values)
    ensures forall k :: k in job.values && k != PACK ==> Assigned(job)[k] == job.values[k]
  {
  }

  /** Carrying a job's values is holding what it assigns. */
  lemma CarriesAssigned(row: Row, job: Job)
    ensures Carries(row, job) <==>
      forall k :: k in Assigned(job) ==> k in row.columns && row.columns[k] == Assigned(job)[k]
  {
    AssignedMeans(job);
    hide Assigned;
    if forall k :: k in Assigned(job) ==> k in row.columns && row.columns[k] == Assigned(job)[k] {
      assert PACK in Assigned(job);
      forall k | k in job.values && k != PACK ensures k in row.columns && row.columns[k] == job.values[k] {
        assert k in Assigned(job);
      }
    }
  }

  lemma AtomicRow(table: seq<Row>, job: Job, opportunity: string)
    ensures var after := Atomic(table, job);
      && (Has(after, opportunity) <==> Has(table, opportunity) || job.opportunity == opportunity)
      && (Has(table, opportunity) ==> after[Find(after, opportunity)].id == table[Find(table, opportunity)].id)
      && (job.opportunity != opportunity && Has(table, opportunity) ==>
           after[Find(after, opportunity)] == table[Find(table, opportunity)])
      && (job.opportunity == opportunity ==>
           Has(after, opportunity) && Carries(after[Find(after, opportunity)], job))
  {
    hide Assigned, Carries;
    var i := Find(table, job.opportunity);
    var row := if i < |table| then table[i].(columns := table[i].columns + Assigned(job))
               else Row(job.id, job.opportunity, Assigned(job));
    CarriesAssigned(row, job);
    if i < |table| {
      FindReplace(table, i, row, opportunity);
    } else {
      FindAppend(table, row, opportunity);
    }
  }

  /** The row holds what the opportunity's last committer assigned. */
  lemma {:induction false} LastCommitterWins(table: seq<Row>, jobs: seq<Job>, commits: seq<nat>, last: nat)
    requires Names(commits, |jobs|)
    requires last < |commits|
    requires forall m :: last < m < |commits| ==> jobs[commits[m]].opportunity != jobs[commits[last]].opportunity
    ensures var after, job := AtomicAll(table, jobs, commits), jobs[commits[last]];
      && Has(after, job.opportunity)
      && Carries(after[Find(after, job.opportunity)], job)
  {
    hide Atomic, Assigned, Find;
    var n := |commits| - 1;
    AtomicRow(AtomicAll(table, jobs, commits[..n]), jobs[commits[n]], jobs[commits[last]].opportunity);
    if last < n {
      LastCommitterWins(table, jobs, commits[..n], last);
      assert jobs[commits[n]].opportunity != jobs[commits[last]].opportunity;
    }
  }

  /** After step `n` no step commits for this opportunity. */
  ghost predicate QuietAfter(g: Setting, table: seq<Row>, schedule: seq<nat>, n: nat, opportunity: string)
    requires Names(schedule, |g.jobs|)
  {
    forall m :: n < m < |schedule| ==> !CommitsFor(g, Run(g, Start(g, table), schedule[..m]), schedule[m], opportunity)
  }

  lemma RunSnoc(g: Setting, s: State, schedule: seq<nat>)
    requires |g.jobs| == |s.phases| && Names(schedule, |g.jobs|) && schedule != []
    ensures Run(g, s, schedule) == Step(g, Run(g, s, schedule[..|schedule| - 1]), schedule[|schedule| - 1])
  {
  }

  lemma {:induction false} CellsStay(g: Setting, table: seq<Row>, schedule: seq<nat>, n: nat, opportunity: string,
                                     k: string)
    requires Sound(table, g.known) && KeyedByOpportunity(g, table) && Names(schedule, |g.jobs|)
    requires n < |schedule| && QuietAfter(g, table, schedule, n, opportunity)
    ensures Cell(Run(g, Start(g, table), schedule).table, opportunity, k)
         == Cell(Run(g, Start(g, table), schedule[..n + 1]).table, opportunity, k)
  {
    var last := |schedule| - 1;
    if n < last {
      hide Run, Step, Inv, Cell, Sound, KeyedByOpportunity, CommitsFor, QuietAfter, Start;
      QuietPrefix(g, table, schedule, n, opportunity);
      CellsStay(g, table, schedule[..last], n, opportunity, k);
      PrefixOfPrefix(schedule, last, n + 1);
      ReachableInv(g, table, schedule[..last]);
      StepCell(g, Run(g, Start(g, table), schedule[..last]), schedule[last], opportunity, k);
      RunSnoc(g, Start(g, table), schedule);
    } else {
      assert schedule[..n + 1] == schedule;
    }
  }

  lemma PrefixOfPrefix(schedule: seq<nat>, last: nat, n: nat)
    requires n <= last <= |schedule|
    ensures schedule[..last][..n] == schedule[..n]
  {
  }

  lemma QuietPrefix(g: Setting, table: seq<Row>, schedule: seq<nat>, n: nat, opportunity: string)
    requires Names(schedule, |g.jobs|) && n < |schedule| - 1 && QuietAfter(g, table, schedule, n, opportunity)
    ensures var last := |schedule| - 1;
      && QuietAfter(g, table, schedule[..last], n, opportunity)
      && !CommitsFor(g, Run(g, Start(g, table), schedule[..last]), schedule[last], opportunity)
  {
    hide Run, Commits;
    var last := |schedule| - 1;
    forall m | n < m < last
      ensures !CommitsFor(g, Run(g, Start(g, table), schedule[..last][..m]), schedule[..last][m], opportunity)
    {
      assert schedule[..last][..m] == schedule[..m];
    }
  }

  lemma CarriesCells(table: seq<Row>, job: Job)
    requires Has(table, job.opportunity)
    ensures Carries(table[Find(table, job.opportunity)], job) <==>
      forall k :: k in Assigned(job) ==> Cell(table, job.opportunity, k) == Some(Assigned(job)[k])
  {
    hide Assigned, Carries;
    var row := table[Find(table, job.opportunity)];
    CarriesAssigned(row, job);
    if Carries(row, job) {
      forall k | k in Assigned(job) ensures Cell(table, job.opportunity, k) == Some(Assigned(job)[k]) {
      }
    }
    if forall k :: k in Assigned(job) ==> Cell(table, job.opportunity, k) == Some(Assigned(job)[k]) {
      forall k | k in Assigned(job) ensures k in row.columns && row.columns[k] == Assigned(job)[k] {
        assert Cell(table, job.opportunity, k) == Some(Assigned(job)[k]);
      }
    }
  }

  lemma WellTimedCells(g: Setting, s: State, w: nat)
    requires Inv(g, s) && w < |g.jobs| && Commits(g, s, w)
    ensures var job := g.jobs[w];
      WellTimed(g, s, w) <==>
      forall k :: k in Assigned(job) && Skips(g, s, w, k) ==>
        Cell(s.table, job.opportunity, k) == Some(Assigned(job)[k])
  {
    hide Sound, KeyedByOpportunity, PhaseOk, Assigned, Violates;
    if s.phases[w].Updating? {
      UpdatingKnown(g, s, w);
    }
  }

  /** Let step `n` be an opportunity's last commit. Then its one row carries that worker's values
      exactly if that worker's own statement was well timed, whatever happened to the others. */
  lemma FinalRowIff(g: Setting, table: seq<Row>, schedule: seq<nat>, n: nat)
    requires Sound(table, g.known) && KeyedByOpportunity(g, table) && Names(schedule, |g.jobs|) && n < |schedule|
    requires Commits(g, Run(g, Start(g, table), schedule[..n]), schedule[n])
    requires QuietAfter(g, table, schedule, n, g.jobs[schedule[n]].opportunity)
    ensures var after, job := Run(g, Start(g, table), schedule).table, g.jobs[schedule[n]];
      && Has(after, job.opportunity)
      && (forall j :: 0 <= j < |after| && after[j].opportunity == job.opportunity ==> j == Find(after, job.opportunity))
      && (Carries(after[Find(after, job.opportunity)], job)
          <==> WellTimed(g, Run(g, Start(g, table), schedule[..n]), schedule[n]))
  {
    var w, s, t := schedule[n], Run(g, Start(g, table), schedule[..n]), Run(g, Start(g, table), schedule);
    var job := g.jobs[w];
    assert schedule[..n + 1][..n] == schedule[..n];
    assert Run(g, Start(g, table), schedule[..n + 1]) == Step(g, s, w);
    hide Run, Step, Cell, QuietAfter, KeyedByOpportunity, Assigned, Skips, Commits, WellTimed, PhaseOk, Carries;
    ReachableInv(g, table, schedule[..n]);
    ReachableInv(g, table, schedule);
    CommittedHasRow(g, table, schedule, n);
    forall k | k in Assigned(job)
      ensures Cell(t.table, job.opportunity, k) ==
        if Skips(g, s, w, k) then Cell(s.table, job.opportunity, k) else Some(Assigned(job)[k])
    {
      CellsStay(g, table, schedule, n, job.opportunity, k);
      StepCell(g, s, w, job.opportunity, k);
    }
    CarriesCells(t.table, job);
    WellTimedCells(g, s, w);
  }

  lemma CommittedHasRow(g: Setting, table: seq<Row>, schedule: seq<nat>, n: nat)
    requires Sound(table, g.known) && KeyedByOpportunity(g, table) && Names(schedule, |g.jobs|) && n < |schedule|
    requires Commits(g, Run(g, Start(g, table), schedule[..n]), schedule[n])
    ensures Has(Run(g, Start(g, table), schedule).table, g.jobs[schedule[n]].opportunity)
  {
    var w := schedule[n];
    DoneStays(g, table, schedule, n);
    ReachableInv(g, table, schedule);
    var t := Run(g, Start(g, table), schedule);
    assert PhaseOk(g, t.table, g.jobs[w], t.phases[w]);
  }

  lemma CommitEnds(g: Setting, s: State, w: nat)
    requires w < |g.jobs| == |s.phases| && Commits(g, s, w)
    ensures Step(g, s, w).phases[w] == Done
  {
    hide Find, Violates, UpdateRow, Written;
  }

  lemma DoneIsFinal(g: Setting, s: State, v: nat, w: nat)
    requires v < |g.jobs| == |s.phases| && w < |g.jobs| && s.phases[w] == Done
    ensures Step(g, s, v).phases[w] == Done
  {
    hide Find, Violates, UpdateRow, Written;
  }

  lemma {:induction false} DoneStays(g: Setting, table: seq<Row>, schedule: seq<nat>, n: nat)
    requires Names(schedule, |g.jobs|) && n < |schedule|
    requires Commits(g, Run(g, Start(g, table), schedule[..n]), schedule[n])
    ensures Run(g, Start(g, table), schedule).phases[schedule[n]] == Done
  {
    hide Run, Step, Commits;
    var last := |schedule| - 1;
    RunSnoc(g, Start(g, table), schedule);
    if n < last {
      PrefixOfPrefix(schedule, last, n);
      DoneStays(g, table, schedule[..last], n);
      DoneIsFinal(g, Run(g, Start(g, table), schedule[..last]), schedule[last], schedule[n]);
    } else {
      CommitEnds(g, Run(g, Start(g, table), schedule[..n]), schedule[n]);
    }
  }

  /** With a mapper that writes every column, the last committer's truth pack and values always
      stand, and every other column is as that commit found it. */
  lemma FinalRow(g: Setting, table: seq<Row>, schedule: seq<nat>, n: nat)
    requires !g.onlyChanges
    requires Sound(table, g.known) && KeyedByOpportunity(g, table) && Names(schedule, |g.jobs|) && n < |schedule|
    requires Commits(g, Run(g, Start(g, table), schedule[..n]), schedule[n])
    requires QuietAfter(g, table, schedule, n, g.jobs[schedule[n]].opportunity)
    ensures var before, after := Run(g, Start(g, table), schedule[..n]).table, Run(g, Start(g, table), schedule).table;
      var job := g.jobs[schedule[n]];
      && Has(after, job.opportunity) && Carries(after[Find(after, job.opportunity)], job)
      && (forall k :: k !in job.values && k != PACK ==>
            Cell(after, job.opportunity, k) == Cell(before, job.opportunity, k))
  {
    hide Run, Carries, QuietAfter, Sound, KeyedByOpportunity, Commits, Assigned, Step, Cell, Inv;
    FinalRowIff(g, table, schedule, n);
    var job := g.jobs[schedule[n]];
    AssignedMeans(job);
    forall k | k !in job.values && k != PACK
      ensures Cell(Run(g, Start(g, table), schedule).table, job.opportunity, k)
           == Cell(Run(g, Start(g, table), schedule[..n]).table, job.opportunity, k)
    {
      CellsStay(g, table, schedule, n, job.opportunity, k);
      ReachableInv(g, table, schedule[..n]);
      StepCell(g, Run(g, Start(g, table), schedule[..n]), schedule[n], job.opportunity, k);
      PrefixOfPrefix(schedule, n + 1, n);
      RunSnoc(g, Start(g, table), schedule[..n + 1]);
    }
  }

  /** A row keeps the id of the worker that inserted it. */
  lemma InsertedId(g: Setting, s: State, w: nat)
    requires Inv(g, s) && w < |g.jobs| && s.phases[w].Inserting? && Commits(g, s, w)
    ensures var after := Step(g, s, w).table;
      && Has(after, g.jobs[w].opportunity) && after[Find(after, g.jobs[w].opportunity)].id == g.jobs[w].id
      && forall o :: o != g.jobs[w].opportunity ==> (Has(after, o) <==> Has(s.table, o))
  {
    hide Sound, KeyedByOpportunity, PhaseOk, Assigned;
    var job := g.jobs[w];
    NoConflictNoRow(s.table, job, g.known);
    forall o ensures Find(Step(g, s, w).table, o) ==
      if Has(s.table, o) then Find(s.table, o) else if job.opportunity == o then |s.table| else |s.table| + 1
    {
      FindAppend(s.table, Row(job.id, job.opportunity, Assigned(job)), o);
    }
  }

  /** Ids are never rewritten, and rows never go. */
  lemma StepKeepsRows(g: Setting, s: State, w: nat)
    requires Inv(g, s) && w < |g.jobs|
    ensures Extends(s.table, Step(g, s, w).table)
  {
    hide Sound, KeyedByOpportunity, PhaseOk, Extends, Step;
    OwnStep(g, s, w);
  }

  // ----- a mapper that writes changes only -----

  function Known(): Row { Row("id", "o", map["fit_score" := "1", "truth_pack_hash" := "p"]) }
  function First(): Job { Job("id", "o", "p", map["fit_score" := "2"]) }
  function Second(): Job { Job("id", "o", "p", map["fit_score" := "1"]) }

  function Racing(): Setting { Setting([First(), Second()], {"o"}, true) }

  lemma BothRead()
    ensures Step(Racing(), Step(Racing(), Start(Racing(), [Known()]), 0), 1)
         == State([Known()], [Updating(Known()), Updating(Known())], [])
  {
    var s := Step(Racing(), Start(Racing(), [Known()]), 0);
    assert Find([Known()], "o") == 0;
    assert s == State([Known()], [Updating(Known()), Selecting], []);
    assert Step(Racing(), s, 1).phases == [Updating(Known()), Updating(Known())];
  }

  function Overwritten(): Row { Known().(columns := map["fit_score" := "2", "truth_pack_hash" := "p"]) }

  lemma FirstWrites()
    ensures Step(Racing(), State([Known()], [Updating(Known()), Updating(Known())], []), 0)
         == State([Overwritten()], [Done, Updating(Known())], [0])
  {
    var s := State([Known()], [Updating(Known()), Updating(Known())], []);
    assert Written(Known(), First(), true) == map["fit_score" := "2"];
    assert Known().columns + map["fit_score" := "2"] == Overwritten().columns;
    assert Step(Racing(), s, 0).table == [Overwritten()];
    assert Step(Racing(), s, 0).phases == [Done, Updating(Known())];
  }

  lemma SecondSkips()
    ensures Step(Racing(), State([Overwritten()], [Done, Updating(Known())], [0]), 1)
         == State([Overwritten()], [Done, Done], [0, 1])
  {
    var s := State([Overwritten()], [Done, Updating(Known())], [0]);
    assert Written(Known(), Second(), true) == map[];
    assert Overwritten().columns + map[] == Overwritten().columns;
    assert Step(Racing(), s, 1).table == [Overwritten()];
    assert Step(Racing(), s, 1).phases == [Done, Done];
  }

  lemma FourSteps(g: Setting, s: State, a: nat, b: nat, c: nat, d: nat)
    requires |g.jobs| == |s.phases| && a < |g.jobs| && b < |g.jobs| && c < |g.jobs| && d < |g.jobs|
    ensures Run(g, s, [a, b, c, d]) == Step(g, Step(g, Step(g, Step(g, s, a), b), c), d)
  {
    hide Step;
    assert [a, b, c, d][..3] == [a, b, c] && [a, b, c][..2] == [a, b] && [a, b][..1] == [a] && [a][..0] == [];
    assert [a, b, c, d][0] == a && [a, b, c, d][1] == b && [a, b, c, d][2] == c && [a, b, c, d][3] == d;
    assert Run(g, s, []) == s;
    assert Run(g, s, [a]) == Step(g, s, a);
    assert Run(g, s, [a, b]) == Step(g, Step(g, s, a), b);
    assert Run(g, s, [a, b, c]) == Step(g, Step(g, Step(g, s, a), b), c);
  }

  /** Two workers read the same row; the one committing last wants a value that it read, so its
      update skips the column and the other worker's value stays. */
  lemma SkippedColumn()
    ensures var s := Run(Racing(), Start(Racing(), [Known()]), [0, 1, 0, 1]);
      && s.commits == [0, 1] && s.phases == [Done, Done]
      && |s.table| == 1 && Carries(s.table[0], First()) && !Carries(s.table[0], Second())
  {
    hide Run, Step;
    FourSteps(Racing(), Start(Racing(), [Known()]), 0, 1, 0, 1);
    BothRead();
    FirstWrites();
    SecondSkips();
    assert "fit_score" in Assigned(Second());
  }

  /** A worker that is not interleaved with another acts as the atomic statement, in both modes. */
  lemma Alone(g: Setting, s: State, w: nat)
    requires Inv(g, s) && w < |g.jobs| && s.phases[w] == Selecting && g.jobs[w].opportunity in g.known
    ensures Step(g, Step(g, s, w), w).table == Atomic(s.table, g.jobs[w])
    ensures Step(g, Step(g, s, w), w).phases[w] == Done
  {
    hide Sound, KeyedByOpportunity, PhaseOk, UpdateRow;
    var t := Step(g, s, w);
    StepKeepsInv(g, s, w);
    if t.phases[w].Updating? {
      CommitIsAtomic(g, t, w);
    } else {
      if Violates(s.table, g.jobs[w], g.known) {
        ConflictMeansRow(g, s.table, w);
      }
      InsertSound(g, s.table, w);
    }
  }

  // ----- every worker finishes -----

  function Remaining(p: Phase): nat {
    match p
    case Selecting => 4 case Inserting => 3 case Reselecting => 2 case Updating(_) => 1 case Done => 0 case Raised => 0
  }

  function Turns(schedule: seq<nat>, w: nat): nat {
    if schedule == [] then 0
    else Turns(schedule[..|schedule| - 1], w) + if schedule[|schedule| - 1] == w then 1 else 0
  }

  lemma StepAdvances(g: Setting, s: State, v: nat, w: nat)
    requires v < |g.jobs| == |s.phases| && w < |g.jobs|
    ensures var p, q := s.phases[w], Step(g, s, v).phases[w];
      if v != w || p in {Done, Raised} then q == p else Remaining(q) < Remaining(p)
  {
    hide Find, Violates, UpdateRow;
  }

  /** A worker needs at most four turns, whatever the others do. */
  lemma {:induction false} FinishesInFourTurns(g: Setting, table: seq<Row>, schedule: seq<nat>, w: nat)
    requires w < |g.jobs| && Names(schedule, |g.jobs|)
    ensures Turns(schedule, w) + Remaining(Run(g, Start(g, table), schedule).phases[w]) <= 4
      || Run(g, Start(g, table), schedule).phases[w] in {Done, Raised}
    ensures Turns(schedule, w) >= 4 ==> Run(g, Start(g, table), schedule).phases[w] in {Done, Raised}
  {
    if schedule != [] {
      hide Step;
      FinishesInFourTurns(g, table, schedule[..|schedule| - 1], w);
      StepAdvances(g, Run(g, Start(g, table), schedule[..|schedule| - 1]), schedule[|schedule| - 1], w);
    }
  }
}
