/** The line loop of `read_condor_q` in pyhdtoolkit/utils/htcondor.py.

    Each line is classified by the tests of the loop body in order, and the
    line's parser, if its kind has one, either raises or updates one local
    variable. The loop is stated over any three line parsers, so that what it
    computes follows from the classification alone; `ReadCondorQ` plugs in the
    parsers of the HtCondor module.
 */
module CondorQ {
  import opened Errors
  import opened Text
  import opened HtCondor

  /** The parsers the loop calls: the scheduler line, a task line, and a
      summary line with the pattern of its query slot. */
  datatype LineParsers = LineParsers(
    scheduler: string -> Result<string>,
    task: string -> Result<TaskSummary>,
    summary: (string, QueryPattern) -> Result<Summary>)

  const ReportParsers: LineParsers := LineParsers(ParseSchedulerLine, ParseTaskLine, ParseClusterSummaryLine)

  /** `line in ("\n", "")`. */
  predicate Blank(l: string) {
    l == "" || l == "\n"
  }

  const SchedPrefix: string := "-- Schedd:"
  const HeaderPrefix: string := "OWNER"

  /** The role a line plays, decided by the tests of the loop body in order:
      the scheduler prefix, the header prefix, task mode (where a blank line
      ends the block), then the three summary tests. */
  datatype LineKind =
    | SchedulerLine | HeaderLine | TaskLine | TaskBlockEnd
    | QueryLine | AllUsersLine | UserLine | Ignored

  function Classify(inTasks: bool, line: string): LineKind {
    if StartsWith(line, SchedPrefix) then SchedulerLine
    else if StartsWith(line, HeaderPrefix) then HeaderLine
    else if inTasks then (if !Blank(line) then TaskLine else TaskBlockEnd)
    else if Contains(line, "query") then QueryLine
    else if Contains(line, "all users") then AllUsersLine
    else if !Blank(line) then UserLine
    else Ignored
  }

  /** The reader's local state: the tasks read so far, whether the next line is
      a task line, and the last value given to each summary variable (None
      while the Python local is still unbound). */
  datatype Reading = Reading(tasks: seq<TaskSummary>, inTasks: bool, scheduler: Option<string>,
                             query: Option<Summary>, user: Option<Summary>, cluster: Option<Summary>)

  const Fresh: Reading := Reading([], false, None, None, None, None)

  /** The owner summary's query slot: the first task's owner, or the wildcard. */
  function OwnerPattern(tasks: seq<TaskSummary>): QueryPattern {
    if |tasks| > 0 then Literal(tasks[0].owner) else Wildcard
  }

  /** One iteration of the loop of `read_condor_q`. */
  function Step(p: LineParsers, st: Reading, line: string): Result<Reading> {
    match Classify(st.inTasks, line)
    case SchedulerLine =>
      var id :- p.scheduler(line);
      Ok(st.(scheduler := Some(id)))
    case HeaderLine => Ok(st.(inTasks := true))
    case TaskLine =>
      var task :- p.task(line);
      Ok(st.(tasks := st.tasks + [task]))
    case TaskBlockEnd => Ok(st.(inTasks := false))
    case QueryLine =>
      var s :- p.summary(line, Literal("query"));
      Ok(st.(query := Some(s)))
    case AllUsersLine =>
      var s :- p.summary(line, Literal("all users"));
      Ok(st.(cluster := Some(s)))
    case UserLine =>
      var s :- p.summary(line, OwnerPattern(st.tasks));
      Ok(st.(user := Some(s)))
    case Ignored => Ok(st)
  }

  /** The loop run over the first `n` lines; the first raise ends it. */
  function Steps(p: LineParsers, lines: seq<string>, n: nat): Result<Reading>
    requires n <= |lines|
  {
    if n == 0 then Ok(Fresh)
    else
      var st :- Steps(p, lines, n - 1);
      Step(p, st, lines[n - 1])
  }

  datatype ClusterSummary = ClusterSummary(schedulerId: string, query: Summary, user: Summary, cluster: Summary)

  /** Building the result: a summary variable that no line assigned is an
      unbound local, checked in keyword-argument order. */
  function Finish(st: Reading): Result<(seq<TaskSummary>, ClusterSummary)> {
    if st.scheduler.None? then Err(UnboundLocalError("scheduler_id"))
    else if st.query.None? then Err(UnboundLocalError("query_summary"))
    else if st.user.None? then Err(UnboundLocalError("owner_summary"))
    else if st.cluster.None? then Err(UnboundLocalError("full_summary"))
    else Ok((st.tasks, ClusterSummary(st.scheduler.value, st.query.value, st.user.value, st.cluster.value)))
  }

  /** The loop over the report's lines followed by building the result. */
  function Read(p: LineParsers, report: string): Result<(seq<TaskSummary>, ClusterSummary)> {
    var lines := SplitLines(report);
    var st :- Steps(p, lines, |lines|);
    Finish(st)
  }

  /** `read_condor_q(report)`. */
  function ReadCondorQ(report: string): Result<(seq<TaskSummary>, ClusterSummary)> {
    Read(ReportParsers, report)
  }

  // ---------------------------------------------------------------------------
  // What the reader computes, stated line by line
  // ---------------------------------------------------------------------------

  /** Line `k` is read in task mode exactly when some header line precedes it
      with no blank line in between. */
  predicate InTaskMode(lines: seq<string>, k: nat)
    requires k <= |lines|
  {
    exists j :: 0 <= j < k && StartsWith(lines[j], HeaderPrefix)
                && forall m :: j < m < k ==> !Blank(lines[m])
  }

  lemma InTaskModeStep(lines: seq<string>, n: nat)
    requires 1 <= n <= |lines|
    ensures InTaskMode(lines, n) <==>
              StartsWith(lines[n - 1], HeaderPrefix) || (InTaskMode(lines, n - 1) && !Blank(lines[n - 1]))
  {
    if InTaskMode(lines, n) && !StartsWith(lines[n - 1], HeaderPrefix) {
      var j :| 0 <= j < n && StartsWith(lines[j], HeaderPrefix) && forall m :: j < m < n ==> !Blank(lines[m]);
      assert j < n - 1;
      assert !Blank(lines[n - 1]);
      assert InTaskMode(lines, n - 1);
    }
    if InTaskMode(lines, n - 1) && !Blank(lines[n - 1]) {
      var j :| 0 <= j < n - 1 && StartsWith(lines[j], HeaderPrefix) && forall m :: j < m < n - 1 ==> !Blank(lines[m]);
      assert forall m :: j < m < n ==> !Blank(lines[m]);
    }
  }

  /** The kind of line `k` of the report. */
  function Kind(lines: seq<string>, k: nat): LineKind
    requires k < |lines|
  {
    Classify(InTaskMode(lines, k), lines[k])
  }

  /** The task lines among the first `n` lines, in order. */
  function TaskLines(lines: seq<string>, n: nat): seq<string>
    requires n <= |lines|
  {
    if n == 0 then []
    else TaskLines(lines, n - 1) + (if Kind(lines, n - 1) == TaskLine then [lines[n - 1]] else [])
  }

  /** The last line of a kind among the first `n` lines. */
  function LastOfKind(lines: seq<string>, n: nat, kind: LineKind): (r: Option<nat>)
    requires n <= |lines|
    ensures r.Some? ==> r.value < n && Kind(lines, r.value) == kind
    ensures r.Some? ==> forall m :: r.value < m < n ==> Kind(lines, m) != kind
    ensures r.None? ==> forall m :: 0 <= m < n ==> Kind(lines, m) != kind
  {
    if n == 0 then None
    else if Kind(lines, n - 1) == kind then Some(n - 1)
    else LastOfKind(lines, n - 1, kind)
  }

  /** The owner pattern in force at line `k`: the first task's owner, if any. */
  function OwnerAt(p: LineParsers, lines: seq<string>, k: nat): QueryPattern
    requires k <= |lines|
  {
    var ts := TaskLines(lines, k);
    if |ts| > 0 && p.task(ts[0]).Ok? then Literal(p.task(ts[0]).value.owner) else Wildcard
  }

  /** Line `k` parses as its kind demands. */
  predicate Parses(p: LineParsers, lines: seq<string>, k: nat)
    requires k < |lines|
  {
    var l := lines[k];
    match Kind(lines, k)
    case SchedulerLine => p.scheduler(l).Ok?
    case TaskLine => p.task(l).Ok?
    case QueryLine => p.summary(l, Literal("query")).Ok?
    case AllUsersLine => p.summary(l, Literal("all users")).Ok?
    case UserLine => p.summary(l, OwnerAt(p, lines, k)).Ok?
    case _ => true
  }

  /** The tasks read so far are those of the task lines, in order. */
  predicate TasksRead(p: LineParsers, tasks: seq<TaskSummary>, lines: seq<string>, n: nat)
    requires n <= |lines|
  {
    var ts := TaskLines(lines, n);
    |tasks| == |ts| && forall i :: 0 <= i < |ts| ==> p.task(ts[i]) == Ok(tasks[i])
  }

  function ReadScheduler(p: LineParsers, lines: seq<string>, k: nat): Result<string>
    requires k < |lines|
  {
    p.scheduler(lines[k])
  }

  function ReadQuery(p: LineParsers, lines: seq<string>, k: nat): Result<Summary>
    requires k < |lines|
  {
    p.summary(lines[k], Literal("query"))
  }

  function ReadAllUsers(p: LineParsers, lines: seq<string>, k: nat): Result<Summary>
    requires k < |lines|
  {
    p.summary(lines[k], Literal("all users"))
  }

  function ReadUser(p: LineParsers, lines: seq<string>, k: nat): Result<Summary>
    requires k < |lines|
  {
    p.summary(lines[k], OwnerAt(p, lines, k))
  }

  /** The reader's state after `n` lines, described without the loop. */
  predicate Describes(p: LineParsers, st: Reading, lines: seq<string>, n: nat)
    requires n <= |lines|
  {
    && st.inTasks == InTaskMode(lines, n)
    && TasksRead(p, st.tasks, lines, n)
    && (st.scheduler.Some? <==> LastOfKind(lines, n, SchedulerLine).Some?)
    && (st.scheduler.Some? ==> ReadScheduler(p, lines, LastOfKind(lines, n, SchedulerLine).value) == Ok(st.scheduler.value))
    && (st.query.Some? <==> LastOfKind(lines, n, QueryLine).Some?)
    && (st.query.Some? ==> ReadQuery(p, lines, LastOfKind(lines, n, QueryLine).value) == Ok(st.query.value))
    && (st.cluster.Some? <==> LastOfKind(lines, n, AllUsersLine).Some?)
    && (st.cluster.Some? ==> ReadAllUsers(p, lines, LastOfKind(lines, n, AllUsersLine).value) == Ok(st.cluster.value))
    && (st.user.Some? <==> LastOfKind(lines, n, UserLine).Some?)
    && (st.user.Some? ==> ReadUser(p, lines, LastOfKind(lines, n, UserLine).value) == Ok(st.user.value))
  }

  /** The loop reads the first `n` lines without raising exactly when every
      one of them parses as its kind demands, and then its state is the one
      the line kinds describe: the task lines' tasks in order, the task-mode
      flag, and for each summary variable the parse of the last line of its
      kind. */
  lemma {:induction false} StepsMeaning(p: LineParsers, lines: seq<string>, n: nat)
    requires n <= |lines|
    ensures Steps(p, lines, n).Ok? <==> forall k :: 0 <= k < n ==> Parses(p, lines, k)
    ensures Steps(p, lines, n).Ok? ==> Describes(p, Steps(p, lines, n).value, lines, n)
  {
    if n == 0 {
      assert !InTaskMode(lines, 0);
    } else {
      StepsMeaning(p, lines, n - 1);
      var prev := Steps(p, lines, n - 1);
      assert (forall k :: 0 <= k < n ==> Parses(p, lines, k))
             <==> (forall k :: 0 <= k < n - 1 ==> Parses(p, lines, k)) && Parses(p, lines, n - 1);
      if prev.Ok? {
        var st := prev.value;
        assert Steps(p, lines, n) == Step(p, st, lines[n - 1]);
        StepParses(p, lines, n - 1, st);
        if Step(p, st, lines[n - 1]).Ok? {
          StepDescribes(p, lines, n - 1, st);
        }
      } else {
        assert Steps(p, lines, n).Err?;
      }
    }
  }

  /** With the state describing the lines before it, a line is read without
      raising exactly when it parses as its kind demands. */
  lemma StepParses(p: LineParsers, lines: seq<string>, k: nat, st: Reading)
    requires k < |lines| && st.inTasks == InTaskMode(lines, k) && TasksRead(p, st.tasks, lines, k)
    ensures Step(p, st, lines[k]).Ok? <==> Parses(p, lines, k)
  {
    var l := lines[k];
    var kind := Classify(st.inTasks, l);
    assert Kind(lines, k) == kind;
    OwnerAtOfTasks(p, lines, k, st.tasks);
    match kind
    case SchedulerLine =>
      assert Step(p, st, l).Ok? <==> p.scheduler(l).Ok?;
    case TaskLine =>
      assert Step(p, st, l).Ok? <==> p.task(l).Ok?;
    case QueryLine =>
      assert Step(p, st, l).Ok? <==> p.summary(l, Literal("query")).Ok?;
    case AllUsersLine =>
      assert Step(p, st, l).Ok? <==> p.summary(l, Literal("all users")).Ok?;
    case UserLine =>
      assert Step(p, st, l).Ok? <==> p.summary(l, OwnerPattern(st.tasks)).Ok?;
    case _ =>
  }

  lemma StepDescribes(p: LineParsers, lines: seq<string>, k: nat, st: Reading)
    requires k < |lines| && Describes(p, st, lines, k) && Step(p, st, lines[k]).Ok?
    ensures Describes(p, Step(p, st, lines[k]).value, lines, k + 1)
  {
    StepTasks(p, lines, k, st);
    StepMode(p, lines, k, st);
    StepScheduler(p, lines, k, st);
    StepQuery(p, lines, k, st);
    StepCluster(p, lines, k, st);
    StepUser(p, lines, k, st);
  }

  lemma StepScheduler(p: LineParsers, lines: seq<string>, k: nat, st: Reading)
    requires k < |lines| && st.inTasks == InTaskMode(lines, k) && Step(p, st, lines[k]).Ok?
    requires st.scheduler.Some? <==> LastOfKind(lines, k, SchedulerLine).Some?
    requires st.scheduler.Some? ==> ReadScheduler(p, lines, LastOfKind(lines, k, SchedulerLine).value) == Ok(st.scheduler.value)
    ensures var v := Step(p, st, lines[k]).value.scheduler;
            && (v.Some? <==> LastOfKind(lines, k + 1, SchedulerLine).Some?)
            && (v.Some? ==> ReadScheduler(p, lines, LastOfKind(lines, k + 1, SchedulerLine).value) == Ok(v.value))
  {
    var l := lines[k];
    assert Kind(lines, k) == Classify(st.inTasks, l);
    if Classify(st.inTasks, l) == SchedulerLine {
      assert Step(p, st, l).value.scheduler == Some(p.scheduler(l).value);
    } else {
      assert Step(p, st, l).value.scheduler == st.scheduler;
    }
  }

  lemma StepQuery(p: LineParsers, lines: seq<string>, k: nat, st: Reading)
    requires k < |lines| && st.inTasks == InTaskMode(lines, k) && Step(p, st, lines[k]).Ok?
    requires st.query.Some? <==> LastOfKind(lines, k, QueryLine).Some?
    requires st.query.Some? ==> ReadQuery(p, lines, LastOfKind(lines, k, QueryLine).value) == Ok(st.query.value)
    ensures var v := Step(p, st, lines[k]).value.query;
            && (v.Some? <==> LastOfKind(lines, k + 1, QueryLine).Some?)
            && (v.Some? ==> ReadQuery(p, lines, LastOfKind(lines, k + 1, QueryLine).value) == Ok(v.value))
  {
    var l := lines[k];
    assert Kind(lines, k) == Classify(st.inTasks, l);
    if Classify(st.inTasks, l) == QueryLine {
      assert Step(p, st, l).value.query == Some(ReadQuery(p, lines, k).value);
    } else {
      assert Step(p, st, l).value.query == st.query;
    }
  }

  lemma StepCluster(p: LineParsers, lines: seq<string>, k: nat, st: Reading)
    requires k < |lines| && st.inTasks == InTaskMode(lines, k) && Step(p, st, lines[k]).Ok?
    requires st.cluster.Some? <==> LastOfKind(lines, k, AllUsersLine).Some?
    requires st.cluster.Some? ==> ReadAllUsers(p, lines, LastOfKind(lines, k, AllUsersLine).value) == Ok(st.cluster.value)
    ensures var v := Step(p, st, lines[k]).value.cluster;
            && (v.Some? <==> LastOfKind(lines, k + 1, AllUsersLine).Some?)
            && (v.Some? ==> ReadAllUsers(p, lines, LastOfKind(lines, k + 1, AllUsersLine).value) == Ok(v.value))
  {
    var l := lines[k];
    assert Kind(lines, k) == Classify(st.inTasks, l);
    if Classify(st.inTasks, l) == AllUsersLine {
      assert Step(p, st, l).value.cluster == Some(ReadAllUsers(p, lines, k).value);
    } else {
      assert Step(p, st, l).value.cluster == st.cluster;
    }
  }

  lemma StepUser(p: LineParsers, lines: seq<string>, k: nat, st: Reading)
    requires k < |lines| && st.inTasks == InTaskMode(lines, k) && TasksRead(p, st.tasks, lines, k) && Step(p, st, lines[k]).Ok?
    requires st.user.Some? <==> LastOfKind(lines, k, UserLine).Some?
    requires st.user.Some? ==> ReadUser(p, lines, LastOfKind(lines, k, UserLine).value) == Ok(st.user.value)
    ensures var v := Step(p, st, lines[k]).value.user;
            && (v.Some? <==> LastOfKind(lines, k + 1, UserLine).Some?)
            && (v.Some? ==> ReadUser(p, lines, LastOfKind(lines, k + 1, UserLine).value) == Ok(v.value))
  {
    var l := lines[k];
    assert Kind(lines, k) == Classify(st.inTasks, l);
    OwnerAtOfTasks(p, lines, k, st.tasks);
    match Classify(st.inTasks, l)
    case UserLine =>
      assert Step(p, st, l) == Ok(st.(user := Some(ReadUser(p, lines, k).value)));
    case SchedulerLine =>
      assert Step(p, st, l).value.user == st.user;
    case HeaderLine =>
    case TaskLine =>
      assert Step(p, st, l).value.user == st.user;
    case TaskBlockEnd =>
    case QueryLine =>
      assert Step(p, st, l).value.user == st.user;
    case AllUsersLine =>
      assert Step(p, st, l).value.user == st.user;
    case Ignored =>
  }

  /** The owner pattern in force is the first task's owner. */
  lemma OwnerAtOfTasks(p: LineParsers, lines: seq<string>, k: nat, tasks: seq<TaskSummary>)
    requires k <= |lines| && TasksRead(p, tasks, lines, k)
    ensures OwnerAt(p, lines, k) == OwnerPattern(tasks)
  {
    var ts := TaskLines(lines, k);
    if |ts| > 0 {
      assert p.task(ts[0]) == Ok(tasks[0]);
    }
  }

  lemma StepMode(p: LineParsers, lines: seq<string>, k: nat, st: Reading)
    requires k < |lines| && st.inTasks == InTaskMode(lines, k) && Step(p, st, lines[k]).Ok?
    ensures Step(p, st, lines[k]).value.inTasks == InTaskMode(lines, k + 1)
  {
    var l := lines[k];
    InTaskModeStep(lines, k + 1);
    SchedulerLineIsNoHeader(l);
    match Classify(st.inTasks, l)
    case HeaderLine =>
    case TaskBlockEnd =>
    case SchedulerLine =>
      assert Step(p, st, l).value.inTasks == st.inTasks;
    case _ =>
      assert Step(p, st, l).value.inTasks == st.inTasks;
  }

  /** The scheduler prefix and the header prefix exclude each other, and
      neither line is blank. */
  lemma SchedulerLineIsNoHeader(l: string)
    ensures StartsWith(l, SchedPrefix) ==> !StartsWith(l, HeaderPrefix) && !Blank(l)
    ensures StartsWith(l, HeaderPrefix) ==> !Blank(l)
  {
    if StartsWith(l, SchedPrefix) && |l| >= 5 {
      assert l[0] == l[..10][0] == '-';
      assert l[..5][0] == l[0];
    }
  }

  lemma StepTasks(p: LineParsers, lines: seq<string>, k: nat, st: Reading)
    requires k < |lines| && st.inTasks == InTaskMode(lines, k) && TasksRead(p, st.tasks, lines, k)
    requires Step(p, st, lines[k]).Ok?
    ensures TasksRead(p, Step(p, st, lines[k]).value.tasks, lines, k + 1)
  {
    var l := lines[k];
    var st' := Step(p, st, l).value;
    assert Kind(lines, k) == Classify(st.inTasks, l);
    match Classify(st.inTasks, l)
    case TaskLine =>
      TasksReadAppend(p, st.tasks, lines, k, p.task(l).value);
    case SchedulerLine =>
      assert TaskLines(lines, k + 1) == TaskLines(lines, k);
    case HeaderLine =>
      assert TaskLines(lines, k + 1) == TaskLines(lines, k);
    case TaskBlockEnd =>
      assert TaskLines(lines, k + 1) == TaskLines(lines, k);
    case QueryLine =>
      assert TaskLines(lines, k + 1) == TaskLines(lines, k);
    case AllUsersLine =>
      assert TaskLines(lines, k + 1) == TaskLines(lines, k);
    case UserLine =>
      assert TaskLines(lines, k + 1) == TaskLines(lines, k);
    case Ignored =>
      assert TaskLines(lines, k + 1) == TaskLines(lines, k);
  }

  /** Reading one more task line appends its parse. */
  lemma TasksReadAppend(p: LineParsers, tasks: seq<TaskSummary>, lines: seq<string>, k: nat, t: TaskSummary)
    requires k < |lines| && TasksRead(p, tasks, lines, k)
    requires Kind(lines, k) == TaskLine && p.task(lines[k]) == Ok(t)
    ensures TasksRead(p, tasks + [t], lines, k + 1)
  {
    var ts := TaskLines(lines, k);
    assert TaskLines(lines, k + 1) == ts + [lines[k]];
    forall i | 0 <= i < |ts| + 1
      ensures p.task((ts + [lines[k]])[i]) == Ok((tasks + [t])[i])
    {
      if i < |ts| {
        assert (ts + [lines[k]])[i] == ts[i];
      }
    }
  }

  /** `read_condor_q` returns exactly when every line parses as its kind
      demands and each of the four summary kinds occurs; the tasks are those
      of the task lines in order and each summary is the parse of the last
      line of its kind. */
  lemma ReadCondorQMeaning(report: string)
    ensures var p := ReportParsers;
            var lines := SplitLines(report);
            var n := |lines|;
            var r := ReadCondorQ(report);
            && (r.Ok? <==> (forall k :: 0 <= k < n ==> Parses(p, lines, k))
                           && LastOfKind(lines, n, SchedulerLine).Some? && LastOfKind(lines, n, QueryLine).Some?
                           && LastOfKind(lines, n, UserLine).Some? && LastOfKind(lines, n, AllUsersLine).Some?)
            && (r.Ok? ==>
                  && TasksRead(p, r.value.0, lines, n)
                  && ReadScheduler(p, lines, LastOfKind(lines, n, SchedulerLine).value) == Ok(r.value.1.schedulerId)
                  && ReadQuery(p, lines, LastOfKind(lines, n, QueryLine).value) == Ok(r.value.1.query)
                  && ReadAllUsers(p, lines, LastOfKind(lines, n, AllUsersLine).value) == Ok(r.value.1.cluster)
                  && ReadUser(p, lines, LastOfKind(lines, n, UserLine).value) == Ok(r.value.1.user))
  {
    var p, lines := ReportParsers, SplitLines(report);
    StepsMeaning(p, lines, |lines|);
  }

  /** Without any scheduler line the reader fails on the unbound
      `scheduler_id`, unless a line raised first. */
  lemma ReadCondorQNeedsScheduler(report: string)
    requires AllParse(ReportParsers, SplitLines(report))
    requires forall k :: 0 <= k < |SplitLines(report)| ==> !StartsWith(SplitLines(report)[k], SchedPrefix)
    ensures ReadCondorQ(report) == Err(UnboundLocalError("scheduler_id"))
  {
    var p, lines := ReportParsers, SplitLines(report);
    StepsMeaning(p, lines, |lines|);
    assert Steps(p, lines, |lines|).Ok?;
    NoSchedulerLine(lines);
  }

  /** Every line parses as its kind demands. */
  predicate AllParse(p: LineParsers, lines: seq<string>) {
    forall k :: 0 <= k < |lines| ==> Parses(p, lines, k)
  }

  lemma NoSchedulerLine(lines: seq<string>)
    requires forall k :: 0 <= k < |lines| ==> !StartsWith(lines[k], SchedPrefix)
    ensures LastOfKind(lines, |lines|, SchedulerLine).None?
  {
    var last := LastOfKind(lines, |lines|, SchedulerLine);
    if last.Some? {
      var k := last.value;
      ClassifyScheduler(InTaskMode(lines, k), lines[k]);
    }
  }

  lemma ClassifyScheduler(inTasks: bool, line: string)
    ensures Classify(inTasks, line) == SchedulerLine <==> StartsWith(line, SchedPrefix)
  {
  }
}
