/** evaluate_and_run_workflow: conditions, quota, actions, counters, execution logs and the meter. */
module Engine {
  import opened Json
  import opened Options
  import opened Workflows
  import opened Conditions
  import Interpolation
  import Paths
  import Calendar
  import Metering

  const METRIC := "workflow_executions"

  datatype ExecutionLog = ExecutionLog(workflow: nat, business: string, status: string, error: Option<string>)

  datatype Counters = Counters(skipped: nat, failedLimit: nat, failed: nat, success: nat) {
    function Total(): nat { skipped + failedLimit + failed + success }
  }

  /** Aborted: the usage check itself failed in the database, which leaves the function at once. */
  datatype Outcome = Skipped | Limited | Aborted | Failed(errors: seq<string>) | Succeeded

  /** Which storage calls fail, and with what message: the usage check, the execution log of the outcome, the
      meter's increment, and the exception handler's own log. */
  datatype Faults = Faults(check: bool, log: bool, charge: bool, relog: bool, message: string)

  /** The action executors: an error message, or None for success. */
  type Runner = (string, Json) -> Option<string>

  function Bump(c: Counters, o: Outcome): Counters {
    match o
    case Skipped => c.(skipped := c.skipped + 1)
    case Limited => c.(failedLimit := c.failedLimit + 1)
    case Aborted => c
    case Failed(_) => c.(failed := c.failed + 1)
    case Succeeded => c.(success := c.success + 1)
  }

  /** Does a workflow of this log depth record such an outcome? */
  predicate Recorded(o: Outcome, depth: string) {
    !o.Aborted? && (depth == "all" || (depth == "errors_only" && (o.Limited? || o.Failed?)))
  }

  const LIMIT_MESSAGE := "Usage limit exceeded for workflow_executions. Upgrade your plan."

  /** err_msg[:255]. */
  function Cropped(s: string): string { if |s| <= 255 then s else s[..255] }

  function Joined(errors: seq<string>): string {
    if errors == [] then "" else if |errors| == 1 then errors[0] else errors[0] + "; " + Joined(errors[1..])
  }

  function LogOf(w: Workflow, o: Outcome): ExecutionLog
    requires !o.Aborted?
  {
    match o
    case Skipped => ExecutionLog(w.id, w.business, "skipped", Some("Trigger conditions not met."))
    case Limited => ExecutionLog(w.id, w.business, "failed", Some(LIMIT_MESSAGE))
    case Failed(errors) => ExecutionLog(w.id, w.business, "failed", Some(Cropped(Joined(errors))))
    case Succeeded => ExecutionLog(w.id, w.business, "success", None)
  }

  /** The actions with their templates filled in. */
  function Resolved(py: Python, w: Workflow, payload: map<string, Json>): seq<Action> {
    seq(|w.actions|, i requires 0 <= i < |w.actions| =>
      Action(w.actions[i].kind, Interpolation.ResolveTemplates(w.actions[i].params, payload, py.show)))
  }

  function Errors(run: Runner, actions: seq<Action>): seq<string> {
    if actions == [] then []
    else
      var n := |actions| - 1;
      var r := run(actions[n].kind, actions[n].params);
      Errors(run, actions[..n]) + if r.Some? then [r.value] else []
  }

  /** The failures, in the order of the actions: the errors of one action are its own, and those of a list are
      those of its parts. */
  lemma ErrorsExact(run: Runner, actions: seq<Action>, more: seq<Action>, a: Action)
    ensures Errors(run, actions + more) == Errors(run, actions) + Errors(run, more)
    ensures Errors(run, []) == []
    ensures Errors(run, [a]) == match run(a.kind, a.params) case Some(e) => [e] case None => []
  {
    ErrorsConcat(run, actions, more);
    assert [a][..0] == [];
  }

  lemma ErrorsLast(run: Runner, actions: seq<Action>, a: Action)
    ensures Errors(run, actions + [a])
         == Errors(run, actions) + match run(a.kind, a.params) case Some(e) => [e] case None => []
  {
    assert (actions + [a])[..|actions|] == actions;
  }

  lemma {:induction false} ErrorsConcat(run: Runner, actions: seq<Action>, more: seq<Action>)
    ensures Errors(run, actions + more) == Errors(run, actions) + Errors(run, more)
  {
    if more == [] {
      assert actions + more == actions;
    } else {
      var n := |more| - 1;
      ErrorsConcat(run, actions, more[..n]);
      assert more == more[..n] + [more[n]] && actions + more == (actions + more[..n]) + [more[n]];
      ErrorsLast(run, more[..n], more[n]);
      ErrorsLast(run, actions + more[..n], more[n]);
      hide Errors;
    }
  }

  /** Nothing fails exactly when no action does. */
  lemma {:induction false} NoErrorsIff(run: Runner, actions: seq<Action>)
    ensures Errors(run, actions) == []
       <==> forall i :: 0 <= i < |actions| ==> run(actions[i].kind, actions[i].params).None?
  {
    if actions != [] { NoErrorsIff(run, actions[..|actions| - 1]); }
  }

  /** What is run: each action with its own kind and with its parameters filled from the payload. */
  lemma ResolvedActions(py: Python, w: Workflow, payload: map<string, Json>)
    ensures |Resolved(py, w, payload)| == |w.actions|
    ensures forall i :: 0 <= i < |w.actions| ==>
              && Resolved(py, w, payload)[i].kind == w.actions[i].kind
              && Interpolation.Interpolates(w.actions[i].params, payload, py.show, Resolved(py, w, payload)[i].params)
  {
    hide Interpolation.Interpolates;
    forall i | 0 <= i < |w.actions|
      ensures Interpolation.Interpolates(w.actions[i].params, payload, py.show, Resolved(py, w, payload)[i].params)
    {
      Interpolation.ResolveInterpolates(w.actions[i].params, payload, py.show);
    }
  }

  /** `checkFails` tells that the usage check fails in the database, `allowed` what it answers otherwise. */
  function OutcomeOf(py: Python, run: Runner, w: Workflow, payload: map<string, Json>, checkFails: bool,
      allowed: bool): Outcome
  {
    if !AllHold(py, payload, w.conditions) then Skipped
    else if checkFails then Aborted
    else if !allowed then Limited
    else
      var errors := Errors(run, Resolved(py, w, payload));
      if errors != [] then Failed(errors) else Succeeded
  }

  /** The dotted paths that the conditions and the action templates of a workflow name. */
  ghost predicate NamedBy(w: Workflow, path: string) {
    || (exists i :: 0 <= i < |w.conditions| && w.conditions[i].field == path)
    || (exists i :: 0 <= i < |w.actions| && Interpolation.Names(w.actions[i].params, path))
  }

  /** Events that agree on the paths a workflow names have the same outcome and run the same actions. */
  lemma OutcomeDependsOnNamedPaths(py: Python, run: Runner, w: Workflow, payload: map<string, Json>,
                                   payload': map<string, Json>, checkFails: bool, allowed: bool)
    requires forall path :: NamedBy(w, path) ==> Paths.Nested(payload, path) == Paths.Nested(payload', path)
    ensures Resolved(py, w, payload) == Resolved(py, w, payload')
    ensures OutcomeOf(py, run, w, payload, checkFails, allowed) == OutcomeOf(py, run, w, payload', checkFails, allowed)
  {
    hide EvaluateCondition, Paths.Nested, Errors, Interpolation.Names;
    forall i | 0 <= i < |w.conditions|
      ensures EvaluateCondition(py, payload, w.conditions[i]) == EvaluateCondition(py, payload', w.conditions[i])
    {
      assert NamedBy(w, w.conditions[i].field);
      DependsOnField(py, payload, payload', w.conditions[i]);
    }
    forall i | 0 <= i < |w.actions|
      ensures Interpolation.ResolveTemplates(w.actions[i].params, payload, py.show)
           == Interpolation.ResolveTemplates(w.actions[i].params, payload', py.show)
    {
      assert forall path :: Interpolation.Names(w.actions[i].params, path) ==> NamedBy(w, path);
      Interpolation.DependsOnNamedPaths(w.actions[i].params, payload, payload', py.show);
    }
    assert Resolved(py, w, payload) == Resolved(py, w, payload');
  }

  /** May the business run one more workflow in the current cycle, after these charges? */
  ghost predicate WithinLimit(charges: seq<Metering.Increment>, b: string, subscription: Option<string>,
      now: Calendar.DateTime)
  {
    var limit := Metering.TierLimit(if subscription.Some? then subscription.value else "free", METRIC);
    limit.None?
    || Metering.Charged(charges, b, METRIC, Calendar.CycleStart(now), Calendar.CycleEnd(now)) + 1 <= limit.value
  }

  /** The outcome, case by case: a condition that fails skips, whatever else happens; then a failing usage check
      aborts; then a used-up quota blocks; then any failing action makes a failure. */
  lemma OutcomeCases(py: Python, run: Runner, w: Workflow, payload: map<string, Json>, checkFails: bool,
                     charges: seq<Metering.Increment>, subscription: Option<string>, now: Calendar.DateTime)
    ensures var o := OutcomeOf(py, run, w, payload, checkFails, WithinLimit(charges, w.business, subscription, now));
            var tier := match subscription case Some(t) => t case None => "free";
            var limit := Metering.TierLimit(tier, "workflow_executions");
            var used := Metering.Charged(charges, w.business, "workflow_executions", Calendar.CycleStart(now),
                                         Calendar.CycleEnd(now));
            var actions := Resolved(py, w, payload);
            && (o.Skipped? <==> exists i :: 0 <= i < |w.conditions| && !EvaluateCondition(py, payload, w.conditions[i]))
            && (o.Aborted? <==> !o.Skipped? && checkFails)
            && (o.Limited? <==> !o.Skipped? && !checkFails && limit.Some? && used >= limit.value)
            && (o.Succeeded? || o.Failed? <==> !o.Skipped? && !checkFails && (limit.None? || used < limit.value))
            && (o.Succeeded? ==>
                forall i :: 0 <= i < |actions| ==> run(actions[i].kind, actions[i].params).None?)
            && (o.Failed? ==>
                && o.errors != [] && o.errors == Errors(run, actions)
                && exists i :: 0 <= i < |actions| && run(actions[i].kind, actions[i].params).Some?)
  {
    hide EvaluateCondition, Resolved, Metering.Charged, Metering.TierLimit, Calendar.CycleStart, Calendar.CycleEnd;
    NoErrorsIff(run, Resolved(py, w, payload));
  }

  /** Rows that differ in nothing but their timestamps are evaluated alike: the rule that a cached read returns
      has the outcome, the actions, the log rows and the charge of the table's own row. */
  lemma RebuiltEvaluatesAlike(py: Python, run: Runner, w: Workflow, w': Workflow, payload: map<string, Json>,
                              checkFails: bool, allowed: bool, later: Calendar.DateTime, f: Faults)
    requires w'.(createdAt := w.createdAt, updatedAt := w.updatedAt) == w
    ensures Resolved(py, w', payload) == Resolved(py, w, payload)
    ensures OutcomeOf(py, run, w', payload, checkFails, allowed) == OutcomeOf(py, run, w, payload, checkFails, allowed)
    ensures forall o :: NewLogs(w', o, f) == NewLogs(w, o, f)
    ensures forall o :: NewCharges(w', o, later, f) == NewCharges(w, o, later, f)
  {
    hide Interpolation.ResolveTemplates, EvaluateCondition, Errors, Hit;
    assert w'.actions == w.actions && w'.conditions == w.conditions && w'.business == w.business && w'.id == w.id;
    assert Resolved(py, w', payload) == Resolved(py, w, payload);
  }

  /** Does a storage call that the outcome makes inside the try block fail? */
  predicate Hit(o: Outcome, depth: string, f: Faults) {
    (o.Failed? || o.Succeeded?) && ((Recorded(o, depth) && f.log) || (o.Succeeded? && f.charge))
  }

  /** The counters after an evaluation: a fault inside the try block also counts as a failure. */
  function CountersAfter(c: Counters, o: Outcome, depth: string, f: Faults): Counters {
    if Hit(o, depth, f) then Bump(Bump(c, o), Failed([])) else Bump(c, o)
  }

  /** The log rows an evaluation leaves. */
  function NewLogs(w: Workflow, o: Outcome, f: Faults): seq<ExecutionLog> {
    (if Recorded(o, w.logDepth) && !f.log then [LogOf(w, o)] else [])
    + (if Hit(o, w.logDepth, f) && Recorded(Failed([]), w.logDepth) && !f.relog then [LogOf(w, Failed([f.message]))]
        else [])
  }

  function NewCharges(w: Workflow, o: Outcome, later: Calendar.DateTime, f: Faults): seq<Metering.Increment> {
    if o.Succeeded? && !Hit(o, w.logDepth, f) then [Metering.Increment(w.business, METRIC, 1, later)] else []
  }

  /** Does a storage error leave the function? */
  predicate Crashes(o: Outcome, depth: string, f: Faults) {
    if o.Aborted? then true
    else if o.Skipped? || o.Limited? then Recorded(o, depth) && f.log
    else Hit(o, depth, f) && Recorded(Failed([]), depth) && f.relog
  }

  /** An evaluation bumps exactly one counter if and only if the usage check and all storage calls of its try
      block work; its success is charged under the same condition. */
  lemma OneCounterIffHealthy(c: Counters, w: Workflow, o: Outcome, later: Calendar.DateTime, f: Faults)
    ensures CountersAfter(c, o, w.logDepth, f).Total() == c.Total() + 1 <==> !o.Aborted? && !Hit(o, w.logDepth, f)
    ensures o.Succeeded? ==> (|NewCharges(w, o, later, f)| == 1 <==> !Hit(o, w.logDepth, f))
    ensures !o.Succeeded? ==> NewCharges(w, o, later, f) == []
    ensures f.log || f.charge || |NewLogs(w, o, f)| == if Recorded(o, w.logDepth) then 1 else 0
  {
  }

  /** One evaluation, for the specification. */
  datatype Evaluation = Evaluation(outcome: Outcome, depth: string)

  function Tally(history: seq<Evaluation>): Counters {
    if history == [] then Counters(0, 0, 0, 0)
    else Bump(Tally(history[..|history| - 1]), history[|history| - 1].outcome)
  }

  /** The statuses of the rows a run records, in order. */
  function Statuses(history: seq<Evaluation>): seq<string> {
    if history == [] then []
    else
      var e := history[|history| - 1];
      Statuses(history[..|history| - 1]) + if Recorded(e.outcome, e.depth) then [StatusOf(e.outcome)] else []
  }

  function StatusColumn(rows: seq<ExecutionLog>): seq<string> {
    seq(|rows|, i requires 0 <= i < |rows| => rows[i].status)
  }

  lemma StatusColumnConcat(x: seq<ExecutionLog>, y: seq<ExecutionLog>)
    ensures StatusColumn(x + y) == StatusColumn(x) + StatusColumn(y)
  {
  }

  function StatusOf(o: Outcome): string {
    match o
    case Skipped => "skipped"
    case Succeeded => "success"
    case _ => "failed"
  }

  /** The evaluations of a run that ended so, with a depth among the given ones. */
  function Ended(history: seq<Evaluation>, kind: Outcome -> bool, depths: set<string>): set<nat> {
    set i: nat | i < |history| && kind(history[i].outcome) && history[i].depth in depths
  }

  lemma EndedLast(history: seq<Evaluation>, kind: Outcome -> bool, depths: set<string>)
    requires history != []
    ensures var n := |history| - 1;
            && n !in Ended(history[..n], kind, depths)
            && Ended(history, kind, depths)
               == Ended(history[..n], kind, depths)
                  + if kind(history[n].outcome) && history[n].depth in depths then {n} else {}
  {
  }

  function Skip(): Outcome -> bool { (o: Outcome) => o.Skipped? }
  function Fail(): Outcome -> bool { (o: Outcome) => o.Failed? }
  function Block(): Outcome -> bool { (o: Outcome) => o.Limited? }
  function Succeed(): Outcome -> bool { (o: Outcome) => o.Succeeded? }
  function FailOrBlock(): Outcome -> bool { (o: Outcome) => o.Failed? || o.Limited? }

  lemma {:induction false} RefusedCounts(history: seq<Evaluation>, depths: set<string>)
    requires forall i :: 0 <= i < |history| ==> history[i].depth in depths
    ensures Tally(history).skipped == |Ended(history, Skip(), depths)|
    ensures Tally(history).failedLimit == |Ended(history, Block(), depths)|
  {
    if history == [] {
      assert forall kind :: Ended(history, kind, depths) == {};
    } else {
      EndedLast(history, Skip(), depths);
      EndedLast(history, Block(), depths);
      hide Ended;
      RefusedCounts(history[..|history| - 1], depths);
    }
  }

  lemma {:induction false} FinishedCounts(history: seq<Evaluation>, depths: set<string>)
    requires forall i :: 0 <= i < |history| ==> history[i].depth in depths
    ensures Tally(history).failed == |Ended(history, Fail(), depths)|
    ensures Tally(history).success == |Ended(history, Succeed(), depths)|
  {
    if history == [] {
      assert forall kind :: Ended(history, kind, depths) == {};
    } else {
      EndedLast(history, Fail(), depths);
      EndedLast(history, Succeed(), depths);
      hide Ended;
      FinishedCounts(history[..|history| - 1], depths);
    }
  }

  /** Each counter holds the number of evaluations that ended that way. */
  lemma TallyCounts(history: seq<Evaluation>, depths: set<string>)
    requires forall i :: 0 <= i < |history| ==> history[i].depth in depths
    ensures Tally(history) == Counters(|Ended(history, Skip(), depths)|, |Ended(history, Block(), depths)|,
                                       |Ended(history, Fail(), depths)|, |Ended(history, Succeed(), depths)|)
  {
    RefusedCounts(history, depths);
    FinishedCounts(history, depths);
  }

  lemma {:induction false} StatusCount(history: seq<Evaluation>, status: string, kind: Outcome -> bool,
                                       depths: set<string>)
    requires forall o, d :: Recorded(o, d) && StatusOf(o) == status <==> kind(o) && d in depths
    ensures multiset(Statuses(history))[status] == |Ended(history, kind, depths)|
  {
    if history == [] {
      assert Ended(history, kind, depths) == {};
    } else {
      StatusCount(history[..|history| - 1], status, kind, depths);
      EndedLast(history, kind, depths);
      StatusesLast(history);
      hide Ended, Statuses, Recorded, StatusOf;
    }
  }

  /** Each status has a row for each evaluation that ended so where the depth asks for it: skips and successes at
      depth all, failures and blocked ones at errors_only too. */
  lemma StatusesCount(history: seq<Evaluation>)
    ensures multiset(Statuses(history))["skipped"] == |Ended(history, Skip(), {"all"})|
    ensures multiset(Statuses(history))["success"] == |Ended(history, Succeed(), {"all"})|
    ensures multiset(Statuses(history))["failed"] == |Ended(history, FailOrBlock(), {"all", "errors_only"})|
  {
    hide Ended, Statuses;
    StatusCount(history, "skipped", Skip(), {"all"});
    StatusCount(history, "success", Succeed(), {"all"});
    StatusCount(history, "failed", FailOrBlock(), {"all", "errors_only"});
  }

  lemma StatusesSize(history: seq<Evaluation>)
    requires history != []
    ensures var before, e := history[..|history| - 1], history[|history| - 1];
            |Statuses(history)| == |Statuses(before)| + if Recorded(e.outcome, e.depth) then 1 else 0
  {
  }

  lemma StatusesLast(history: seq<Evaluation>)
    requires history != []
    ensures var before, e := history[..|history| - 1], history[|history| - 1];
            multiset(Statuses(history))
            == multiset(Statuses(before))
               + if Recorded(e.outcome, e.depth) then multiset{StatusOf(e.outcome)} else multiset{}
  {
  }

  /** With storage up, the row of an evaluation: its workflow and business, its status and its message. */
  lemma HealthyRow(w: Workflow, o: Outcome, f: Faults)
    requires !f.log && !f.charge
    ensures var deep, errors := w.logDepth == "all", w.logDepth in {"all", "errors_only"};
            NewLogs(w, o, f) == match o
              case Skipped =>
                if deep then [ExecutionLog(w.id, w.business, "skipped", Some("Trigger conditions not met."))] else []
              case Limited =>
                if errors then
                  [ExecutionLog(w.id, w.business, "failed",
                                Some("Usage limit exceeded for workflow_executions. Upgrade your plan."))]
                else []
              case Aborted => []
              case Failed(es) =>
                if errors then
                  var text := Joined(es);
                  [ExecutionLog(w.id, w.business, "failed", Some(if |text| <= 255 then text else text[..255]))]
                else []
              case Succeeded => if deep then [ExecutionLog(w.id, w.business, "success", None)] else []
  {
  }

  /** A storage fault after the actions ran: the handler counts a failure on top of the outcome, records it under
      any depth but none next to the row already written, charges nothing, and lets only a fault of its own row
      leave the function. */
  lemma HandledFault(c: Counters, w: Workflow, o: Outcome, later: Calendar.DateTime, f: Faults)
    requires || (o.Failed? && w.logDepth in {"all", "errors_only"} && f.log)
             || (o.Succeeded? && ((w.logDepth == "all" && f.log) || f.charge))
    ensures var deep := w.logDepth in {"all", "errors_only"};
            && NewCharges(w, o, later, f) == []
            && CountersAfter(c, o, w.logDepth, f)
               == c.(failed := c.failed + (if o.Failed? then 2 else 1),
                     success := c.success + (if o.Failed? then 0 else 1))
            && NewLogs(w, o, f)
               == (if o.Succeeded? && w.logDepth == "all" && !f.log
                   then [ExecutionLog(w.id, w.business, "success", None)] else [])
                  + (if deep && !f.relog
                     then [ExecutionLog(w.id, w.business, "failed",
                                        Some(if |f.message| <= 255 then f.message else f.message[..255]))]
                     else [])
            && (Crashes(o, w.logDepth, f) <==> deep && f.relog)
  {
  }

  /** A refused evaluation that cannot write its row leaves the function with the error; one that writes it, or has
      none to write, and a run without a fault do not. */
  lemma WhenItCrashes(w: Workflow, o: Outcome, f: Faults)
    ensures o.Skipped? ==> (Crashes(o, w.logDepth, f) <==> w.logDepth == "all" && f.log)
    ensures o.Limited? ==> (Crashes(o, w.logDepth, f) <==> w.logDepth in {"all", "errors_only"} && f.log)
    ensures (o.Skipped? || o.Limited?) && f.log ==> NewLogs(w, o, f) == []
    ensures o.Aborted? ==> Crashes(o, w.logDepth, f)
    ensures (o.Failed? || o.Succeeded?) && !f.log && !f.charge ==> !Crashes(o, w.logDepth, f)
  {
  }

  /** With storage up, a success is charged as one workflow execution of its business, and nothing else is. */
  lemma HealthyCharge(w: Workflow, o: Outcome, later: Calendar.DateTime, f: Faults)
    requires !f.log && !f.charge
    ensures NewCharges(w, o, later, f)
         == if o.Succeeded? then [Metering.Increment(w.business, "workflow_executions", 1, later)] else []
  {
  }

  /** "; ".join: the texts in order with a separator between any two lists of them. */
  lemma {:induction false} JoinedConcat(x: seq<string>, y: seq<string>)
    requires x != [] && y != []
    ensures Joined(x + y) == Joined(x) + "; " + Joined(y)
  {
    if |x| == 1 {
      assert (x + y)[1..] == y;
    } else {
      assert (x + y)[1..] == x[1..] + y;
      JoinedConcat(x[1..], y);
      assert x[0] + "; " + (Joined(x[1..]) + "; " + Joined(y)) == (x[0] + "; " + Joined(x[1..])) + "; " + Joined(y);
    }
  }

  function Aborts(history: seq<Evaluation>): nat {
    if history == [] then 0
    else Aborts(history[..|history| - 1]) + if history[|history| - 1].outcome.Aborted? then 1 else 0
  }

  lemma {:induction false} TallyTotal(history: seq<Evaluation>)
    ensures Tally(history).Total() == |history| - Aborts(history)
  {
    if history != [] { TallyTotal(history[..|history| - 1]); }
  }

  lemma {:induction false} RowsAtAll(history: seq<Evaluation>)
    requires forall i :: 0 <= i < |history| ==> history[i].depth == "all"
    ensures |Statuses(history)| == |history| - Aborts(history)
  {
    if history != [] {
      var before, e := history[..|history| - 1], history[|history| - 1];
      RowsAtAll(before);
      StatusesSize(history);
      assert e.depth == "all" && (Recorded(e.outcome, e.depth) <==> !e.outcome.Aborted?);
    }
  }

  lemma {:induction false} RowsAtErrors(history: seq<Evaluation>)
    requires forall i :: 0 <= i < |history| ==> history[i].depth == "errors_only"
    ensures |Statuses(history)| == Tally(history).failed + Tally(history).failedLimit
  {
    if history != [] {
      var before, e := history[..|history| - 1], history[|history| - 1];
      RowsAtErrors(before);
      StatusesSize(history);
      assert Recorded(e.outcome, e.depth) <==> e.outcome.Limited? || e.outcome.Failed?;
    }
  }

  lemma {:induction false} RowsAtNone(history: seq<Evaluation>, depth: string)
    requires depth !in {"all", "errors_only"}
    requires forall i :: 0 <= i < |history| ==> history[i].depth == depth
    ensures Statuses(history) == []
  {
    if history != [] {
      var before, e := history[..|history| - 1], history[|history| - 1];
      RowsAtNone(before, depth);
      assert !Recorded(e.outcome, e.depth);
    }
  }

  /** Every evaluation that does not abort bumps one counter; depth "all" logs all of those, "errors_only" the
      failed and the limit-blocked ones, any other depth none. */
  lemma RowsByDepth(history: seq<Evaluation>, depth: string)
    requires forall i :: 0 <= i < |history| ==> history[i].depth == depth
    ensures Tally(history).Total() == |history| - Aborts(history)
    ensures depth == "all" ==> |Statuses(history)| == |history| - Aborts(history)
    ensures depth == "errors_only" ==> |Statuses(history)| == Tally(history).failed + Tally(history).failedLimit
    ensures depth !in {"all", "errors_only"} ==> Statuses(history) == []
  {
    hide Statuses, Tally, Aborts, Recorded;
    TallyTotal(history);
    if depth == "all" {
      RowsAtAll(history);
    } else if depth == "errors_only" {
      RowsAtErrors(history);
    } else {
      RowsAtNone(history, depth);
    }
  }

  class WorkflowEngine {
    const meter: Metering.MeterStore
    var counters: Counters
    var logs: seq<ExecutionLog>
    var performed: seq<Action>  // handed to their executors, in the order of the tasks
    ghost var history: seq<Evaluation>

    ghost predicate Valid()
      reads this, meter
    {
      meter.Valid()
    }

    /** What holds of every run with healthy storage: the counters tally the evaluations, the log has a row
        for each recorded one, and the meters were charged once for each success. */
    ghost predicate Balanced()
      reads this, meter
    {
      && counters == Tally(history) && StatusColumn(logs) == Statuses(history)
      && Metering.TotalCharged(meter.log) == counters.success
    }

    constructor ()
      ensures Valid() && Balanced() && fresh(meter) && history == [] && counters == Counters(0, 0, 0, 0) && logs == []
    {
      meter := new Metering.MeterStore();
      counters, logs, performed, history := Counters(0, 0, 0, 0), [], [], [];
    }

    method MatchConditions(py: Python, w: Workflow, payload: map<string, Json>) returns (matched: bool)
      ensures matched <==> AllHold(py, payload, w.conditions)
    {
      matched := true;
      for i := 0 to |w.conditions|
        invariant matched
        invariant forall k :: 0 <= k < i ==> EvaluateCondition(py, payload, w.conditions[k])
      {
        if !EvaluateCondition(py, payload, w.conditions[i]) {
          return false;
        }
      }
    }

    /** Every action is resolved and run once, whichever others fail. */
    method RunActions(py: Python, run: Runner, w: Workflow, payload: map<string, Json>) returns (failures: seq<string>)
      modifies this`performed
      ensures performed == old(performed) + Resolved(py, w, payload)
      ensures |performed| == |old(performed)| + |w.actions|
      ensures forall i :: 0 <= i < |w.actions| ==>
                var a := performed[|old(performed)| + i];
                && a.kind == w.actions[i].kind
                && Interpolation.Interpolates(w.actions[i].params, payload, py.show, a.params)
      ensures failures == Errors(run, Resolved(py, w, payload))
      ensures failures == [] <==> forall i :: |old(performed)| <= i < |performed| ==>
                run(performed[i].kind, performed[i].params).None?
    {
      hide Interpolation.Interpolates, Interpolation.ResolveTemplates, Errors;
      var tasks: seq<Action> := [];
      for i := 0 to |w.actions|
        invariant tasks == Resolved(py, w, payload)[..i]
      {
        var a := w.actions[i];
        tasks := tasks + [Action(a.kind, Interpolation.ResolveTemplates(a.params, payload, py.show))];
      }
      assert tasks == Resolved(py, w, payload);
      ResolvedActions(py, w, payload);
      NoErrorsIff(run, tasks);
      NoErrorsIff(run, tasks[..0]);
      failures := [];
      for i := 0 to |tasks|
        invariant performed == old(performed) + tasks[..i]
        invariant failures == Errors(run, tasks[..i])
      {
        performed := performed + [tasks[i]];
        var r := run(tasks[i].kind, tasks[i].params);
        assert tasks[..i + 1] == tasks[..i] + [tasks[i]];
        ErrorsExact(run, tasks[..i], [tasks[i]], tasks[i]);
        if r.Some? {
          failures := failures + [r.value];
        }
      }
      assert tasks[..|tasks|] == tasks;
    }

    /** A skipped or limit-blocked evaluation. */
    method Refuse(w: Workflow, o: Outcome, f: Faults) returns (crashed: bool)
      requires o.Skipped? || o.Limited?
      modifies this`counters, this`logs
      ensures counters == CountersAfter(old(counters), o, w.logDepth, f)
      ensures logs == old(logs) + NewLogs(w, o, f)
      ensures crashed == Crashes(o, w.logDepth, f)
    {
      crashed := false;
      counters := Bump(counters, o);
      if w.logDepth == "all" || (o.Limited? && w.logDepth == "errors_only") {
        crashed := Write(LogOf(w, o), f.log);
      }
    }

    /** The try block after the actions ran, and its handler. */
    method Settle(w: Workflow, failures: seq<string>, later: Calendar.DateTime, f: Faults)
      returns (o: Outcome, crashed: bool)
      requires Valid() && Calendar.Valid(later)
      modifies this`counters, this`logs, meter
      ensures Valid() && o == if failures != [] then Failed(failures) else Succeeded
      ensures counters == CountersAfter(old(counters), o, w.logDepth, f)
      ensures logs == old(logs) + NewLogs(w, o, f)
      ensures meter.log == old(meter.log) + NewCharges(w, o, later, f)
      ensures crashed == Crashes(o, w.logDepth, f)
    {
      hide Metering.Consistent, Calendar.Valid;
      crashed := false;
      var raised := false;
      if failures != [] {
        o := Failed(failures);
        counters := Bump(counters, o);
        if w.logDepth == "all" || w.logDepth == "errors_only" {
          raised := Write(LogOf(w, o), f.log);
        }
      } else {
        o := Succeeded;
        counters := Bump(counters, o);
        if w.logDepth == "all" {
          raised := Write(LogOf(w, o), f.log);
        }
        if !raised && f.charge {
          raised := true;
        } else if !raised {
          meter.IncrementUsage(w.business, METRIC, 1, later);
        }
      }
      if raised {
        counters := Bump(counters, Failed([]));
        if w.logDepth == "all" || w.logDepth == "errors_only" {
          crashed := Write(LogOf(w, Failed([f.message])), f.relog);
        }
      }
    }

    /** One evaluation. `subscription` is the business's active tier, `now` and `later` are the clock at the
        check and at the charge; `crashed` tells that a storage error left the function. */
    method EvaluateAndRun(py: Python, run: Runner, w: Workflow, payload: map<string, Json>,
                          subscription: Option<string>, now: Calendar.DateTime, later: Calendar.DateTime,
                          f: Faults)
      returns (o: Outcome, crashed: bool)
      requires Valid() && Calendar.Valid(now) && Calendar.Valid(later)
      modifies this`counters, this`logs, this`performed, meter
      ensures Valid()
      ensures o == OutcomeOf(py, run, w, payload, f.check, WithinLimit(old(meter.log), w.business, subscription, now))
      ensures performed == old(performed)
                           + if o.Skipped? || o.Limited? || o.Aborted? then [] else Resolved(py, w, payload)
      ensures counters == CountersAfter(old(counters), o, w.logDepth, f)
      ensures logs == old(logs) + NewLogs(w, o, f)
      ensures meter.log == old(meter.log) + NewCharges(w, o, later, f)
      ensures crashed == Crashes(o, w.logDepth, f)
    {
      hide Metering.Consistent, Metering.Charged, Metering.TierLimit, Calendar.Valid, Calendar.Instant,
           Calendar.CurrentCycle, AllHold, Errors, Resolved, CountersAfter, NewLogs, NewCharges, Crashes;
      var matched := MatchConditions(py, w, payload);
      if !matched {
        o := Skipped;
        crashed := Refuse(w, o, f);
        NothingCharged(w, o, later, f);
        return;
      }
      if f.check {
        o, crashed := Aborted, true;
        NothingCharged(w, o, later, f);
        NothingDone(counters, w, f);
        return;
      }
      var allowed := meter.CheckUsageLimit(w.business, METRIC, 1, subscription, now);
      if !allowed {
        o := Limited;
        crashed := Refuse(w, o, f);
        NothingCharged(w, o, later, f);
        return;
      }
      var failures := RunActions(py, run, w, payload);
      o, crashed := Settle(w, failures, later, f);
    }

    /** The same evaluation as a step of a run. */
    method Step(py: Python, run: Runner, w: Workflow, payload: map<string, Json>,
                subscription: Option<string>, now: Calendar.DateTime, later: Calendar.DateTime, f: Faults)
      returns (o: Outcome, crashed: bool)
      requires Valid() && Calendar.Valid(now) && Calendar.Valid(later)
      modifies this, meter
      ensures Valid() && history == old(history) + [Evaluation(o, w.logDepth)]
      ensures o == OutcomeOf(py, run, w, payload, f.check, WithinLimit(old(meter.log), w.business, subscription, now))
      ensures old(Balanced()) && !f.log && !f.charge ==> Balanced()
    {
      hide Metering.Consistent, Metering.TotalCharged, OutcomeOf, WithinLimit, Resolved, CountersAfter, NewLogs,
           NewCharges, Calendar.Valid, StatusColumn, Statuses, Interpolation.Interpolates;
      o, crashed := EvaluateAndRun(py, run, w, payload, subscription, now, later, f);
      history := history + [Evaluation(o, w.logDepth)];
      KeepsBalance(old(history), old(counters), old(meter.log), w, o, later, f);
      StatusColumnConcat(old(logs), NewLogs(w, o, f));
    }

    /** An INSERT into the execution log and its commit. */
    method Write(entry: ExecutionLog, fault: bool) returns (raised: bool)
      modifies this`logs
      ensures raised == fault && logs == old(logs) + if fault then [] else [entry]
    {
      raised := fault;
      if !fault {
        logs := logs + [entry];
      }
    }
  }

  lemma NothingDone(c: Counters, w: Workflow, f: Faults)
    ensures CountersAfter(c, Aborted, w.logDepth, f) == c && NewLogs(w, Aborted, f) == []
    ensures Crashes(Aborted, w.logDepth, f)
  {
  }

  lemma NothingCharged(w: Workflow, o: Outcome, later: Calendar.DateTime, f: Faults)
    requires !o.Succeeded?
    ensures NewCharges(w, o, later, f) == []
  {
  }

  /** With healthy storage an evaluation keeps tally, log rows and charges in step. */
  lemma KeepsBalance(history: seq<Evaluation>, c: Counters, charges: seq<Metering.Increment>,
                     w: Workflow, o: Outcome, later: Calendar.DateTime, f: Faults)
    ensures var e := Evaluation(o, w.logDepth);
            !f.log && !f.charge ==>
              && Statuses(history + [e]) == Statuses(history) + StatusColumn(NewLogs(w, o, f))
              && (c == Tally(history) ==> CountersAfter(c, o, w.logDepth, f) == Tally(history + [e]))
              && Metering.TotalCharged(charges + NewCharges(w, o, later, f))
                 - CountersAfter(c, o, w.logDepth, f).success
                 == Metering.TotalCharged(charges) - c.success
  {
    var e := Evaluation(o, w.logDepth);
    assert (history + [e])[..|history|] == history;
    var x := Metering.Increment(w.business, METRIC, 1, later);
    assert (charges + [x])[..|charges|] == charges;
    assert charges + [] == charges;
    if !f.log && !f.charge && Recorded(o, w.logDepth) {
      assert NewLogs(w, o, f) == [LogOf(w, o)];
      assert StatusColumn([LogOf(w, o)]) == [StatusOf(o)];
    }
  }
}
