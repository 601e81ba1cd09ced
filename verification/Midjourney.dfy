/**
 Midjourney polling and refunds (controller/midjourney.go): any number of
 polling passes work on private copies of unfinished rows, write them back by a
 compare-and-swap on the status column, and refund a failed task's quota when
 the swap was won. Each database access is one atomic step; the steps of
 different passes interleave freely.
 */
module Midjourney {
  import opened Basics

  const FAILURE := "FAILURE"
  const COMPLETE := "100%"
  const TIMEOUT_MS := 3_600_000
  const TIMEOUT_REASON := "上游任务超时（超过1小时）"

  datatype Task = Task(userId: int, quota: int, code: int, mjId: string, promptEn: string, state: string,
                       submitTime: int, startTime: int, finishTime: int, imageUrl: string,
                       videoUrl: string, videoUrls: string, status: string, progress: string,
                       failReason: string, buttons: string, properties: string)

  /** One upstream response item; `videoUrls` is its JSON text, empty when it carries none. */
  datatype Item = Item(progress: string, promptEn: string, state: string,
                       submitTime: int, startTime: int, finishTime: int, imageUrl: string,
                       videoUrl: string, videoUrls: string, status: string, failReason: string,
                       buttons: Option<string>, properties: Option<string>)

  // ----- What one pass does with one item -----

  function Overdue(task: Task, item: Item, now: int): Item
  {
    if now - task.submitTime > TIMEOUT_MS && task.progress != COMPLETE
    then item.(failReason := TIMEOUT_REASON, status := FAILURE)
    else item
  }

  predicate NeedsUpdate(task: Task, item: Item)
  {
    || task.code != 1
    || task.progress != item.progress || task.promptEn != item.promptEn || task.state != item.state
    || task.submitTime != item.submitTime || task.startTime != item.startTime || task.finishTime != item.finishTime
    || task.imageUrl != item.imageUrl || task.status != item.status || task.failReason != item.failReason
    || (task.progress != COMPLETE && item.failReason != "")
    || task.videoUrl != item.videoUrl
    || task.videoUrls != item.videoUrls
  }

  function Merged(task: Task, item: Item): Task
  {
    task.(code := 1, progress := item.progress, promptEn := item.promptEn, state := item.state,
          submitTime := item.submitTime, startTime := item.startTime, finishTime := item.finishTime,
          imageUrl := item.imageUrl, status := item.status, failReason := item.failReason,
          properties := if item.properties.Some? then item.properties.value else task.properties,
          buttons := if item.buttons.Some? then item.buttons.value else task.buttons,
          videoUrl := item.videoUrl, videoUrls := item.videoUrls)
  }

  predicate Failing(task: Task)
  {
    (task.progress != COMPLETE && task.failReason != "") || (task.progress == COMPLETE && task.status == FAILURE)
  }

  // ----- The system -----

  /** Where one pass stands with one row. */
  datatype Agent =
    | Holding(task: Task)                                  // read as unfinished, not yet answered for
    | Ready(task: Task, before: string, refund: bool)      // about to swap
    | Paying(task: Task)                                   // swap won, refund due
    | Finished(task: Task)

  datatype Payment = Payment(row: int, userId: int, amount: int)

  /** What became of a priced task whose failure some pass wrote by winning a swap. */
  datatype Claim = Due(pass: int) | Paid | Lost

  /** `claims` is history: no step reads it. */
  datatype State = State(rows: map<int, Task>, agents: map<(int, int), Agent>, paid: seq<Payment>,
                         balances: map<int, int>, claims: map<int, Claim>)

  datatype Outcome = Succeeds | ErrorsAfterWrite | ErrorsBeforeWrite

  datatype Event =
    | Insert(row: int, task: Task)
    | Snapshot(pass: int, row: int)
    | Respond(pass: int, row: int, item: Item, now: int)
    | Swap(pass: int, row: int, outcome: Outcome)
    | Pay(pass: int, row: int, credited: bool)
    | BulkFail(row: int, reason: Option<string>)           // no id upstream; or the channel is gone, with a reason
    | Repeat(pass: int, row: int)                          // the same response carries the row's id twice
    | Notify(row: int, item: Item)                         // the upstream webhook, which does not swap

  function Answered(task: Task, item: Item, now: int): Agent
  {
    var heard := Overdue(task, item, now);
    if !NeedsUpdate(task, heard) then Finished(task)
    else
      var merged := Merged(task, heard);
      if Failing(merged) then Ready(merged.(progress := COMPLETE), task.status, task.quota != 0)
      else Ready(merged, task.status, false)
  }

  /** An event that is not enabled leaves the state as it is. */
  function Step(s: State, e: Event): State
  {
    match e
    case Insert(row, task) =>
      if row in s.rows then s else s.(rows := s.rows[row := task])
    case Snapshot(pass, row) =>
      if row in s.rows && s.rows[row].progress != COMPLETE && s.rows[row].mjId != "" && (pass, row) !in s.agents
      then s.(agents := s.agents[(pass, row) := Holding(s.rows[row])]) else s
    case Respond(pass, row, item, now) =>
      if (pass, row) in s.agents && s.agents[(pass, row)].Holding?
      then s.(agents := s.agents[(pass, row) := Answered(s.agents[(pass, row)].task, item, now)]) else s
    case Swap(pass, row, outcome) =>
      if (pass, row) in s.agents && s.agents[(pass, row)].Ready? && row in s.rows then
        var a := s.agents[(pass, row)];
        var matched := s.rows[row].status == a.before;
        var won := matched && outcome == Succeeds;
        var wrote := matched && outcome != ErrorsBeforeWrite;
        s.(rows := if wrote then s.rows[row := a.task] else s.rows,
           agents := s.agents[(pass, row) := if won && a.refund then Paying(a.task) else Finished(a.task)],
           claims :=
             if won && a.task.status == FAILURE && a.task.quota != 0 then s.claims[row := Due(pass)] else s.claims)
      else s
    case Pay(pass, row, credited) =>
      if (pass, row) in s.agents && s.agents[(pass, row)].Paying? then
        var task := s.agents[(pass, row)].task;
        var done := s.(agents := s.agents[(pass, row) := Finished(task)]);
        if credited then
          done.(paid := s.paid + [Payment(row, task.userId, task.quota)],
                balances := s.balances[task.userId := Known(s.balances, task.userId) + task.quota],
                claims := s.claims[row := Paid])
        else done.(claims := s.claims[row := Lost])
      else s
    case BulkFail(row, reason) =>
      if row in s.rows then
        var failReason := if reason.Some? then reason.value else s.rows[row].failReason;
        s.(rows := s.rows[row := s.rows[row].(status := FAILURE, progress := COMPLETE, failReason := failReason)])
      else s
    case Repeat(pass, row) =>
      if (pass, row) in s.agents && s.agents[(pass, row)].Finished?
      then s.(agents := s.agents[(pass, row) := Holding(s.agents[(pass, row)].task)]) else s
    case Notify(row, item) =>
      if row in s.rows
      then
        var stored := s.rows[row];
        var merged := Merged(stored, item);
        var saved := merged.(code := stored.code, buttons := stored.buttons, properties := stored.properties,
                             videoUrls := if item.videoUrls == "" then "null" else item.videoUrls);
        s.(rows := s.rows[row := saved])
      else s
  }

  function Run(s: State, events: seq<Event>): State
  {
    if events == [] then s else Step(Run(s, events[..|events| - 1]), events[|events| - 1])
  }

  // ----- One pass over one response -----

  /** An item for a row, with the clock and the database outcomes met while handling it. */
  datatype Reply = Reply(row: int, item: Item, now: int, outcome: Outcome, credited: bool)

  predicate Listed(replies: seq<Reply>, row: int)
  {
    exists i :: 0 <= i < |replies| && replies[i].row == row
  }

  /** The steps a pass takes on its last reply; a row listed before is answered for again from the same copy. */
  function Handling(pass: int, earlier: seq<Reply>, r: Reply): seq<Event>
  {
    (if Listed(earlier, r.row) then [Repeat(pass, r.row)] else []) +
    [Respond(pass, r.row, r.item, r.now), Swap(pass, r.row, r.outcome), Pay(pass, r.row, r.credited)]
  }

  function Handlings(pass: int, replies: seq<Reply>): seq<Event>
  {
    if replies == [] then []
    else Handlings(pass, replies[..|replies| - 1]) + Handling(pass, replies[..|replies| - 1], replies[|replies| - 1])
  }

  /** The rows this pass read are waiting for their first answer. */
  ghost predicate Fresh(s: State, pass: int)
  {
    forall row :: (pass, row) in s.agents ==> s.agents[(pass, row)].Holding? && row in s.rows
  }

  /** The pass's own rows: answered for once they were listed, waiting otherwise. */
  ghost predicate Partway(s: State, pass: int, done: seq<Reply>)
  {
    forall row :: (pass, row) in s.agents ==>
      row in s.rows && if Listed(done, row) then s.agents[(pass, row)].Finished? else s.agents[(pass, row)].Holding?
  }

  /** The loop over the response items is the steps above in order, unknown ids being skipped. */
  method HandleResponse(s: State, pass: int, replies: seq<Reply>) returns (s': State)
    requires Fresh(s, pass)
    ensures s' == Run(s, Handlings(pass, replies))
    ensures Partway(s', pass, replies)
  {
    s' := s;
    for i := 0 to |replies|
      invariant s' == Run(s, Handlings(pass, replies[..i]))
      invariant Partway(s', pass, replies[..i])
    {
      var r := replies[i];
      HandlingRuns(s, pass, replies, i);
      assert replies[..i + 1] == replies[..i] + [r];
      Readied(s', pass, replies[..i], r);
      if (pass, r.row) !in s'.agents {
        continue;                                  // unknown id
      }
      ghost var before := s';
      s' := HandleItem(s', pass, s'.agents[(pass, r.row)].task, r);
      MovesOn(before, s', pass, replies[..i], r);
    }
    assert replies[..|replies|] == replies;
  }

  method HandleItem(s: State, pass: int, task: Task, r: Reply) returns (s': State)
    requires (pass, r.row) in s.agents && r.row in s.rows
    ensures s' == Handled(Awaiting(s, pass, r.row, task), pass, r)
    ensures OnlyFinishes(s, s', pass, r.row)
  {
    var a := Answered(task, r.item, r.now);
    s' := s.(agents := s.agents[(pass, r.row) := a]);
    assert s' == Step(Awaiting(s, pass, r.row, task), Respond(pass, r.row, r.item, r.now));
    if a.Finished? {
      return;                                      // nothing to update
    }
    s' := Step(s', Swap(pass, r.row, r.outcome));
    if s'.agents[(pass, r.row)].Paying? {
      s' := Step(s', Pay(pass, r.row, r.credited));
    }
  }

  function Awaiting(s: State, pass: int, row: int, task: Task): State
  {
    s.(agents := s.agents[(pass, row) := Holding(task)])
  }

  function Handled(s: State, pass: int, r: Reply): State
  {
    Step(Step(Step(s, Respond(pass, r.row, r.item, r.now)), Swap(pass, r.row, r.outcome)), Pay(pass, r.row, r.credited))
  }

  ghost predicate OnlyFinishes(s: State, s': State, pass: int, row: int)
  {
    && s'.rows.Keys == s.rows.Keys && s'.agents.Keys == s.agents.Keys
    && (pass, row) in s'.agents && s'.agents[(pass, row)].Finished?
    && forall a :: a in s.agents && a != (pass, row) ==> s'.agents[a] == s.agents[a]
  }

  function Prepared(s: State, pass: int, earlier: seq<Reply>, row: int): State
  {
    if Listed(earlier, row) then Step(s, Repeat(pass, row)) else s
  }

  lemma HandlingRuns(s: State, pass: int, replies: seq<Reply>, i: nat)
    requires i < |replies|
    ensures Run(s, Handlings(pass, replies[..i + 1])) ==
            var mid := Run(s, Handlings(pass, replies[..i]));
            Handled(Prepared(mid, pass, replies[..i], replies[i].row), pass, replies[i])
  {
    var earlier, r := replies[..i], replies[i];
    assert replies[..i + 1][..i] == earlier;
    var done, repeat := Handlings(pass, earlier), if Listed(earlier, r.row) then [Repeat(pass, r.row)] else [];
    var respond, swap := Respond(pass, r.row, r.item, r.now), Swap(pass, r.row, r.outcome);
    var pay := Pay(pass, r.row, r.credited);
    RunConcat(s, done, repeat);
    RunOneMore(s, done + repeat, respond);
    RunOneMore(s, done + repeat + [respond], swap);
    RunOneMore(s, done + repeat + [respond] + [swap], pay);
    assert done + Handling(pass, earlier, r) == done + repeat + [respond] + [swap] + [pay];
    if repeat != [] { RunOneMore(s, done, repeat[0]); }
  }

  lemma RunOneMore(s: State, events: seq<Event>, e: Event)
    ensures Run(s, events + [e]) == Step(Run(s, events), e)
  {
    assert (events + [e])[..|events|] == events;
  }

  lemma {:induction false} RunConcat(s: State, a: seq<Event>, b: seq<Event>)
    ensures Run(s, a + b) == Run(Run(s, a), b)
  {
    if b == [] {
      assert a + b == a;
    } else {
      assert (a + b)[..|a + b| - 1] == a + b[..|b| - 1];
      RunConcat(s, a, b[..|b| - 1]);
    }
  }

  lemma Readied(s: State, pass: int, earlier: seq<Reply>, r: Reply)
    requires Partway(s, pass, earlier)
    ensures var ready := Prepared(s, pass, earlier, r.row);
            if (pass, r.row) in s.agents then ready == Awaiting(s, pass, r.row, s.agents[(pass, r.row)].task)
            else Handled(ready, pass, r) == s
  {
    if (pass, r.row) in s.agents {
      assert !Listed(earlier, r.row) ==> s.agents[(pass, r.row) := s.agents[(pass, r.row)]] == s.agents;
    }
  }

  lemma MovesOn(s: State, s': State, pass: int, earlier: seq<Reply>, r: Reply)
    requires Partway(s, pass, earlier) && OnlyFinishes(s, s', pass, r.row)
    ensures Partway(s', pass, earlier + [r])
  {
    forall row | (pass, row) in s'.agents
      ensures row in s'.rows &&
              if Listed(earlier + [r], row) then s'.agents[(pass, row)].Finished? else s'.agents[(pass, row)].Holding?
    {
      ListedPush(earlier, r, row);
    }
  }

  lemma ListedPush(earlier: seq<Reply>, r: Reply, row: int)
    ensures Listed(earlier + [r], row) <==> Listed(earlier, row) || r.row == row
  {
    var all := earlier + [r];
    assert all[|earlier|] == r;
    assert forall i :: 0 <= i < |earlier| ==> all[i] == earlier[i];
  }

  // ----- What upstream and the callers are relied on for -----

  /** A failure says FAILURE and comes with a reason or at 100%, and a reason short of 100% is a failure. */
  predicate Honest(item: Item)
  {
    && (item.status == FAILURE ==> item.failReason != "" || item.progress == COMPLETE)
    && (item.progress != COMPLETE && item.failReason != "" ==> item.status == FAILURE)
  }

  /** A row the passes look at and that is worth a refund is not marked failed while it is unfinished. */
  predicate Closed(task: Task)
  {
    task.status == FAILURE && task.quota != 0 && task.mjId != "" ==> task.progress == COMPLETE
  }

  /** One item per id in a response, honest failures, and no writer besides the passes and the bulk failures. */
  predicate Allowed(e: Event)
  {
    match e
    case Insert(_, task) => Closed(task)
    case Respond(_, _, item, _) => Honest(item)
    case Repeat(_, _) => false
    case Notify(_, _) => false
    case _ => true
  }

  /** A pass breaks none of these rules when its response lists each id once and fails honestly. */
  lemma {:induction false} OneItemPerIdIsAllowed(pass: int, replies: seq<Reply>)
    requires forall i, j :: 0 <= i < j < |replies| ==> replies[i].row != replies[j].row
    requires forall i :: 0 <= i < |replies| ==> Honest(replies[i].item)
    ensures forall k :: 0 <= k < |Handlings(pass, replies)| ==> Allowed(Handlings(pass, replies)[k])
  {
    if replies != [] {
      OneItemPerIdIsAllowed(pass, replies[..|replies| - 1]);
    }
  }

  // ----- The invariant -----

  ghost predicate SameAccount(task: Task, row: Task)
  {
    task.userId == row.userId && task.quota == row.quota
  }

  /** A pass refunds exactly a priced failure, and never one that was already marked when it read the row. */
  predicate ReadyOk(a: Agent)
    requires a.Ready?
  {
    && (a.before != FAILURE || a.task.quota == 0) && Closed(a.task)
    && (a.refund <==> a.task.status == FAILURE && a.task.quota != 0)
  }

  ghost predicate AgentOk(s: State, pass: int, row: int)
    requires (pass, row) in s.agents
  {
    var a := s.agents[(pass, row)];
    && row in s.rows && SameAccount(a.task, s.rows[row])
    && (a.Holding? ==> a.task.status != FAILURE || a.task.quota == 0)
    && (a.Ready? ==> ReadyOk(a))
    && (a.Paying? <==> row in s.claims && s.claims[row] == Due(pass))
  }

  function Count(paid: seq<Payment>, row: int): nat
  {
    if paid == [] then 0
    else Count(paid[..|paid| - 1], row) + if paid[|paid| - 1].row == row then 1 else 0
  }

  ghost predicate RowsOk(s: State)
  {
    && (forall row :: row in s.rows ==> Closed(s.rows[row]))
    && (forall row :: row in s.claims ==> row in s.rows && s.rows[row].status == FAILURE && s.rows[row].quota != 0)
    && (forall row :: row in s.claims && s.claims[row].Due? ==> (s.claims[row].pass, row) in s.agents)
  }

  ghost predicate AgentsOk(s: State)
  {
    forall pass, row :: (pass, row) in s.agents ==> AgentOk(s, pass, row)
  }

  ghost predicate PaymentsOk(s: State)
  {
    && (forall row :: Count(s.paid, row) == if row in s.claims && s.claims[row].Paid? then 1 else 0)
    && (forall i :: 0 <= i < |s.paid| ==>
          && s.paid[i].row in s.rows && s.paid[i].userId == s.rows[s.paid[i].row].userId
          && s.paid[i].amount == s.rows[s.paid[i].row].quota)
  }

  ghost predicate Good(s: State)
  {
    RowsOk(s) && AgentsOk(s) && PaymentsOk(s)
  }

  lemma StepKeepsRows(s: State, e: Event)
    requires Good(s) && Allowed(e)
    ensures RowsOk(Step(s, e))
  {
    match e
    case Swap(pass, row, outcome) => SwapKeepsRows(s, pass, row, outcome);
    case Pay(pass, row, credited) => PayKeepsRows(s, pass, row, credited);
    case _ =>
  }

  lemma SwapKeepsRows(s: State, pass: int, row: int, outcome: Outcome)
    requires Good(s)
    ensures RowsOk(Step(s, Swap(pass, row, outcome)))
  {
    if (pass, row) in s.agents { assert AgentOk(s, pass, row); }
  }

  lemma PayKeepsRows(s: State, pass: int, row: int, credited: bool)
    requires Good(s)
    ensures RowsOk(Step(s, Pay(pass, row, credited)))
  {
    if (pass, row) in s.agents { assert AgentOk(s, pass, row); }
  }

  /** A pass asks for a refund exactly when it is about to write a priced failure. */
  lemma AnswerIsOk(task: Task, item: Item, now: int)
    requires (task.status != FAILURE || task.quota == 0) && Honest(item)
    ensures var a := Answered(task, item, now);
            (a.Ready? || a.Finished?) && SameAccount(a.task, task) && (a.Ready? ==> ReadyOk(a))
  {
    assert Honest(Overdue(task, item, now));
  }

  lemma StepKeepsAgents(s: State, e: Event)
    requires Good(s) && Allowed(e)
    ensures AgentsOk(Step(s, e))
  {
    forall pass, row | (pass, row) in Step(s, e).agents
      ensures AgentOk(Step(s, e), pass, row)
    {
      assert (pass, row) in s.agents ==> AgentOk(s, pass, row);
      match e
      case Respond(p, r, item, now) =>
        if (p, r) in s.agents && s.agents[(p, r)].Holding? && (p, r) == (pass, row) {
          AnswerIsOk(s.agents[(p, r)].task, item, now);
        }
      case Swap(p, r, outcome) => SwapKeepsAgent(s, p, r, outcome, pass, row);
      case Pay(p, r, credited) => PayKeepsAgent(s, p, r, credited, pass, row);
      case _ =>
    }
  }

  lemma SwapKeepsAgent(s: State, p: int, r: int, outcome: Outcome, pass: int, row: int)
    requires Good(s) && (pass, row) in s.agents
    ensures AgentOk(Step(s, Swap(p, r, outcome)), pass, row)
  {
    assert AgentOk(s, pass, row);
    if (p, r) in s.agents { assert AgentOk(s, p, r); }
  }

  lemma PayKeepsAgent(s: State, p: int, r: int, credited: bool, pass: int, row: int)
    requires Good(s) && (pass, row) in s.agents
    ensures AgentOk(Step(s, Pay(p, r, credited)), pass, row)
  {
    assert AgentOk(s, pass, row);
    if (p, r) in s.agents { assert AgentOk(s, p, r); }
  }

  lemma StepKeepsPayments(s: State, e: Event)
    requires Good(s) && Allowed(e)
    ensures PaymentsOk(Step(s, e))
  {
    match e
    case Swap(pass, row, outcome) => SwapKeepsPayments(s, pass, row, outcome);
    case Pay(pass, row, credited) => PayKeepsPayments(s, pass, row, credited);
    case _ => OtherStepsPayNothing(s, e);
  }

  lemma OtherStepsPayNothing(s: State, e: Event)
    requires Good(s) && Allowed(e) && !e.Swap? && !e.Pay?
    ensures PaymentsOk(Step(s, e))
  {
    SameRowsSamePayments(s, Step(s, e));
  }

  /** Payments stay right as long as the rows keep their accounts and no claim is paid. */
  lemma SameRowsSamePayments(s: State, s': State)
    requires PaymentsOk(s) && s'.paid == s.paid
    requires forall row :: row in s.rows ==> row in s'.rows && SameAccount(s'.rows[row], s.rows[row])
    requires forall row :: (row in s'.claims && s'.claims[row].Paid?) <==> (row in s.claims && s.claims[row].Paid?)
    ensures PaymentsOk(s')
  {
  }

  lemma SwapKeepsPayments(s: State, pass: int, row: int, outcome: Outcome)
    requires Good(s)
    ensures PaymentsOk(Step(s, Swap(pass, row, outcome)))
  {
    if (pass, row) in s.agents && s.agents[(pass, row)].Ready? {
      assert AgentOk(s, pass, row);
      SameRowsSamePayments(s, Step(s, Swap(pass, row, outcome)));
    }
  }

  lemma PayKeepsPayments(s: State, pass: int, row: int, credited: bool)
    requires Good(s)
    ensures PaymentsOk(Step(s, Pay(pass, row, credited)))
  {
    if (pass, row) in s.agents && s.agents[(pass, row)].Paying? {
      assert AgentOk(s, pass, row);
      var s' := Step(s, Pay(pass, row, credited));
      if credited {
        assert s'.paid[..|s'.paid| - 1] == s.paid;
      } else {
        SameRowsSamePayments(s, s');
      }
    }
  }

  // ----- Whole runs -----

  ghost predicate Initial(s: State)
  {
    s.agents == map[] && s.paid == [] && s.claims == map[] && forall row :: row in s.rows ==> Closed(s.rows[row])
  }

  function PaidTo(paid: seq<Payment>, userId: int): int
  {
    if paid == [] then 0
    else PaidTo(paid[..|paid| - 1], userId) + if paid[|paid| - 1].userId == userId then paid[|paid| - 1].amount else 0
  }

  /**
   In every interleaving of any number of passes, a task is refunded at most
   once and by exactly its own quota, to its own user; it is refunded exactly
   when a pass won the swap that wrote its failure and the credit went through.
   */
  lemma {:induction false} RefundedOnce(s: State, events: seq<Event>)
    requires Initial(s)
    requires Covered(events)
    ensures Good(Run(s, events))
    ensures forall row :: Count(Run(s, events).paid, row) <= 1
    ensures forall row :: row in s.rows ==>
              row in Run(s, events).rows && SameAccount(Run(s, events).rows[row], s.rows[row])
  {
    if events != [] {
      var before, e := events[..|events| - 1], events[|events| - 1];
      RefundedOnce(s, before);
      StepKeepsRows(Run(s, before), e);
      StepKeepsAgents(Run(s, before), e);
      StepKeepsPayments(Run(s, before), e);
      StepKeepsAccounts(Run(s, before), e);
    }
  }

  lemma StepKeepsAccounts(s: State, e: Event)
    requires Good(s) && Allowed(e)
    ensures forall row :: row in s.rows ==> row in Step(s, e).rows && SameAccount(Step(s, e).rows[row], s.rows[row])
  {
    if e.Swap? && (e.pass, e.row) in s.agents { assert AgentOk(s, e.pass, e.row); }
  }

  /** Once no refund is under way, every won priced failure has been paid once or its credit has failed. */
  lemma NothingLeftDue(s: State, events: seq<Event>, row: int)
    requires Initial(s)
    requires Covered(events)
    requires forall a :: a in Run(s, events).agents ==> !Run(s, events).agents[a].Paying?
    ensures var t := Run(s, events);
            row in t.claims ==> Count(t.paid, row) == if t.claims[row] == Lost then 0 else 1
    ensures var t := Run(s, events); row !in t.claims ==> Count(t.paid, row) == 0
  {
    RefundedOnce(s, events);
  }

  /** Users receive what was recorded as paid, whatever happens. */
  lemma {:induction false} BalancesFollowPayments(s: State, events: seq<Event>, userId: int)
    requires s.paid == []
    ensures Known(Run(s, events).balances, userId) == Known(s.balances, userId) + PaidTo(Run(s, events).paid, userId)
  {
    if events != [] {
      var before := events[..|events| - 1];
      BalancesFollowPayments(s, before, userId);
      StepBalances(Run(s, before), events[|events| - 1], userId);
    }
  }

  lemma StepBalances(s: State, e: Event, userId: int)
    ensures Known(Step(s, e).balances, userId) - PaidTo(Step(s, e).paid, userId) ==
            Known(s.balances, userId) - PaidTo(s.paid, userId)
  {
    if e.Pay? && (e.pass, e.row) in s.agents && s.agents[(e.pass, e.row)].Paying? && e.credited {
      var s' := Step(s, e);
      assert s'.paid[..|s'.paid| - 1] == s.paid;
    }
  }

  // ----- Why each assumption is there -----

  const NO_ROWS := State(map[], map[], [], map[], map[])

  function OneRow(task: Task): State
  {
    NO_ROWS.(rows := map[1 := task])
  }

  /** A pass swaps and, if it won, pays. */
  function Finish(s: State, pass: int): State
  {
    Step(Step(s, Swap(pass, 1, Succeeds)), Pay(pass, 1, true))
  }

  lemma FinishPays(s: State, pass: int)
    requires (pass, 1) in s.agents && 1 in s.rows && !s.agents[(pass, 1)].Paying?
    ensures var a, s' := s.agents[(pass, 1)], Finish(s, pass);
            && (if a.Ready? && s.rows[1].status == a.before then
                  && s'.rows == s.rows[1 := a.task]
                  && s'.paid == s.paid + if a.refund then [Payment(1, a.task.userId, a.task.quota)] else []
                else s'.rows == s.rows && s'.paid == s.paid)
            && (pass, 1) in s'.agents && (a.Ready? ==> s'.agents[(pass, 1)] == Finished(a.task))
  {
  }

  lemma FinishLeavesOthers(s: State, pass: int, other: int)
    requires other != pass
    ensures var s' := Finish(s, pass);
            && ((other, 1) in s.agents <==> (other, 1) in s'.agents)
            && ((other, 1) in s.agents ==> s'.agents[(other, 1)] == s.agents[(other, 1)])
  {
  }

  /** Two passes read the row, and each hears an item, before either swaps. */
  function BothHeard(s: State, first: Item, second: Item, now: int): State
  {
    var read := Step(Step(s, Snapshot(1, 1)), Snapshot(2, 1));
    Step(Step(read, Respond(1, 1, first, now)), Respond(2, 1, second, now))
  }

  /** An unfinished row that neither of the two passes has read. */
  predicate Unread(s: State)
  {
    && 1 in s.rows && s.rows[1].mjId != "" && s.rows[1].progress != COMPLETE
    && (1, 1) !in s.agents && (2, 1) !in s.agents
  }

  lemma BothAnswered(s: State, first: Item, second: Item, now: int)
    requires Unread(s)
    ensures var t := BothHeard(s, first, second, now);
            && t.rows == s.rows && t.paid == s.paid && (1, 1) in t.agents && (2, 1) in t.agents
            && t.agents[(1, 1)] == Answered(s.rows[1], first, now)
            && t.agents[(2, 1)] == Answered(s.rows[1], second, now)
  {
    var read := Step(Step(s, Snapshot(1, 1)), Snapshot(2, 1));
    assert read.agents[(1, 1)] == Holding(s.rows[1]) && read.agents[(2, 1)] == Holding(s.rows[1]);
  }

  /** What two passes pay that read the row with the status it still has. */
  lemma BothFinish(s: State)
    requires 1 in s.rows && (1, 1) in s.agents && (2, 1) in s.agents
    requires forall p | p == 1 || p == 2 :: s.agents[(p, 1)].Ready? || s.agents[(p, 1)].Finished?
    requires forall p | p == 1 || p == 2 :: s.agents[(p, 1)].Ready? ==> s.agents[(p, 1)].before == s.rows[1].status
    ensures var a, b, t := s.agents[(1, 1)], s.agents[(2, 1)], Finish(Finish(s, 1), 2);
            Count(t.paid, 1) == Count(s.paid, 1) + 2 <==>
            a.Ready? && a.refund && b.Ready? && b.refund && a.task.status == s.rows[1].status
  {
    var first := Finish(s, 1);
    FinishPays(s, 1);
    FinishLeavesOthers(s, 1, 2);
    FinishPays(first, 2);
    CountsUp(s.paid, first.paid);
    CountsUp(first.paid, Finish(first, 2).paid);
  }

  lemma CountsUp(before: seq<Payment>, after: seq<Payment>)
    requires after == before || (|after| == |before| + 1 && before == after[..|before|] && after[|before|].row == 1)
    ensures Count(after, 1) == Count(before, 1) + |after| - |before|
  {
  }

  /** The item, after the timeout rule, fails a row worth a refund. */
  predicate Fails(task: Task, item: Item, now: int)
  {
    var heard := Overdue(task, item, now);
    task.quota != 0 && if heard.progress == COMPLETE then heard.status == FAILURE else heard.failReason != ""
  }

  predicate StatusStays(task: Task, item: Item, now: int)
  {
    Overdue(task, item, now).status == task.status
  }

  lemma AnsweredWithFailure(task: Task, item: Item, now: int)
    requires task.progress != COMPLETE
    ensures var a := Answered(task, item, now);
            && (a.Ready? || a.Finished?) && (a.Ready? ==> a.before == task.status)
            && (a.Ready? && a.refund <==> Fails(task, item, now))
            && (a.Ready? ==> (a.task.status == task.status <==> StatusStays(task, item, now)))
  {
  }

  /**
   The race pays twice exactly when both items fail the row and the first leaves
   the status as it was, so that the second swap still matches. An honest failure
   of a row not already marked failed always moves the status.
   */
  lemma RacePaysTwiceIff(s: State, first: Item, second: Item, now: int)
    requires Unread(s)
    ensures Count(Finish(Finish(BothHeard(s, first, second, now), 1), 2).paid, 1) == Count(s.paid, 1) + 2 <==>
            Fails(s.rows[1], first, now) && StatusStays(s.rows[1], first, now) && Fails(s.rows[1], second, now)
  {
    BothAnswered(s, first, second, now);
    AnsweredWithFailure(s.rows[1], first, now);
    AnsweredWithFailure(s.rows[1], second, now);
    BothFinish(BothHeard(s, first, second, now));
  }

  lemma CountUpTo(paid: seq<Payment>)
    requires |paid| <= 2 && forall i :: 0 <= i < |paid| ==> paid[i].row == 1
    ensures Count(paid, 1) == |paid|
  {
    if |paid| == 2 { assert paid[..1][..0] == []; }
  }

  /** The steps of that race, in order. */
  function Race(first: Item, second: Item, now: int): seq<Event>
  {
    [Snapshot(1, 1), Snapshot(2, 1), Respond(1, 1, first, now), Respond(2, 1, second, now),
     Swap(1, 1, Succeeds), Pay(1, 1, true), Swap(2, 1, Succeeds), Pay(2, 1, true)]
  }

  lemma RunFour(s: State, events: seq<Event>)
    requires |events| == 4
    ensures Run(s, events) == Step(Step(Step(Step(s, events[0]), events[1]), events[2]), events[3])
  {
    RunOneMore(s, [], events[0]);
    assert [] + [events[0]] == events[..1] && events[..1] + [events[1]] == events[..2];
    RunOneMore(s, events[..1], events[1]);
    assert events[..2] + [events[2]] == events[..3] && events[..3] + [events[3]] == events;
    RunOneMore(s, events[..2], events[2]);
    RunOneMore(s, events[..3], events[3]);
  }

  lemma RaceRuns(s: State, first: Item, second: Item, now: int)
    ensures Run(s, Race(first, second, now)) == Finish(Finish(BothHeard(s, first, second, now), 1), 2)
  {
    var race := Race(first, second, now);
    RunConcat(s, race[..4], race[4..]);
    assert race == race[..4] + race[4..];
    RunFour(s, race[..4]);
    RunFour(Run(s, race[..4]), race[4..]);
  }

  lemma RaceRunPaysTwice(s: State, first: Item, second: Item, now: int)
    requires Unread(s)
    requires Fails(s.rows[1], first, now) && StatusStays(s.rows[1], first, now) && Fails(s.rows[1], second, now)
    ensures Count(Run(s, Race(first, second, now)).paid, 1) == Count(s.paid, 1) + 2
  {
    RaceRuns(s, first, second, now);
    RacePaysTwiceIff(s, first, second, now);
  }

  ghost predicate Covered(events: seq<Event>)
  {
    forall i :: 0 <= i < |events| ==> Allowed(events[i])
  }

  /** Two honest failures that differ, so that no swap writes what is already there. */
  const FAILED := Item("0%", "", "", 0, 0, 0, "", "", "", FAILURE, "failed", None, None)
  const FAILED_LATER := FAILED.(finishTime := 1)

  /**
   A row that is failed, priced and unfinished is paid twice by two passes that
   both hear an honest failure.
   */
  lemma FailedRowPaysTwice(s: State, first: Item, second: Item, now: int)
    requires Unread(s) && !Closed(s.rows[1])
    requires first.status == FAILURE && first.failReason != "" && second.status == FAILURE && second.failReason != ""
    ensures Covered(Race(first, second, now))
    ensures Count(Run(s, Race(first, second, now)).paid, 1) == Count(s.paid, 1) + 2
  {
    RaceIsCovered(first, second, now);
    FailsAgain(s.rows[1], first, now);
    FailsAgain(s.rows[1], second, now);
    RaceRunPaysTwice(s, first, second, now);
  }

  lemma RaceIsCovered(first: Item, second: Item, now: int)
    requires Honest(first) && Honest(second)
    ensures Covered(Race(first, second, now))
  {
  }

  lemma FailsAgain(task: Task, item: Item, now: int)
    requires !Closed(task) && item.status == FAILURE && item.failReason != ""
    ensures Fails(task, item, now) && StatusStays(task, item, now)
  {
  }

  /** What may be inserted is exact: such a row, and no other, can be paid twice by steps that break no rule. */
  lemma SafeToInsertIff(task: Task)
    ensures Step(NO_ROWS, Insert(1, task)) == OneRow(task)
    ensures (forall events :: Covered(events) ==> Count(Run(OneRow(task), events).paid, 1) <= 1) <==> Closed(task)
  {
    if Closed(task) {
      forall events | Covered(events)
        ensures Count(Run(OneRow(task), events).paid, 1) <= 1
      {
        RefundedOnce(OneRow(task), events);
      }
    } else {
      FailedRowPaysTwice(OneRow(task), FAILED, FAILED_LATER, 0);
    }
  }

  /** Only this item may break the rule for items. */
  ghost predicate CoveredBut(events: seq<Event>, item: Item)
  {
    forall i :: 0 <= i < |events| ==> Allowed(events[i]) || (events[i].Respond? && events[i].item == item)
  }

  const PRICED := Task(1, 1, 1, "m", "", "", 0, 0, 0, "", "", "", "", "0%", "", "", "")

  lemma RaceIsCoveredBut(item: Item)
    ensures CoveredBut(Race(item, FAILED, 0), item)
  {
  }

  /** A reason short of 100% that does not say FAILURE can leave the status as it was. */
  lemma ReasonWithoutFailure(item: Item) returns (task: Task, events: seq<Event>)
    requires item.progress != COMPLETE && item.failReason != "" && item.status != FAILURE
    ensures Closed(task) && CoveredBut(events, item) && Count(Run(OneRow(task), events).paid, 1) == 2
  {
    task, events := PRICED.(status := item.status), Race(item, FAILED, 0);
    RaceIsCoveredBut(item);
    RaceRunPaysTwice(OneRow(task), item, FAILED, 0);
  }

  /** One pass hears an item, writes the row and pays if it has to. */
  function Pass(pass: int, item: Item): seq<Event>
  {
    [Snapshot(pass, 1), Respond(pass, 1, item, 0), Swap(pass, 1, Succeeds), Pay(pass, 1, true)]
  }

  /** A failure without a reason short of 100% is written and left unfinished. */
  lemma FailureWithoutReason(item: Item) returns (task: Task, events: seq<Event>)
    requires item.status == FAILURE && item.failReason == "" && item.progress != COMPLETE
    ensures Closed(task) && CoveredBut(events, item) && Count(Run(OneRow(task), events).paid, 1) == 2
  {
    task, events := PRICED, Pass(3, item) + Race(FAILED, FAILED_LATER, 0);
    LeftUnfinished(item);
    var s := Run(OneRow(task), Pass(3, item));
    FailedRowPaysTwice(s, FAILED, FAILED_LATER, 0);
    RunConcat(OneRow(task), Pass(3, item), Race(FAILED, FAILED_LATER, 0));
  }

  lemma LeftUnfinished(item: Item)
    requires item.status == FAILURE && item.failReason == "" && item.progress != COMPLETE
    ensures var s := Run(OneRow(PRICED), Pass(3, item)); Unread(s) && !Closed(s.rows[1]) && s.paid == []
  {
    var heard := Heard(OneRow(PRICED), 3, item, 0);
    RunFour(OneRow(PRICED), Pass(3, item));
    assert heard.agents[(3, 1)] == Answered(PRICED, item, 0) && heard.agents.Keys == {(3, 1)};
    FinishPays(heard, 3);
    FinishLeavesOthers(heard, 3, 1);
    FinishLeavesOthers(heard, 3, 2);
  }

  /** What may be heard is exact too: with the rest keeping the rules, only a dishonest item gets a row paid twice. */
  lemma SafeToHearIff(item: Item)
    ensures (forall task, events :: Closed(task) && CoveredBut(events, item) ==>
               Count(Run(OneRow(task), events).paid, 1) <= 1) <==> Honest(item)
  {
    if Honest(item) {
      forall task, events | Closed(task) && CoveredBut(events, item)
        ensures Count(Run(OneRow(task), events).paid, 1) <= 1
      {
        assert Covered(events);
        RefundedOnce(OneRow(task), events);
      }
    } else if item.status == FAILURE {
      var task, events := FailureWithoutReason(item);
    } else {
      var task, events := ReasonWithoutFailure(item);
    }
  }

  /** What a submission inserts; `existing` is what upstream says of a job it already knows (code 21). */
  function Submitted(userId: int, quota: int, code: int, mjId: string, description: string,
                     existing: Option<(string, string)>, upload: bool, now: int): Task
  {
    var task := Task(userId, quota, code, mjId, "", "", now, 0, 0, "", "", "", "", "0%",
                     if code != 1 && code != 21 && code != 22 then description else "", "", "");
    var known := code == 21 && existing.Some?;
    var succeeded := known && existing.value.1 == "SUCCESS";
    var told := if known then task.(imageUrl := existing.value.0, status := existing.value.1) else task;
    var done := if succeeded then told.(progress := COMPLETE, startTime := now, finishTime := now) else told;
    if (code == 1 || succeeded) && upload then done.(progress := COMPLETE, status := "SUCCESS") else done
  }

  /** The code breaks the rule itself exactly for a priced job that upstream already knows to have failed. */
  lemma SubmissionsAreClosedUnless(userId: int, quota: int, code: int, mjId: string, description: string,
                                   existing: Option<(string, string)>, upload: bool, now: int)
    ensures Closed(Submitted(userId, quota, code, mjId, description, existing, upload, now)) <==>
            !(code == 21 && existing.Some? && existing.value.1 == FAILURE && quota != 0 && mjId != "")
  {
  }

  /** A fresh pass over an unfinished row that hears of a failure writes it and pays it. */
  lemma PassPays(s: State, pass: int, item: Item, now: int)
    requires 1 in s.rows && (pass, 1) !in s.agents
    requires s.rows[1].mjId != "" && s.rows[1].progress != COMPLETE && s.rows[1].quota != 0
    requires item.status == FAILURE && item.failReason != ""
    ensures var row, s' := s.rows[1], Finish(Heard(s, pass, item, now), pass);
            && s'.paid == s.paid + [Payment(1, row.userId, row.quota)]
            && 1 in s'.rows && SameAccount(s'.rows[1], row) && s'.rows[1].mjId == row.mjId
  {
    var heard := Heard(s, pass, item, now);
    assert heard.agents[(pass, 1)] == Answered(s.rows[1], item, now);
    FinishPays(heard, pass);
  }

  /** A pass reads the row and hears an item. */
  function Heard(s: State, pass: int, item: Item, now: int): State
  {
    Step(Step(s, Snapshot(pass, 1)), Respond(pass, 1, item, now))
  }

  /** A response that lists an id twice refunds it twice, even for an honest failure short of 100%. */
  lemma RepeatedItemPaysTwice(task: Task, item: Item, now: int)
    requires task.mjId != "" && task.progress != COMPLETE && task.quota != 0
    requires item.status == FAILURE && item.failReason != "" && item.progress != COMPLETE
    ensures var paid := Finish(Heard(OneRow(task), 1, item, now), 1);
            var again := Step(Step(paid, Repeat(1, 1)), Respond(1, 1, item, now));
            Honest(item) && Count(Finish(again, 1).paid, 1) == 2
  {
    var heard := Heard(OneRow(task), 1, item, now);
    assert heard.agents[(1, 1)] == Answered(task, item, now);
    FinishPays(heard, 1);
    RepeatPays(Finish(heard, 1), item, now);
    var again := Step(Step(Finish(heard, 1), Repeat(1, 1)), Respond(1, 1, item, now));
    CountUpTo(Finish(again, 1).paid);
  }

  /** A pass that already wrote the failure hears it again, short of 100%, and pays again. */
  lemma RepeatPays(s: State, item: Item, now: int)
    requires (1, 1) in s.agents && s.agents[(1, 1)].Finished? && 1 in s.rows && s.rows[1] == s.agents[(1, 1)].task
    requires s.rows[1].status == FAILURE && s.rows[1].progress == COMPLETE && s.rows[1].quota != 0
    requires item.status == FAILURE && item.failReason != "" && item.progress != COMPLETE
    ensures var again := Step(Step(s, Repeat(1, 1)), Respond(1, 1, item, now));
            Finish(again, 1).paid == s.paid + [Payment(1, s.rows[1].userId, s.rows[1].quota)]
  {
    var again := Step(Step(s, Repeat(1, 1)), Respond(1, 1, item, now));
    assert again.agents[(1, 1)] == Answered(s.rows[1], item, now);
    FinishPays(again, 1);
  }

  /** The webhook overwrites a refunded row without a swap, and a second pass refunds it again. */
  lemma WebhookReopensARefundedRow(task: Task, item: Item, update: Item, now: int)
    requires task.mjId != "" && task.progress != COMPLETE && task.quota != 0
    requires item.status == FAILURE && item.failReason != "" && update.progress != COMPLETE
    ensures var paid := Finish(Heard(OneRow(task), 1, item, now), 1);
            Count(Finish(Heard(Step(paid, Notify(1, update)), 2, item, now), 2).paid, 1) == 2
  {
    PassPays(OneRow(task), 1, item, now);
    var paid := Finish(Heard(OneRow(task), 1, item, now), 1);
    FinishLeavesOthers(Heard(OneRow(task), 1, item, now), 1, 2);
    Reopens(paid, update);
    PassPays(Step(paid, Notify(1, update)), 2, item, now);
    CountUpTo(Finish(Heard(Step(paid, Notify(1, update)), 2, item, now), 2).paid);
  }

  lemma Reopens(s: State, update: Item)
    requires 1 in s.rows
    ensures var s' := Step(s, Notify(1, update));
            && s'.agents == s.agents && s'.paid == s.paid && 1 in s'.rows
            && SameAccount(s'.rows[1], s.rows[1]) && s'.rows[1].mjId == s.rows[1].mjId
            && s'.rows[1].progress == update.progress
  {
  }

  // ----- What is written is what was heard -----

  /** The row shows the item, field by field; a failed row is complete whatever the item says. */
  predicate Shows(row: Task, heard: Item, failed: bool)
  {
    && row.code == 1 && row.status == heard.status && row.failReason == heard.failReason
    && row.progress == (if failed then "100%" else heard.progress)
    && row.promptEn == heard.promptEn && row.state == heard.state
    && row.submitTime == heard.submitTime && row.startTime == heard.startTime && row.finishTime == heard.finishTime
    && row.imageUrl == heard.imageUrl && row.videoUrl == heard.videoUrl && row.videoUrls == heard.videoUrls
  }

  /** The item reports a failure: a reason short of 100%, or the status FAILURE at 100%. */
  predicate ReportsFailure(item: Item)
  {
    if item.progress == "100%" then item.status == "FAILURE" else item.failReason != ""
  }

  /** Whose row it is and what it costs stay; buttons and properties change only to what the item brings. */
  predicate KeepsTheRest(row: Task, before: Task, item: Item)
  {
    && row.userId == before.userId && row.quota == before.quota && row.mjId == before.mjId
    && (row == before ||
        (&& row.buttons == (if item.buttons.Some? then item.buttons.value else before.buttons)
         && row.properties == (if item.properties.Some? then item.properties.value else before.properties)))
  }

  /** What the pass holds after it was answered shows the item, whether or not there is anything to write. */
  lemma AnswerShows(task: Task, item: Item, now: int)
    requires task.progress != "100%"
    ensures var a, late := Answered(task, item, now), now - task.submitTime > 3_600_000;
            var heard := if late then item.(status := "FAILURE", failReason := TIMEOUT_REASON) else item;
            && Shows(a.task, heard, ReportsFailure(heard)) && KeepsTheRest(a.task, task, item)
            && (a.Finished? || (a.Ready? && a.before == task.status && a.task != task))
            && (a.Finished? ==> a.task == task)
            && (a.Ready? ==> (a.refund <==> ReportsFailure(heard) && task.quota != 0))
  {
  }

  /** A whole pass over one row: read it, be answered, write it back and pay if that is due. */
  function WholePass(s: State, pass: int, row: int, item: Item, now: int): State
  {
    var answered := Step(Step(s, Snapshot(pass, row)), Respond(pass, row, item, now));
    Step(Step(answered, Swap(pass, row, Succeeds)), Pay(pass, row, true))
  }

  /**
   A pass over an unfinished row, with nobody in between, leaves the row showing
   what was heard: a finished job is stored as finished with its image and video,
   a failed one is complete and refunded, and an hour without an end is a failure.
   */
  lemma PassWritesWhatItHeard(s: State, pass: int, row: int, item: Item, now: int)
    requires row in s.rows && (pass, row) !in s.agents && s.rows[row].mjId != "" && s.rows[row].progress != "100%"
    ensures var before, s' := s.rows[row], WholePass(s, pass, row, item, now);
            var late := now - before.submitTime > 3_600_000;
            var heard := if late then item.(status := "FAILURE", failReason := TIMEOUT_REASON) else item;
            && row in s'.rows && Shows(s'.rows[row], heard, ReportsFailure(heard))
            && KeepsTheRest(s'.rows[row], before, item)
            && s'.paid == s.paid + (if ReportsFailure(heard) && before.quota != 0
                                    then [Payment(row, before.userId, before.quota)] else [])
  {
    var before, read := s.rows[row], Step(s, Snapshot(pass, row));
    assert read.agents[(pass, row)] == Holding(before);
    var answered := Step(read, Respond(pass, row, item, now));
    assert answered.agents[(pass, row)] == Answered(before, item, now);
    assert answered.rows == s.rows && answered.paid == s.paid;
    AnswerShows(before, item, now);
    if answered.agents[(pass, row)].Ready? { SwapWritesTheCopy(answered, pass, row, Succeeds); }
    Swapped(answered, pass, row);
  }

  lemma Swapped(s: State, pass: int, row: int)
    requires (pass, row) in s.agents && row in s.rows
    requires var a := s.agents[(pass, row)]; a.Finished? || (a.Ready? && a.before == s.rows[row].status)
    ensures var a, s' := s.agents[(pass, row)], Step(Step(s, Swap(pass, row, Succeeds)), Pay(pass, row, true));
            && s'.rows == (if a.Ready? then s.rows[row := a.task] else s.rows)
            && s'.paid == s.paid + (if a.Ready? && a.refund then [Payment(row, a.task.userId, a.task.quota)] else [])
  {
  }

  /** A submission is stored under its own new id and touches no other row. */
  lemma InsertStores(s: State, row: int, task: Task, other: int)
    ensures var s' := Step(s, Insert(row, task));
            && row in s'.rows && s'.rows[row] == (if row in s.rows then s.rows[row] else task)
            && (other != row ==> (other in s'.rows <==> other in s.rows))
            && (other in s.rows ==> s'.rows[other] == s.rows[other])
            && s'.paid == s.paid && s'.agents == s.agents
  {
  }

  /** However the steps interleave, a swap writes the pass's copy if the status is still the one read, or nothing. */
  lemma SwapWritesTheCopy(s: State, pass: int, row: int, outcome: Outcome)
    requires (pass, row) in s.agents && s.agents[(pass, row)].Ready? && row in s.rows
    ensures var a, s' := s.agents[(pass, row)], Step(s, Swap(pass, row, outcome));
            && row in s'.rows && (pass, row) in s'.agents && s'.paid == s.paid
            && s'.rows[row] == (if s.rows[row].status == a.before && outcome != ErrorsBeforeWrite
                                then a.task else s.rows[row])
            && (s'.agents[(pass, row)].Paying? <==>
                a.refund && s.rows[row].status == a.before && outcome == Succeeds)
            && (forall r :: r in s.rows && r != row ==> r in s'.rows && s'.rows[r] == s.rows[r])
  {
  }

  /** The webhook stores what it is told whatever the row says, and leaves code, buttons and properties. */
  lemma NotifyWritesWhatItHeard(s: State, row: int, item: Item)
    requires row in s.rows
    ensures var stored, s' := s.rows[row], Step(s, Notify(row, item));
            && row in s'.rows
            && Shows(s'.rows[row].(code := 1, videoUrls := item.videoUrls), item, false)
            && s'.rows[row].videoUrls == (if item.videoUrls == "" then "null" else item.videoUrls)
            && s'.rows[row].code == stored.code && s'.rows[row].mjId == stored.mjId
            && s'.rows[row].buttons == stored.buttons && s'.rows[row].properties == stored.properties
            && SameAccount(s'.rows[row], stored) && s'.paid == s.paid && s'.agents == s.agents
  {
  }

  /** A bulk failure ends the row for every later pass and pays nothing. */
  lemma BulkFailureEndsTheRow(s: State, row: int, reason: Option<string>, pass: int)
    requires row in s.rows && (pass, row) !in s.agents
    ensures var before, s' := s.rows[row], Step(s, BulkFail(row, reason));
            && row in s'.rows && s'.paid == s.paid
            && s'.rows[row].status == "FAILURE" && s'.rows[row].progress == "100%"
            && s'.rows[row].failReason == (if reason.Some? then reason.value else before.failReason)
            && before == s'.rows[row].(status := before.status, progress := before.progress,
                                       failReason := before.failReason)
            && Step(s', Snapshot(pass, row)) == s'
  {
  }

  /** What a submission stores: its user, price and id upstream, a reason if it was refused, and what upstream knew. */
  lemma SubmissionStores(userId: int, quota: int, code: int, mjId: string, description: string,
                         existing: Option<(string, string)>, upload: bool, now: int)
    ensures var row := Submitted(userId, quota, code, mjId, description, existing, upload, now);
            var known := code == 21 && existing.Some?;
            var done := known && existing.value.1 == "SUCCESS";
            var uploaded := upload && (code == 1 || done);
            && row.userId == userId && row.quota == quota && row.code == code && row.mjId == mjId
            && row.submitTime == now && row.progress == (if done || uploaded then "100%" else "0%")
            && row.status == (if uploaded then "SUCCESS" else if known then existing.value.1 else "")
            && row.imageUrl == (if known then existing.value.0 else "")
            && row.startTime == row.finishTime == (if done then now else 0)
            && row.failReason == (if code in {1, 21, 22} then "" else description)
  {
  }
}
