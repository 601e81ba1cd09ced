/**
 What Midjourney rows cost and what they are refunded (relay/mjproxy_handler.go,
 controller/midjourney.go). A submission stores its price in the row whether or
 not it was charged, and a failed row is refunded by what it stores.
 */
module MidjourneyCharges {
  import opened Basics
  import opened Midjourney
  import opened Sums

  /**
   What a submission is charged: nothing for an action that costs nothing, after
   a failed request, or when upstream neither took nor knew the job.
   */
  function Charge(quota: nat, costs: bool, statusCode: int, code: int): nat
  {
    if costs && statusCode == 200 && (code == 1 || code == 21 || code == 22) then quota else 0
  }

  function Refunds(paid: seq<Payment>, row: int): int
  {
    if paid == [] then 0
    else Refunds(paid[..|paid| - 1], row) + if paid[|paid| - 1].row == row then paid[|paid| - 1].amount else 0
  }

  lemma {:induction false} RefundsAre(paid: seq<Payment>, row: int, quota: int)
    requires forall i :: 0 <= i < |paid| && paid[i].row == row ==> paid[i].amount == quota
    ensures Refunds(paid, row) == Count(paid, row) * quota
  {
    if paid != [] {
      RefundsAre(paid[..|paid| - 1], row, quota);
    }
  }

  // ----- One row -----

  /** The passes look at the row. */
  predicate Polled(task: Task)
  {
    task.mjId != "" && task.progress != COMPLETE
  }

  ghost predicate OutOfReach(s: State)
  {
    && 1 in s.rows && !Polled(s.rows[1]) && Count(s.paid, 1) == 0
    && forall pass :: (pass, 1) !in s.agents
  }

  lemma {:induction false} NeverPaid(s: State, events: seq<Event>)
    requires OutOfReach(s) && Covered(events)
    ensures OutOfReach(Run(s, events))
  {
    if events != [] {
      var before := events[..|events| - 1];
      NeverPaid(s, before);
      StaysOutOfReach(Run(s, before), events[|events| - 1]);
    }
  }

  lemma StaysOutOfReach(s: State, e: Event)
    requires OutOfReach(s) && Allowed(e)
    ensures OutOfReach(Step(s, e))
  {
    match e
    case Swap(pass, row, outcome) => SwapsElsewhere(s, pass, row, outcome);
    case Pay(pass, row, credited) => PaysElsewhere(s, pass, row, credited);
    case _ =>
  }

  lemma SwapsElsewhere(s: State, pass: int, row: int, outcome: Outcome)
    requires OutOfReach(s)
    ensures OutOfReach(Step(s, Swap(pass, row, outcome)))
  {
    assert (pass, 1) !in s.agents;
  }

  lemma PaysElsewhere(s: State, pass: int, row: int, credited: bool)
    requires OutOfReach(s)
    ensures OutOfReach(Step(s, Pay(pass, row, credited)))
  {
    assert (pass, 1) !in s.agents;
    var s' := Step(s, Pay(pass, row, credited));
    if |s'.paid| > |s.paid| { assert s'.paid[..|s'.paid| - 1] == s.paid; }
  }

  /** No run refunds a row by more than its charge, if and only if that is its price or the row is never looked at. */
  lemma RefundedWithinIff(task: Task, charge: nat)
    requires Closed(task) && task.quota >= 0
    ensures (forall events :: Covered(events) ==> Refunds(Run(OneRow(task), events).paid, 1) <= charge) <==>
            task.quota <= charge || !Polled(task)
  {
    if task.quota <= charge || !Polled(task) {
      forall events | Covered(events)
        ensures Refunds(Run(OneRow(task), events).paid, 1) <= charge
      {
        RefundedWithin(task, charge, events);
      }
    } else {
      RefundedInFull(task);
    }
  }

  lemma RefundedWithin(task: Task, charge: nat, events: seq<Event>)
    requires Closed(task) && task.quota >= 0 && Covered(events)
    requires task.quota <= charge || !Polled(task)
    ensures Refunds(Run(OneRow(task), events).paid, 1) <= charge
  {
    if Polled(task) {
      RefundedAtMostOnce(task, events);
    } else {
      NeverPaid(OneRow(task), events);
      Unpaid(Run(OneRow(task), events).paid, 1);
    }
  }

  lemma RefundedAtMostOnce(task: Task, events: seq<Event>)
    requires Closed(task) && task.quota >= 0 && Covered(events)
    ensures Refunds(Run(OneRow(task), events).paid, 1) <= task.quota
  {
    RefundedOnce(OneRow(task), events);
    OwnAmounts(Run(OneRow(task), events), task);
  }

  lemma OwnAmounts(s: State, task: Task)
    requires PaymentsOk(s) && 1 in s.rows && SameAccount(s.rows[1], task) && task.quota >= 0
    ensures Refunds(s.paid, 1) <= task.quota
  {
    RefundsAre(s.paid, 1, task.quota);
    assert Count(s.paid, 1) == 0 || Count(s.paid, 1) == 1;
  }

  lemma {:induction false} Unpaid(paid: seq<Payment>, row: int)
    requires Count(paid, row) == 0
    ensures Refunds(paid, row) == 0
  {
    if paid != [] { Unpaid(paid[..|paid| - 1], row); }
  }

  lemma RefundedInFull(task: Task)
    requires Polled(task) && task.quota != 0
    ensures Covered(Pass(1, FAILED)) && Refunds(Run(OneRow(task), Pass(1, FAILED)).paid, 1) == task.quota
  {
    RunFour(OneRow(task), Pass(1, FAILED));
    PassPays(OneRow(task), 1, FAILED, 0);
  }

  // ----- Every run, well-behaved or not -----

  /** A copy carries the user and the quota of its row. */
  ghost predicate CopyOk(s: State, a: (int, int))
    requires a in s.agents
  {
    a.1 in s.rows && SameAccount(s.agents[a].task, s.rows[a.1])
  }

  ghost predicate CopiesOk(s: State)
  {
    forall a :: a in s.agents ==> CopyOk(s, a)
  }

  ghost predicate AmountsOk(rows: map<int, Task>, paid: seq<Payment>)
  {
    forall i :: 0 <= i < |paid| ==> paid[i].row in rows && paid[i].amount == rows[paid[i].row].quota
  }

  ghost predicate SameAccounts(rows: map<int, Task>, rows': map<int, Task>)
  {
    forall row :: row in rows ==> row in rows' && SameAccount(rows'[row], rows[row])
  }

  ghost predicate AccountsOk(s: State)
  {
    CopiesOk(s) && AmountsOk(s.rows, s.paid)
  }

  lemma RowsKeepAccounts(s: State, e: Event)
    requires CopiesOk(s)
    ensures SameAccounts(s.rows, Step(s, e).rows)
  {
    if e.Swap? && (e.pass, e.row) in s.agents { assert CopyOk(s, (e.pass, e.row)); }
  }

  lemma CopyStaysOk(s: State, e: Event, a: (int, int))
    requires CopiesOk(s) && a in Step(s, e).agents && SameAccounts(s.rows, Step(s, e).rows)
    ensures CopyOk(Step(s, e), a)
  {
    if a in s.agents {
      assert CopyOk(s, a);
      CopyKeepsAccount(s, e, a);
    } else {
      assert e.Snapshot?;
    }
  }

  lemma CopyKeepsAccount(s: State, e: Event, a: (int, int))
    requires a in s.agents
    ensures a in Step(s, e).agents && SameAccount(Step(s, e).agents[a].task, s.agents[a].task)
  {
    if e.Respond? { AnswerKeepsAccount(s.agents[a].task, e.item, e.now); }
  }

  lemma AnswerKeepsAccount(task: Task, item: Item, now: int)
    ensures SameAccount(Answered(task, item, now).task, task)
  {
  }

  lemma AmountsStayOk(s: State, e: Event)
    requires AccountsOk(s) && SameAccounts(s.rows, Step(s, e).rows)
    ensures AmountsOk(Step(s, e).rows, Step(s, e).paid)
  {
    if e.Pay? && (e.pass, e.row) in s.agents {
      assert CopyOk(s, (e.pass, e.row));
    }
  }

  lemma StepKeepsAccountsOk(s: State, e: Event)
    requires AccountsOk(s)
    ensures AccountsOk(Step(s, e)) && SameAccounts(s.rows, Step(s, e).rows)
  {
    RowsKeepAccounts(s, e);
    AmountsStayOk(s, e);
    forall a | a in Step(s, e).agents
      ensures CopyOk(Step(s, e), a)
    {
      CopyStaysOk(s, e, a);
    }
  }

  /** A payment is always the row's own quota, whatever upstream sends and whoever writes the row. */
  lemma {:induction false} PaymentsAreQuotas(s: State, events: seq<Event>)
    requires AccountsOk(s)
    ensures AccountsOk(Run(s, events)) && SameAccounts(s.rows, Run(s, events).rows)
  {
    if events != [] {
      PaymentsAreQuotas(s, events[..|events| - 1]);
      StepKeepsAccountsOk(Run(s, events[..|events| - 1]), events[|events| - 1]);
    }
  }

  lemma RefundedTwiceOver(task: Task)
    requires !Closed(task)
    ensures var events := Race(FAILED, FAILED_LATER, 0);
            Covered(events) && Refunds(Run(OneRow(task), events).paid, 1) == 2 * task.quota
  {
    var t := Run(OneRow(task), Race(FAILED, FAILED_LATER, 0));
    FailedRowPaysTwice(OneRow(task), FAILED, FAILED_LATER, 0);
    PaymentsAreQuotas(OneRow(task), Race(FAILED, FAILED_LATER, 0));
    RefundsAre(t.paid, 1, task.quota);
  }

  // ----- Submissions -----

  /**
   A submission is refunded at most what it was charged exactly when it is free or
   never looked at, or was charged and is not a job upstream knows to have failed.
   Every other one is stored with a price nobody paid, or is refunded twice.
   */
  lemma SubmissionsAreRefundedWithinIff(userId: int, quota: nat, costs: bool, statusCode: int, code: int, mjId: string,
                                        description: string, existing: Option<(string, string)>, upload: bool, now: int)
    ensures var task := Submitted(userId, quota, code, mjId, description, existing, upload, now);
            var charge := Charge(quota, costs, statusCode, code);
            (forall events :: Covered(events) ==> Refunds(Run(OneRow(task), events).paid, 1) <= charge) <==>
            || quota == 0 || mjId == ""
            || (code == 1 && upload)
            || (code == 21 && existing.Some? && existing.value.1 == "SUCCESS")
            || (costs && statusCode == 200 &&
                (code == 1 || code == 22 || (code == 21 && !(existing.Some? && existing.value.1 == FAILURE))))
  {
    var task := Submitted(userId, quota, code, mjId, description, existing, upload, now);
    SubmissionsAreClosedUnless(userId, quota, code, mjId, description, existing, upload, now);
    if Closed(task) {
      RefundedWithinIff(task, Charge(quota, costs, statusCode, code));
    } else {
      RefundedTwiceOver(task);
    }
  }

  // ----- All rows -----

  datatype Charged = Charged(userId: int, amount: nat)

  ghost function ChargedTo(charges: map<int, Charged>, userId: int): int
  {
    SumBy(charges, (c: Charged) => if c.userId == userId then c.amount else 0)
  }

  /** Every row was charged at least what it stores, to its own user. */
  ghost predicate AllCharged(s: State, charges: map<int, Charged>)
  {
    forall row :: row in s.rows ==>
      row in charges && charges[row].userId == s.rows[row].userId && s.rows[row].quota <= charges[row].amount
  }

  /** Then no user is ever refunded more than that user was charged, over all rows. */
  lemma RefundsNeverExceedCharges(s: State, events: seq<Event>, charges: map<int, Charged>, userId: int)
    requires Initial(s) && Covered(events) && AllCharged(Run(s, events), charges)
    ensures PaidTo(Run(s, events).paid, userId) <= ChargedTo(charges, userId)
  {
    RefundedOnce(s, events);
    PaidWithin(Run(s, events).paid, charges, userId);
  }

  ghost predicate Backed(paid: seq<Payment>, charges: map<int, Charged>)
  {
    && (forall row :: Count(paid, row) <= 1)
    && forall i :: 0 <= i < |paid| ==>
         && paid[i].row in charges && charges[paid[i].row].userId == paid[i].userId
         && paid[i].amount <= charges[paid[i].row].amount
  }

  lemma {:induction false} PaidWithin(paid: seq<Payment>, charges: map<int, Charged>, userId: int)
    requires Backed(paid, charges)
    ensures PaidTo(paid, userId) <= ChargedTo(charges, userId)
    decreases |paid|
  {
    var f := (c: Charged) => if c.userId == userId then c.amount else 0;
    if paid == [] {
      SumNonNegative(charges, f);
    } else {
      var rest, last := paid[..|paid| - 1], paid[|paid| - 1];
      SumSplit(charges, last.row, f);
      BackedWithout(paid, charges);
      PaidWithin(rest, charges - {last.row}, userId);
    }
  }

  /** The last payment's row occurs nowhere before. */
  lemma BackedWithout(paid: seq<Payment>, charges: map<int, Charged>)
    requires Backed(paid, charges) && paid != []
    ensures Backed(paid[..|paid| - 1], charges - {paid[|paid| - 1].row})
  {
    var rest, last := paid[..|paid| - 1], paid[|paid| - 1];
    assert Count(paid, last.row) == Count(rest, last.row) + 1;
    Uncounted(rest, last.row);
    forall row
      ensures Count(rest, row) <= 1
    {
      assert Count(paid, row) <= 1;
    }
  }

  lemma {:induction false} Uncounted(paid: seq<Payment>, row: int)
    requires Count(paid, row) == 0
    ensures forall i :: 0 <= i < |paid| ==> paid[i].row != row
  {
    if paid != [] { Uncounted(paid[..|paid| - 1], row); }
  }
}
