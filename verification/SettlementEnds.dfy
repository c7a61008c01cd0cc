// How a transfer that is not wronged ends: settled once it was credited, reversed once it was refunded.
module SettlementEnds {
  import opened Wrappers
  import opened Settlement

  // No mark on the transfer was declined.
  predicate NoMarkDeclined(t: Transfer) {
    No(MarkDebited) !in t.history && No(MarkCredited) !in t.history && No(Settle) !in t.history
        && No(MarkReversed) !in t.history
  }

  const SETTLED := [Yes(Debit), Yes(MarkDebited), Yes(Credit), Yes(MarkCredited), Yes(Settle)]

  function Refunded(sent: bool): seq<Did> {
    [Yes(Debit), Yes(MarkDebited), No(Credit), Did(Compensate, sent), Yes(MarkReversed)]
  }

  lemma PayingEnds(t: Transfer)
    requires Paying(t) && AtRest(t) && No(Settle) !in t.history
    ensures t.history == SETTLED && t.status.Settled? && t.stage == None
  {
    assert PAID + [Yes(MarkCredited), Yes(Settle)] == SETTLED;
    assert (PAID + [Yes(MarkCredited), No(Settle)])[4] == No(Settle);
  }

  lemma UnwindingEnds(t: Transfer)
    requires Unwinding(t, UNPAID) && AtRest(t) && No(MarkReversed) !in t.history
    ensures t.history == Refunded(t.history[3].delivered) && t.status.Reversed?
  {
    assert |t.history| == 5;
    assert t.history == t.history[..3] + [t.history[3], t.history[4]];
    assert t.history[4] in t.history;
    assert UNPAID + [t.history[3], Yes(MarkReversed)] == Refunded(t.history[3].delivered);
  }

  // The three ends of a transfer at rest no mark of which was declined.
  lemma ThreeEnds(t: Transfer)
    requires Known(t) && AtRest(t) && NoMarkDeclined(t)
    ensures || (t.history == [No(Debit)] && t.status.Requested?)
            || (t.history == SETTLED && t.status.Settled? && t.stage == None)
            || (exists sent :: t.history == Refunded(sent) && t.status.Reversed?)
  {
    hide Paying, Unwinding, Unrecorded;
    if Unrecorded(t) || Unwinding(t, UNMARKED) {
      BrokenMarks(t);
    } else if Paying(t) {
      PayingEnds(t);
    } else if Unwinding(t, UNPAID) {
      UnwindingEnds(t);
    }
  }

  // It is settled exactly when the credit arrived, reversed exactly when that was refused, and still as
  // requested exactly when the debit was. Its money is out only where the refund was refused as well.
  lemma EndsAsItWent(t: Transfer)
    requires Known(t) && AtRest(t) && NoMarkDeclined(t)
    ensures Yes(Credit) in t.history <==> t.status.Settled?
    ensures t.status.Settled? ==> t.stage == None && Outstanding(t) == 0
    ensures No(Credit) in t.history <==> t.status.Reversed?
    ensures t.status.Reversed? ==> Outstanding(t) == if Yes(Compensate) in t.history then 0 else t.amount
    ensures No(Debit) in t.history <==> t.status.Requested?
    ensures t.status.Requested? ==> Outstanding(t) == 0
  {
    hide Known, Outstanding, Sound;
    ThreeEnds(t);
    RestingPlace(t);
  }

  // ----- Over runs -----

  lemma MarksGoOn(bank: Bank, step: Step, ref: string)
    requires Sound(bank) && ref in bank.transfers
    requires CopiesOpen(bank.transfers[ref].view) && NoMarkDeclined(bank.transfers[ref])
    requires Takes(bank, step, ref) ==>
               CopiesOpen(Seen(bank.accounts, bank.transfers[ref].source, bank.transfers[ref].destination))
    ensures ref in After(bank, step).transfers
    ensures var next := After(bank, step).transfers[ref]; CopiesOpen(next.view) && NoMarkDeclined(next)
  {
    var t := bank.transfers[ref];
    MarksStayKept(bank, step, ref);
    StepOn(bank, step, ref);
    if step == Dispatch(ref) && !AtRest(t) {
      MarksReadTheCopies(bank, t);
      AnsweredGrows(bank, t);
      if t.pending[0].MarkReversed? {
        KeptIsRecorded(t);
      }
    }
  }

  lemma KeptIsRecorded(t: Transfer)
    requires Known(t) && !AtRest(t) && t.pending[0].MarkReversed? && NoMarkDeclined(t)
    ensures Yes(MarkDebited) in t.history
  {
    if Unrecorded(t) {
      BrokenMarks(t);
    } else if Unwinding(t, UNMARKED) {
      BrokenMarks(t);
    } else {
      assert t.history[1] == t.history[..3][1] == UNPAID[1];
    }
  }

  // While every save and sweep takes a transfer's copies of open and active accounts, no mark of it is
  // declined: at rest it is settled when it was credited, and reversed when it was not.
  lemma {:induction false} SettledOncePaid(bank: Bank, steps: seq<Step>, ref: string)
    requires Sound(bank) && ref in bank.transfers && TakenOpen(bank, steps, ref)
    requires CopiesOpen(bank.transfers[ref].view) && NoMarkDeclined(bank.transfers[ref])
    ensures ref in Run(bank, steps).transfers
    ensures var t := Run(bank, steps).transfers[ref];
            && NoMarkDeclined(t)
            && (AtRest(t) ==>
                  && (Yes(Credit) in t.history <==> t.status.Settled?) && (t.status.Settled? ==> t.stage == None)
                  && (No(Credit) in t.history <==> t.status.Reversed?)
                  && (No(Debit) in t.history <==> t.status.Requested?))
    decreases |steps|
  {
    hide After, NoMarkDeclined, CopiesOpen, Known;
    var t := bank.transfers[ref];
    if steps == [] {
      if AtRest(t) {
        EndsAsItWent(t);
      }
    } else {
      StepKeeps(bank, steps[0]);
      StepOn(bank, steps[0], ref);
      MarksGoOn(bank, steps[0], ref);
      SettledOncePaid(After(bank, steps[0]), steps[1..], ref);
    }
  }

  // A transfer taken between two standing accounts that are left standing comes to one of three ends after
  // six dispatches, whatever else happens: settled with its money arrived, reversed with its money back
  // unless the refund was refused, or as requested with nothing moved.
  lemma StandingTransfersEnd(bank: Bank, steps: seq<Step>, ref: string)
    requires Sound(bank) && ref in bank.transfers && DispatchesOf(steps, ref) >= 6
    requires var t := bank.transfers[ref];
             && t.history == [] && CopiesOpen(t.view)
             && Upright(bank.accounts, t.source) && Upright(bank.accounts, t.destination)
             && LeftStanding(steps, t.source) && LeftStanding(steps, t.destination)
    ensures ref in Run(bank, steps).transfers
    ensures var t := Run(bank, steps).transfers[ref];
            || (t.history == SETTLED && t.status.Settled? && t.stage == None && Outstanding(t) == 0)
            || (t.history == Refunded(true) && t.status.Reversed? && Outstanding(t) == 0)
            || (t.history == Refunded(false) && t.status.Reversed? && Outstanding(t) == t.amount)
            || (t.history == [No(Debit)] && t.status.Requested? && Outstanding(t) == 0)
  {
    hide After, Run, Known, Outstanding;
    StandingIsTakenOpen(bank, steps, ref);
    SettledOncePaid(bank, steps, ref);
    SixDispatchesSettle(bank, steps, ref);
    MoneyIsConserved(bank, steps);
    var t := Run(bank, steps).transfers[ref];
    ThreeEnds(t);
    EndsAsItWent(t);
  }

  // ----- The last dispatch of either way -----

  // A saga about to settle does so exactly when the transfer's copy of the destination is open and active,
  // and then ends; else the transfer rests credited, its money arrived all the same.
  lemma SettleNext(bank: Bank, ref: string)
    requires Sound(bank) && ref in bank.transfers
    requires var t := bank.transfers[ref]; t.pending != [] && t.pending[0].Settle?
    ensures ref in Deliver(bank, ref).transfers
    ensures var t, next := bank.transfers[ref], Deliver(bank, ref).transfers[ref];
            var open := t.view.destinationOpen && t.view.destinationActive;
            && AtRest(next)
            && next.status == (if open then Settled else Credited)
            && next.stage == (if open then None else Some(AtSettled))
  {
    var t := bank.transfers[ref];
    MarksReadTheCopies(bank, t);
    Legs(t, Refusal);
  }

  // A saga about to mark a transfer reversed does so exactly when the transfer's copy of its source is open
  // and active and its debit was recorded.
  lemma ReverseNext(bank: Bank, ref: string)
    requires Sound(bank) && ref in bank.transfers
    requires var t := bank.transfers[ref]; t.pending != [] && t.pending[0].MarkReversed?
    ensures ref in Deliver(bank, ref).transfers
    ensures var t, next := bank.transfers[ref], Deliver(bank, ref).transfers[ref];
            next.status.Reversed? <==> t.view.sourceOpen && t.view.sourceActive && Yes(MarkDebited) in t.history
  {
    var t := bank.transfers[ref];
    MarksReadTheCopies(bank, t);
    Legs(t, Refusal);
  }
}
