// Runs of one transfer that lose count of its money: two pay it twice, one pays it to nobody.
module SettlementLosses {
  import opened Wrappers
  import opened Settlement

  function AccountOf(balance: int, open: bool): Account { Account(balance, 1000, open, true, true) }

  const ALL_OPEN := View(true, true, true, true)
  const NEW_BANK := Bank(map["a" := AccountOf(100, true), "b" := AccountOf(0, true)], map[])

  // A transfer of fifty from "a" to "b".
  function Fifty(status: Status, view: View, stage: Stage, owes: bool, pending: seq<Errand>,
      history: seq<Did>): Transfer {
    Transfer("a", "b", 50, status, view, Some(stage), if owes then [Refund("a", 50)] else [], pending, history)
  }

  const ASKED := Fifty(Requested, ALL_OPEN, AtRequested, false, [Debit], [])
  const TAKEN := Fifty(Requested, ALL_OPEN, AwaitingCredit, true, [MarkDebited, Credit], [Yes(Debit)])
  const MARKED := Fifty(Debited, ALL_OPEN, AwaitingCredit, true, [Credit], [Yes(Debit), Yes(MarkDebited)])
  const GIVEN := Fifty(Debited, ALL_OPEN, AwaitingCredit, true, [MarkCredited],
      [Yes(Debit), Yes(MarkDebited), Yes(Credit)])

  function Accounts(a: int, b: int, aOpen: bool, bOpen: bool): map<string, Account> {
    map["a" := AccountOf(a, aOpen), "b" := AccountOf(b, bOpen)]
  }

  lemma Asks()
    ensures After(NEW_BANK, Request("t", "a", "b", 50, true)) == Bank(NEW_BANK.accounts, map["t" := ASKED])
  {
    var t := Transfer("a", "b", 50, Requested, ALL_OPEN, Some(AtRequested), [], [], []);
    assert Seen(NEW_BANK.accounts, "a", "b") == ALL_OPEN;
    Legs(t, TransferRequested);
    assert React(t, TransferRequested) == ASKED by { assert [] + [Debit] + t.pending == [Debit]; }
  }

  lemma Takes()
    ensures Advanced(ASKED, Debit, true) == TAKEN
  {
    var begun := Begun(ASKED, Debit).(history := ASKED.history + [Did(Debit, true)], status := Requested);
    var owing := begun.(refunds := begun.refunds + [Refund("a", 50)]);
    assert begun.pending == [] && begun.history == [Yes(Debit)] && owing.refunds == [Refund("a", 50)];
    Legs(owing, AccountDebited);
    assert SETTLEMENT[1].dispatches == [MarkDebited, Credit];
    assert [] + [MarkDebited, Credit] + owing.pending == [MarkDebited, Credit];
    assert React(owing, AccountDebited) == TAKEN;
  }

  lemma Marks()
    ensures Advanced(TAKEN, MarkDebited, true) == MARKED
  {
    assert TAKEN.pending[1..] == [Credit] && TAKEN.history + [Yes(MarkDebited)] == MARKED.history;
  }

  lemma Gives()
    ensures Advanced(MARKED, Credit, true) == GIVEN
  {
    var begun := Begun(MARKED, Credit).(history := MARKED.history + [Did(Credit, true)], status := Debited);
    assert begun.pending == [] && begun.history == GIVEN.history;
    Legs(begun, AccountCredited);
    assert SETTLEMENT[2].dispatches == [MarkCredited];
    assert [] + [MarkCredited] + begun.pending == [MarkCredited];
  }

  const PAYMENT := [Request("t", "a", "b", 50, true), Dispatch("t"), Dispatch("t")]

  // Asked for, debited and marked.
  lemma PaymentStarts()
    ensures Run(NEW_BANK, PAYMENT) == Bank(Accounts(50, 0, true, true), map["t" := MARKED])
  {
    Asks();
    Takes();
    Marks();
    var asked := Bank(NEW_BANK.accounts, map["t" := ASKED]);
    var taken := Bank(Accounts(50, 0, true, true), map["t" := TAKEN]);
    assert Post(NEW_BANK.accounts, "a", -50) == Accounts(50, 0, true, true);
    assert After(asked, Dispatch("t")) == taken;
    assert After(taken, Dispatch("t")) == Bank(taken.accounts, map["t" := MARKED]);
    assert PAYMENT[1..] == [Dispatch("t"), Dispatch("t")] && PAYMENT[1..][1..] == [Dispatch("t")];
    assert Run(taken, [Dispatch("t")]) == Run(After(taken, Dispatch("t")), []) by { assert [Dispatch("t")][1..] == []; }
    assert Run(asked, PAYMENT[1..]) == Run(taken, [Dispatch("t")]);
  }

  lemma {:induction false} RunBoth(bank: Bank, a: seq<Step>, b: seq<Step>)
    ensures Run(bank, a + b) == Run(Run(bank, a), b)
    decreases |a|
  {
    if a == [] {
      assert a + b == b;
    } else {
      assert (a + b)[1..] == a[1..] + b;
      RunBoth(After(bank, a[0]), a[1..], b);
    }
  }

  lemma RunThree(bank: Bank, x: Step, y: Step, z: Step)
    ensures Run(bank, [x, y, z]) == After(After(After(bank, x), y), z)
  {
    assert [x, y, z][1..] == [y, z] && [y, z][1..] == [z] && [z][1..] == [];
    assert Run(After(After(bank, x), y), [z]) == After(After(After(bank, x), y), z);
  }

  lemma RunTwo(bank: Bank, x: Step, y: Step)
    ensures Run(bank, [x, y]) == After(After(bank, x), y)
  {
    assert [x, y][1..] == [y] && [y][1..] == [];
    assert Run(After(bank, x), [y]) == After(After(bank, x), y);
  }

  const UNMARKABLE := [Dispatch("t"), Rule("b", false), Sweep("t")]
  const BOTH_CLOSED := [Rule("a", false), Rule("b", false)]
  const TWO_MORE := [Dispatch("t"), Dispatch("t")]

  const CLOSED_COPY := GIVEN.(view := View(true, true, false, true))

  lemma GivesNext()
    ensures After(Bank(Accounts(50, 0, true, true), map["t" := MARKED]), Dispatch("t"))
         == Bank(Accounts(50, 50, true, true), map["t" := GIVEN])
  {
    hide Advanced;
    Gives();
    assert Post(Accounts(50, 0, true, true), "b", 50) == Accounts(50, 50, true, true);
  }

  lemma ClosesCopy()
    ensures After(Bank(Accounts(50, 50, true, false), map["t" := GIVEN]), Sweep("t"))
         == Bank(Accounts(50, 50, true, false), map["t" := CLOSED_COPY])
  {
    assert Seen(Accounts(50, 50, true, false), "a", "b") == CLOSED_COPY.view;
  }

  lemma Closing(transfer: Transfer, a: int, b: int, aOpen: bool)
    ensures After(Bank(Accounts(a, b, aOpen, true), map["t" := transfer]), Rule("b", false))
         == Bank(Accounts(a, b, aOpen, false), map["t" := transfer])
    ensures After(Bank(Accounts(a, b, true, true), map["t" := transfer]), Rule("a", false))
         == Bank(Accounts(a, b, false, true), map["t" := transfer])
  {
  }

  lemma CreditedThenClosed()
    ensures Run(NEW_BANK, PAYMENT + UNMARKABLE) == Bank(Accounts(50, 50, true, false), map["t" := CLOSED_COPY])
  {
    hide After, Run, Accounts;
    PaymentStarts();
    GivesNext();
    Closing(GIVEN, 50, 50, true);
    ClosesCopy();
    RunThree(Run(NEW_BANK, PAYMENT), Dispatch("t"), Rule("b", false), Sweep("t"));
    RunBoth(NEW_BANK, PAYMENT, UNMARKABLE);
  }

  // The destination closes right after the credit, so the credit cannot be marked: the source is
  // refunded as well, and the bank is out fifty.
  lemma PaysTwice()
    ensures var bank := Run(NEW_BANK, PAYMENT + UNMARKABLE + TWO_MORE);
            "t" in bank.transfers && Outstanding(bank.transfers["t"]) == -50
  {
    hide Run, After, Outstanding;
    CreditedThenClosed();
    var swept := Run(NEW_BANK, PAYMENT + UNMARKABLE);
    RunBoth(NEW_BANK, PAYMENT + UNMARKABLE, TWO_MORE);
    RunTwo(swept, Dispatch("t"), Dispatch("t"));
    assert Known(CLOSED_COPY) by { assert Paying(CLOSED_COPY) by { assert CLOSED_COPY.history == PAID; } }
    RefusedMarkPaysTwice(swept, "t");
  }

  const FROZEN_AND_BACK := [Rule("b", false), Dispatch("t"), Rule("b", true), Dispatch("t")]

  lemma DebitedOnly()
    ensures Run(NEW_BANK, [Request("t", "a", "b", 50, true), Dispatch("t")])
         == Bank(Accounts(50, 0, true, true), map["t" := TAKEN])
  {
    Asks();
    Takes();
    var asked := Bank(NEW_BANK.accounts, map["t" := ASKED]);
    assert Post(NEW_BANK.accounts, "a", -50) == Accounts(50, 0, true, true);
    assert After(asked, Dispatch("t")) == Bank(Accounts(50, 0, true, true), map["t" := TAKEN]);
    hide After;
    RunTwo(NEW_BANK, Request("t", "a", "b", 50, true), Dispatch("t"));
  }

  // The mark of the debit is set, and with it a copy of the destination as it stands just then.
  lemma MarksWhileFrozen()
    ensures After(Bank(Accounts(50, 0, true, false), map["t" := TAKEN]), Dispatch("t"))
         == Bank(Accounts(50, 0, true, false), map["t" := MARKED.(view := CLOSED_COPY.view)])
  {
    hide Advanced;
    Marks();
    assert Seen(Accounts(50, 0, true, false), "a", "b") == CLOSED_COPY.view;
  }

  lemma GivesOnAnyCopy()
    ensures Advanced(MARKED.(view := CLOSED_COPY.view), Credit, true) == CLOSED_COPY
    ensures After(Bank(Accounts(50, 0, true, true), map["t" := MARKED.(view := CLOSED_COPY.view)]), Dispatch("t"))
         == Bank(Accounts(50, 50, true, true), map["t" := CLOSED_COPY])
  {
    var marked := MARKED.(view := CLOSED_COPY.view);
    var begun := Begun(marked, Credit).(history := marked.history + [Did(Credit, true)], status := Debited);
    assert begun.pending == [] && begun.history == GIVEN.history;
    Legs(begun, AccountCredited);
    assert [] + [MarkCredited] + begun.pending == [MarkCredited];
    assert Advanced(marked, Credit, true) == CLOSED_COPY;
    hide Advanced;
    assert Post(Accounts(50, 0, true, true), "b", 50) == Accounts(50, 50, true, true);
  }

  lemma Reopening(transfer: Transfer, a: int, b: int)
    ensures After(Bank(Accounts(a, b, true, false), map["t" := transfer]), Rule("b", true))
         == Bank(Accounts(a, b, true, true), map["t" := transfer])
  {
  }

  lemma FrozenAndBack()
    ensures Run(Bank(Accounts(50, 0, true, true), map["t" := TAKEN]), FROZEN_AND_BACK)
         == Bank(Accounts(50, 50, true, true), map["t" := CLOSED_COPY])
  {
    hide After, Run, Accounts;
    Closing(TAKEN, 50, 0, true);
    MarksWhileFrozen();
    Reopening(MARKED.(view := CLOSED_COPY.view), 50, 0);
    GivesOnAnyCopy();
    var taken := Bank(Accounts(50, 0, true, true), map["t" := TAKEN]);
    assert FROZEN_AND_BACK == [Rule("b", false), Dispatch("t")] + [Rule("b", true), Dispatch("t")];
    RunBoth(taken, [Rule("b", false), Dispatch("t")], [Rule("b", true), Dispatch("t")]);
    RunTwo(taken, Rule("b", false), Dispatch("t"));
    RunTwo(After(After(taken, Rule("b", false)), Dispatch("t")), Rule("b", true), Dispatch("t"));
  }

  // No sweep is needed: the destination is frozen while the debit is marked and open again before the
  // credit. The copy saved with the mark is stale by then, and the bank is out fifty.
  lemma PaysTwiceWithoutASweep()
    ensures var steps := [Request("t", "a", "b", 50, true), Dispatch("t")] + FROZEN_AND_BACK + TWO_MORE;
            var bank := Run(NEW_BANK, steps);
            && (forall i :: 0 <= i < |steps| ==> !steps[i].Sweep?)
            && "t" in bank.transfers && Outstanding(bank.transfers["t"]) == -50
  {
    hide Run, After, Outstanding;
    var start := [Request("t", "a", "b", 50, true), Dispatch("t")];
    DebitedOnly();
    FrozenAndBack();
    RunBoth(NEW_BANK, start, FROZEN_AND_BACK);
    RunBoth(NEW_BANK, start + FROZEN_AND_BACK, TWO_MORE);
    var bank := Run(NEW_BANK, start + FROZEN_AND_BACK);
    RunTwo(bank, Dispatch("t"), Dispatch("t"));
    assert Known(CLOSED_COPY) by { assert Paying(CLOSED_COPY) by { assert CLOSED_COPY.history == PAID; } }
    RefusedMarkPaysTwice(bank, "t");
  }

  // Both accounts close between the debit and the credit: neither the credit nor the refund is
  // accepted, and fifty is nowhere.
  lemma Strands()
    ensures var bank := Run(NEW_BANK, PAYMENT + BOTH_CLOSED + TWO_MORE);
            "t" in bank.transfers && Outstanding(bank.transfers["t"]) == 50
  {
    hide Run, After, Outstanding;
    PaymentStarts();
    var marked := Run(NEW_BANK, PAYMENT);
    Closing(MARKED, 50, 0, true);
    Closing(MARKED, 50, 0, false);
    RunTwo(marked, Rule("a", false), Rule("b", false));
    RunBoth(NEW_BANK, PAYMENT, BOTH_CLOSED);
    var closed := Run(NEW_BANK, PAYMENT + BOTH_CLOSED);
    assert closed == Bank(Accounts(50, 0, false, false), map["t" := MARKED]);
    RunBoth(NEW_BANK, PAYMENT + BOTH_CLOSED, TWO_MORE);
    RunTwo(closed, Dispatch("t"), Dispatch("t"));
    assert Known(MARKED) by { assert Paying(MARKED); }
    RefusedRefundStrands(closed, "t");
  }
}
