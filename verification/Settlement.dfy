// The Settlement process manager: transfers of money between accounts, each moved by a saga whose
// legs dispatch commands one at a time, while accounts and other transfers change around it.
module Settlement {
  import opened Wrappers
  import opened Sums

  const INT64_MAX: int := 0x7FFF_FFFF_FFFF_FFFF

  // `standing` is whether the account's customer is active, and `active` the account's own copy of it.
  datatype Account = Account(balance: int, dailyLimit: int, open: bool, active: bool, standing: bool)

  datatype Status = Requested | Debited | Credited | Settled | Reversed

  // The copies a transfer holds of its accounts, as of its last save or sweep.
  datatype View = View(sourceOpen: bool, sourceActive: bool, destinationOpen: bool, destinationActive: bool)

  // What a leg dispatches. `Compensate` drains the compensation ledger, newest first.
  datatype Errand = Debit | MarkDebited | Credit | MarkCredited | Settle | MarkReversed | Compensate

  datatype Trigger = TransferRequested | AccountDebited | AccountCredited | TransferCredited | Refusal

  datatype Stage = AtRequested | AwaitingCredit | AtSettled | AtReversed

  datatype Handler = Handler(trigger: Trigger, from: Stage, to: Stage, dispatches: seq<Errand>)

  // A compensation with its arguments already resolved.
  datatype Refund = Refund(account: string, amount: int)

  // What one dispatch came to.
  datatype Did = Did(errand: Errand, delivered: bool)

  // `stage` is the saga instance's state, missing once the saga has ended.
  datatype Transfer = Transfer(
    source: string,
    destination: string,
    amount: int,
    status: Status,
    view: View,
    stage: Option<Stage>,
    refunds: seq<Refund>,
    pending: seq<Errand>,
    history: seq<Did>)

  datatype Bank = Bank(accounts: map<string, Account>, transfers: map<string, Transfer>)

  const SETTLEMENT := [
    Handler(TransferRequested, AtRequested, AtRequested, [Debit]),
    Handler(AccountDebited, AtRequested, AwaitingCredit, [MarkDebited, Credit]),
    Handler(AccountCredited, AwaitingCredit, AwaitingCredit, [MarkCredited]),
    Handler(TransferCredited, AwaitingCredit, AtSettled, [Settle]),
    Handler(Refusal, AwaitingCredit, AtReversed, [MarkReversed])
  ]

  function HandlerFor(handlers: seq<Handler>, trigger: Trigger, stage: Stage): Option<Handler> {
    if handlers == [] then None
    else if handlers[0].trigger == trigger && handlers[0].from == stage then Some(handlers[0])
    else HandlerFor(handlers[1..], trigger, stage)
  }

  // ----- One dispatch -----

  predicate Creditable(accounts: map<string, Account>, number: string, amount: int) {
    && number in accounts
    && accounts[number].open && accounts[number].active
    && accounts[number].balance + amount <= INT64_MAX
  }

  predicate Debitable(accounts: map<string, Account>, number: string, amount: int) {
    && number in accounts
    && accounts[number].open && accounts[number].active
    && accounts[number].balance >= amount && accounts[number].dailyLimit >= amount
  }

  // Whether a dispatch commits; else it is refused, or crashes past its retries, which unwinds alike.
  predicate Accepts(bank: Bank, t: Transfer, errand: Errand) {
    match errand
    case Debit => Debitable(bank.accounts, t.source, t.amount)
    case Credit => Creditable(bank.accounts, t.destination, t.amount)
    case Compensate =>
      t.refunds != [] && Creditable(bank.accounts, t.refunds[|t.refunds| - 1].account,
          t.refunds[|t.refunds| - 1].amount)
    case MarkDebited => t.status.Requested? && t.view.sourceOpen && t.view.sourceActive
    case MarkCredited => t.status.Debited? && t.view.destinationOpen && t.view.destinationActive
    case Settle => t.status.Credited? && t.view.destinationOpen && t.view.destinationActive
    case MarkReversed => t.status.Debited? && t.view.sourceOpen && t.view.sourceActive
  }

  // Every save of an account takes its copy of the customer's standing anew.
  function Post(accounts: map<string, Account>, number: string, cents: int): map<string, Account>
    requires number in accounts
  {
    var a := accounts[number];
    accounts[number := a.(balance := a.balance + cents, active := a.standing)]
  }

  // The accounts after a committed dispatch.
  function Posted(bank: Bank, t: Transfer, errand: Errand): map<string, Account>
    requires Accepts(bank, t, errand)
  {
    match errand
    case Debit => Post(bank.accounts, t.source, -t.amount)
    case Credit => Post(bank.accounts, t.destination, t.amount)
    case Compensate => Post(bank.accounts, t.refunds[|t.refunds| - 1].account, t.refunds[|t.refunds| - 1].amount)
    case _ => bank.accounts
  }

  function Marked(t: Transfer, errand: Errand): Status {
    match errand
    case MarkDebited => Debited
    case MarkCredited => Credited
    case Settle => Settled
    case MarkReversed => Reversed
    case _ => t.status
  }

  // ----- The saga -----

  // Takes the leg that answers `trigger` from the saga's stage, if there is one. A leg's dispatches
  // run before whatever was still to run; a refusal first drains the compensations.
  function React(t: Transfer, trigger: Trigger): Transfer {
    if t.stage.None? then t
    else match HandlerFor(SETTLEMENT, trigger, t.stage.value)
         case None => t
         case Some(h) =>
           var drain := if trigger.Refusal? && t.refunds != [] then [Compensate] else [];
           t.(stage := Some(h.to), pending := drain + h.dispatches + t.pending)
  }

  // The transfer once `errand` has been taken off its pending work.
  function Begun(t: Transfer, errand: Errand): Transfer
    requires t.pending != []
  {
    if errand.Compensate? && t.refunds != [] then
      var left := t.refunds[..|t.refunds| - 1];
      t.(refunds := left, pending := if left == [] then t.pending[1..] else t.pending)
    else t.(pending := t.pending[1..])
  }

  // The event a committed dispatch emits, as this saga hears it.
  function Heard(t: Transfer, errand: Errand): Transfer {
    match errand
    case Debit => React(t.(refunds := t.refunds + [Refund(t.source, t.amount)]), AccountDebited)
    case Credit => React(t, AccountCredited)
    case Compensate => React(t, AccountCredited)
    case MarkCredited => React(t, TransferCredited)
    case Settle => t.(stage := None)
    case _ => t
  }

  // A refused compensation does not unwind.
  function Declined(t: Transfer, errand: Errand): Transfer {
    if errand.Compensate? then t else React(t, Refusal)
  }

  function Advanced(t: Transfer, errand: Errand, delivered: bool): Transfer
    requires t.pending != []
  {
    var begun := Begun(t, errand).(history := t.history + [Did(errand, delivered)]);
    if delivered then Heard(begun.(status := Marked(t, errand)), errand) else Declined(begun, errand)
  }

  function Seen(accounts: map<string, Account>, source: string, destination: string): View {
    View(source in accounts && accounts[source].open, source in accounts && accounts[source].active,
         destination in accounts && accounts[destination].open, destination in accounts && accounts[destination].active)
  }

  // The commands that act on the transfer itself, and so save it.
  predicate Marks(errand: Errand) { !errand.Debit? && !errand.Credit? && !errand.Compensate? }

  // A mark that commits saves the transfer, and every save takes its copies anew.
  function Saved(accounts: map<string, Account>, t: Transfer, errand: Errand): Transfer {
    if Marks(errand) then t.(view := Seen(accounts, t.source, t.destination)) else t
  }

  // The transfer once its next dispatch has been answered.
  function Answered(bank: Bank, t: Transfer): Transfer
    requires t.pending != []
  {
    var errand := t.pending[0];
    if Accepts(bank, t, errand) then Saved(bank.accounts, Advanced(t, errand, true), errand)
        else Advanced(t, errand, false)
  }

  // The next dispatch of one transfer's saga, and what it sets off.
  function Deliver(bank: Bank, ref: string): Bank
    requires ref in bank.transfers && bank.transfers[ref].pending != []
  {
    var t := bank.transfers[ref];
    Bank(if Accepts(bank, t, t.pending[0]) then Posted(bank, t, t.pending[0]) else bank.accounts,
         bank.transfers[ref := Answered(bank, t)])
  }

  // A request, refused unless its givens hold; a reference is used once.
  function Requesting(bank: Bank, ref: string, source: string, destination: string, amount: int,
      customerActive: bool): Bank {
    if ref in bank.transfers || amount <= 0 || source == destination
       || source !in bank.accounts || !bank.accounts[source].open || !customerActive
    then bank
    else
      var t := Transfer(source, destination, amount, Requested, Seen(bank.accounts, source, destination),
                        Some(AtRequested), [], [], []);
      bank.(transfers := bank.transfers[ref := React(t, TransferRequested)])
  }

  // ----- Runs -----

  // Everything that happens, in any order: requests, saga dispatches, sweeps of the copies a transfer or
  // an account holds, and whatever else is done to accounts and their customers.
  datatype Step =
    | Request(ref: string, source: string, destination: string, amount: int, customerActive: bool)
    | Dispatch(ref: string)
    | Sweep(ref: string)
    | Rule(number: string, open: bool)
    | Customer(number: string, standing: bool)
    | Refresh(number: string)
    | Teller(number: string, cents: int)

  predicate TellerMay(bank: Bank, number: string, cents: int) {
    && number in bank.accounts && bank.accounts[number].open && bank.accounts[number].active
    && 0 <= bank.accounts[number].balance + cents <= INT64_MAX
  }

  function After(bank: Bank, step: Step): Bank {
    match step
    case Request(ref, source, destination, amount, customerActive) =>
      Requesting(bank, ref, source, destination, amount, customerActive)
    case Dispatch(ref) =>
      if ref in bank.transfers && bank.transfers[ref].pending != [] then Deliver(bank, ref) else bank
    case Sweep(ref) =>
      if ref in bank.transfers then
        var t := bank.transfers[ref];
        bank.(transfers := bank.transfers[ref := t.(view := Seen(bank.accounts, t.source, t.destination))])
      else bank
    case Rule(number, open) =>
      if number in bank.accounts then
        var a := bank.accounts[number];
        bank.(accounts := bank.accounts[number := a.(open := open, active := a.standing)])
      else bank
    case Customer(number, standing) =>
      if number in bank.accounts then
        bank.(accounts := bank.accounts[number := bank.accounts[number].(standing := standing)])
      else bank
    case Refresh(number) =>
      if number in bank.accounts then
        bank.(accounts := bank.accounts[number := bank.accounts[number].(active := bank.accounts[number].standing)])
      else bank
    case Teller(number, cents) =>
      if TellerMay(bank, number, cents) then bank.(accounts := Post(bank.accounts, number, cents)) else bank
  }

  function Run(bank: Bank, steps: seq<Step>): Bank
    decreases |steps|
  {
    if steps == [] then bank else Run(After(bank, steps[0]), steps[1..])
  }

  // What tellers paid in, less what they paid out, over a run.
  function PaidIn(bank: Bank, steps: seq<Step>): int
    decreases |steps|
  {
    if steps == [] then 0
    else (if steps[0].Teller? && TellerMay(bank, steps[0].number, steps[0].cents) then steps[0].cents else 0)
         + PaidIn(After(bank, steps[0]), steps[1..])
  }

  // ----- Where the money is -----

  function Yes(errand: Errand): Did { Did(errand, true) }
  function No(errand: Errand): Did { Did(errand, false) }

  function Times(history: seq<Did>, errand: Errand): int {
    multiset(history)[Yes(errand)]
  }

  function NetOut(history: seq<Did>): int {
    Times(history, Debit) - Times(history, Credit) - Times(history, Compensate)
  }

  // What left the source and has reached neither account: negative when more arrived than left.
  function Outstanding(t: Transfer): int {
    t.amount * NetOut(t.history)
  }

  function Balances(accounts: map<string, Account>): map<string, int> {
    map number | number in accounts :: accounts[number].balance
  }

  function Transit(bank: Bank): map<string, int> {
    map ref | ref in bank.transfers :: Outstanding(bank.transfers[ref])
  }

  ghost function Money(bank: Bank): int {
    Sum(Balances(bank.accounts)) + Sum(Transit(bank))
  }

  // ----- What a transfer's history can be -----

  // Where a saga stands: its transfer's status, its stage, whether a refund is owed, what is next.
  predicate Stands(t: Transfer, status: Status, stage: Option<Stage>, owes: bool, pending: seq<Errand>) {
    && t.status == status && t.stage == stage && t.pending == pending
    && t.refunds == (if owes then [Refund(t.source, t.amount)] else [])
  }

  predicate Starting(t: Transfer) {
    || (t.history == [] && Stands(t, Requested, Some(AtRequested), false, [Debit]))
    || (t.history == [No(Debit)] && Stands(t, Requested, Some(AtRequested), false, []))
    || (t.history == [Yes(Debit)] && Stands(t, Requested, Some(AwaitingCredit), true, [MarkDebited, Credit]))
  }

  // The debit could not be recorded on the transfer: refunded, and credited all the same.
  predicate Unrecorded(t: Transfer) {
    && 2 <= |t.history| <= 5 && t.history[..2] == [Yes(Debit), No(MarkDebited)]
    && (match |t.history|
        case 2 => Stands(t, Requested, Some(AtReversed), true, [Compensate, MarkReversed, Credit])
        case 3 => t.history[2].errand == Compensate
            && Stands(t, Requested, Some(AtReversed), false, [MarkReversed, Credit])
        case 4 => t.history[2].errand == Compensate && t.history[3] == No(MarkReversed)
                  && Stands(t, Requested, Some(AtReversed), false, [Credit])
        case _ => t.history[2].errand == Compensate && t.history[3] == No(MarkReversed) && t.history[4].errand == Credit
                  && Stands(t, Requested, Some(AtReversed), false, []))
  }

  const PAID := [Yes(Debit), Yes(MarkDebited), Yes(Credit)]

  predicate Paying(t: Transfer) {
    || (t.history == [Yes(Debit), Yes(MarkDebited)] && Stands(t, Debited, Some(AwaitingCredit), true, [Credit]))
    || (t.history == PAID && Stands(t, Debited, Some(AwaitingCredit), true, [MarkCredited]))
    || (t.history == PAID + [Yes(MarkCredited)] && Stands(t, Credited, Some(AtSettled), true, [Settle]))
    || (t.history == PAID + [Yes(MarkCredited), Yes(Settle)] && Stands(t, Settled, None, true, []))
    || (t.history == PAID + [Yes(MarkCredited), No(Settle)] && Stands(t, Credited, Some(AtSettled), true, []))
  }

  // Unwinding after `before`, the history up to the refusal.
  predicate Unwinding(t: Transfer, before: seq<Did>) {
    && |before| <= |t.history| <= |before| + 2 && t.history[..|before|] == before
    && (match |t.history| - |before|
        case 0 => Stands(t, Debited, Some(AtReversed), true, [Compensate, MarkReversed])
        case 1 => t.history[|before|].errand == Compensate
            && Stands(t, Debited, Some(AtReversed), false, [MarkReversed])
        case _ => t.history[|before|].errand == Compensate && t.history[|before| + 1].errand == MarkReversed
                  && Stands(t, if t.history[|before| + 1].delivered then Reversed else Debited,
                            Some(AtReversed), false, []))
  }

  const UNPAID := [Yes(Debit), Yes(MarkDebited), No(Credit)]
  const UNMARKED := [Yes(Debit), Yes(MarkDebited), Yes(Credit), No(MarkCredited)]

  predicate Known(t: Transfer) {
    && t.amount > 0 && t.source != t.destination
    && (Starting(t) || Unrecorded(t) || Paying(t) || Unwinding(t, UNPAID) || Unwinding(t, UNMARKED))
  }

  ghost predicate Solvent(accounts: map<string, Account>) {
    forall number :: number in accounts ==> 0 <= accounts[number].balance <= INT64_MAX
  }

  ghost predicate Sound(bank: Bank) {
    && (forall ref :: ref in bank.transfers ==> Known(bank.transfers[ref]))
    && Solvent(bank.accounts)
  }

  // ----- Every step keeps it -----

  lemma Legs(t: Transfer, trigger: Trigger)
    requires t.stage.Some?
    ensures HandlerFor(SETTLEMENT, trigger, t.stage.value) ==
            match (trigger, t.stage.value)
            case (TransferRequested, AtRequested) => Some(SETTLEMENT[0])
            case (AccountDebited, AtRequested) => Some(SETTLEMENT[1])
            case (AccountCredited, AwaitingCredit) => Some(SETTLEMENT[2])
            case (TransferCredited, AwaitingCredit) => Some(SETTLEMENT[3])
            case (Refusal, AwaitingCredit) => Some(SETTLEMENT[4])
            case _ => None
  {
    var s := t.stage.value;
    assert SETTLEMENT[1..][1..][1..][1..][1..] == [];
    assert HandlerFor(SETTLEMENT[1..][1..][1..][1..], trigger, s)
        == if trigger.Refusal? && s.AwaitingCredit? then Some(SETTLEMENT[4]) else None;
    assert HandlerFor(SETTLEMENT[1..][1..], trigger, s)
        == if SETTLEMENT[2].trigger == trigger && SETTLEMENT[2].from == s then Some(SETTLEMENT[2])
           else HandlerFor(SETTLEMENT[1..][1..][1..], trigger, s);
  }

  lemma DebitMoves(t: Transfer, delivered: bool)
    requires t.history == [] && Stands(t, Requested, Some(AtRequested), false, [Debit])
    ensures Starting(Advanced(t, Debit, delivered))
  {
    Legs(t, AccountDebited);
    Legs(t, Refusal);
    assert Advanced(t, Debit, delivered).history == [Did(Debit, delivered)];
  }

  lemma MarkDebitedMoves(t: Transfer, delivered: bool)
    requires t.history == [Yes(Debit)] && Stands(t, Requested, Some(AwaitingCredit), true, [MarkDebited, Credit])
    ensures var next := Advanced(t, MarkDebited, delivered); if delivered then Paying(next) else Unrecorded(next)
  {
    Legs(t, Refusal);
    assert Advanced(t, MarkDebited, delivered).history == [Yes(Debit), Did(MarkDebited, delivered)];
  }

  lemma StartingMoves(t: Transfer, delivered: bool)
    requires t.amount > 0 && t.source != t.destination && Starting(t) && t.pending != []
    ensures Known(Advanced(t, t.pending[0], delivered))
  {
    HistoryGrows(t, t.pending[0], delivered);
    hide Advanced, Unrecorded, Paying, Unwinding;
    if t.history == [] {
      DebitMoves(t, delivered);
    } else {
      MarkDebitedMoves(t, delivered);
    }
  }

  lemma UnrecordedMoves(t: Transfer, delivered: bool)
    requires t.amount > 0 && t.source != t.destination && Unrecorded(t) && t.pending != []
    requires delivered && t.pending[0].MarkReversed? ==> t.status.Debited?
    ensures Unrecorded(Advanced(t, t.pending[0], delivered))
  {
    Legs(t, AccountCredited);
    Legs(t, Refusal);
    var next := Advanced(t, t.pending[0], delivered);
    HistoryGrows(t, t.pending[0], delivered);
    assert next.history[..2] == t.history[..2];
  }

  lemma CreditMoves(t: Transfer, delivered: bool)
    requires t.amount > 0 && t.source != t.destination && t.history == [Yes(Debit), Yes(MarkDebited)]
    requires Stands(t, Debited, Some(AwaitingCredit), true, [Credit])
    ensures Known(Advanced(t, Credit, delivered))
  {
    Legs(t, AccountCredited);
    Legs(t, Refusal);
    assert Advanced(t, Credit, delivered).history == t.history + [Did(Credit, delivered)];
  }

  lemma MarkCreditedMoves(t: Transfer, delivered: bool)
    requires t.amount > 0 && t.source != t.destination && t.history == PAID
             && Stands(t, Debited, Some(AwaitingCredit), true, [MarkCredited])
    ensures Known(Advanced(t, MarkCredited, delivered))
  {
    hide Starting, Unrecorded;
    Legs(t, TransferCredited);
    Legs(t, Refusal);
    assert Advanced(t, MarkCredited, delivered).history == t.history + [Did(MarkCredited, delivered)];
  }

  lemma SettleMoves(t: Transfer, delivered: bool)
    requires t.amount > 0 && t.source != t.destination && t.history == PAID + [Yes(MarkCredited)]
    requires Stands(t, Credited, Some(AtSettled), true, [Settle])
    ensures Known(Advanced(t, Settle, delivered))
  {
    Legs(t, Refusal);
    assert Advanced(t, Settle, delivered).history == t.history + [Did(Settle, delivered)];
  }

  lemma PayingMoves(t: Transfer, delivered: bool)
    requires t.amount > 0 && t.source != t.destination && Paying(t) && t.pending != []
    ensures Known(Advanced(t, t.pending[0], delivered))
  {
    hide Advanced, Known;
    if t.history == PAID {
      MarkCreditedMoves(t, delivered);
    } else if t.history == PAID + [Yes(MarkCredited)] {
      SettleMoves(t, delivered);
    } else {
      assert t.history == [Yes(Debit), Yes(MarkDebited)];
      CreditMoves(t, delivered);
    }
  }

  lemma UnwindingMoves(t: Transfer, before: seq<Did>, delivered: bool)
    requires Unwinding(t, before) && t.pending != []
    ensures Unwinding(Advanced(t, t.pending[0], delivered), before)
  {
    Legs(t, AccountCredited);
    Legs(t, Refusal);
    var next := Advanced(t, t.pending[0], delivered);
    assert next.history == t.history + [Did(t.pending[0], delivered)];
    assert next.history[..|before|] == t.history[..|before|];
  }

  lemma KnownMoves(bank: Bank, t: Transfer)
    requires Known(t) && t.pending != []
    ensures Known(Advanced(t, t.pending[0], Accepts(bank, t, t.pending[0])))
  {
    var delivered := Accepts(bank, t, t.pending[0]);
    if Starting(t) {
      StartingMoves(t, delivered);
    } else if Unrecorded(t) {
      UnrecordedMoves(t, delivered);
    } else if Paying(t) {
      PayingMoves(t, delivered);
    } else if Unwinding(t, UNPAID) {
      UnwindingMoves(t, UNPAID, delivered);
    } else {
      UnwindingMoves(t, UNMARKED, delivered);
    }
  }

  // ----- Conservation -----

  lemma Posts(accounts: map<string, Account>, number: string, cents: int)
    requires number in accounts
    ensures Sum(Balances(Post(accounts, number, cents))) == Sum(Balances(accounts)) + cents
  {
    SumPut(Balances(accounts), number, accounts[number].balance + cents);
    assert Balances(Post(accounts, number, cents)) == Balances(accounts)[number := accounts[number].balance + cents];
  }

  // What a committed dispatch adds to the accounts.
  function Adds(t: Transfer, errand: Errand): int {
    match errand
    case Debit => -t.amount
    case Credit => t.amount
    case Compensate => t.amount
    case _ => 0
  }

  lemma OneRefundOwed(t: Transfer)
    requires Known(t) && t.pending != [] && t.pending[0].Compensate?
    ensures t.refunds == [Refund(t.source, t.amount)]
  {
  }

  lemma PostedAdds(bank: Bank, t: Transfer, errand: Errand)
    requires Known(t) && Solvent(bank.accounts) && t.pending != [] && errand == t.pending[0]
    requires Accepts(bank, t, errand)
    ensures Sum(Balances(Posted(bank, t, errand))) == Sum(Balances(bank.accounts)) + Adds(t, errand)
    ensures Solvent(Posted(bank, t, errand))
  {
    if errand.Compensate? {
      OneRefundOwed(t);
    }
    if errand.Debit? || errand.Compensate? {
      Posts(bank.accounts, t.source, Adds(t, errand));
    } else if errand.Credit? {
      Posts(bank.accounts, t.destination, t.amount);
    }
  }

  lemma NetOutGrows(history: seq<Did>, errand: Errand, delivered: bool)
    ensures NetOut(history + [Did(errand, delivered)]) == NetOut(history)
              + (if delivered then match errand case Debit => 1 case Credit => -1 case Compensate => -1 case _ => 0
                  else 0)
  {
    assert multiset(history + [Did(errand, delivered)]) == multiset(history) + multiset{Did(errand, delivered)};
  }

  // What a transfer was requested with, and the copies it holds.
  predicate Same(t: Transfer, was: Transfer) {
    t.amount == was.amount && t.source == was.source && t.destination == was.destination && t.view == was.view
  }

  lemma ReactKeeps(t: Transfer, trigger: Trigger)
    ensures React(t, trigger).history == t.history && Same(React(t, trigger), t)
  {
  }

  lemma HistoryGrows(t: Transfer, errand: Errand, delivered: bool)
    requires t.pending != []
    ensures var next := Advanced(t, errand, delivered);
            && next.history == t.history + [Did(errand, delivered)]
            && Same(next, t)
  {
    var begun := Begun(t, errand).(history := t.history + [Did(errand, delivered)]);
    ReactKeeps(begun, Refusal);
    var marked := begun.(status := Marked(t, errand));
    ReactKeeps(marked, AccountCredited);
    ReactKeeps(marked, TransferCredited);
    ReactKeeps(marked.(refunds := marked.refunds + [Refund(marked.source, marked.amount)]), AccountDebited);
  }

  // What an answer leaves of a transfer: its history one longer, its copies as it was saved with.
  lemma AnsweredGrows(bank: Bank, t: Transfer)
    requires t.pending != []
    ensures var errand, next := t.pending[0], Answered(bank, t); var accepted := Accepts(bank, t, errand);
            && next.history == t.history + [Did(errand, accepted)]
            && Same(next.(view := t.view), t)
            && next.view == (if accepted && Marks(errand) then Seen(bank.accounts, t.source, t.destination) else t.view)
            && Outstanding(next) == Outstanding(t) - if accepted then Adds(t, errand) else 0
  {
    hide Advanced, Accepts;
    var accepted := Accepts(bank, t, t.pending[0]);
    HistoryGrows(t, t.pending[0], accepted);
    OutstandingMoves(t, t.pending[0], accepted);
  }

  lemma OutstandingMoves(t: Transfer, errand: Errand, delivered: bool)
    requires t.pending != []
    ensures Outstanding(Advanced(t, errand, delivered)) == Outstanding(t) - if delivered then Adds(t, errand) else 0
  {
    HistoryGrows(t, errand, delivered);
    NetOutGrows(t.history, errand, delivered);
    var before := NetOut(t.history);
    assert t.amount * (before + 1) == t.amount * before + t.amount;
    assert t.amount * (before - 1) == t.amount * before - t.amount;
  }

  lemma TransitPut(bank: Bank, ref: string, t: Transfer)
    ensures Sum(Transit(bank.(transfers := bank.transfers[ref := t])))
         == Sum(Transit(bank)) - (if ref in bank.transfers then Outstanding(bank.transfers[ref]) else 0)
             + Outstanding(t)
  {
    SumPut(Transit(bank), ref, Outstanding(t));
    assert Transit(bank.(transfers := bank.transfers[ref := t])) == Transit(bank)[ref := Outstanding(t)];
  }

  lemma DeliverKeeps(bank: Bank, ref: string)
    requires Sound(bank) && ref in bank.transfers && bank.transfers[ref].pending != []
    ensures Sound(Deliver(bank, ref)) && Money(Deliver(bank, ref)) == Money(bank)
  {
    var t := bank.transfers[ref];
    var accepted := Accepts(bank, t, t.pending[0]);
    var moved, next := Advanced(t, t.pending[0], accepted), Answered(bank, t);
    KnownMoves(bank, t);
    SweptKnown(moved, next.view);
    AnsweredGrows(bank, t);
    if accepted {
      PostedAdds(bank, t, t.pending[0]);
    }
    Replaced(bank, if accepted then Posted(bank, t, t.pending[0]) else bank.accounts, ref, next);
  }

  lemma Replaced(bank: Bank, accounts: map<string, Account>, ref: string, next: Transfer)
    requires Sound(bank) && Known(next) && Solvent(accounts)
    ensures var after := Bank(accounts, bank.transfers[ref := next]);
            && Sound(after)
            && Money(after) == Sum(Balances(accounts)) + Sum(Transit(bank))
                               - (if ref in bank.transfers then Outstanding(bank.transfers[ref]) else 0)
                                   + Outstanding(next)
  {
    TransitPut(bank, ref, next);
    assert Transit(Bank(accounts, bank.transfers[ref := next]))
        == Transit(bank.(transfers := bank.transfers[ref := next]));
  }

  lemma RequestKeeps(bank: Bank, step: Step)
    requires Sound(bank) && step.Request?
    ensures Sound(After(bank, step)) && Money(After(bank, step)) == Money(bank)
  {
    var after := After(bank, step);
    if after != bank {
      FreshIsKnown(Transfer(step.source, step.destination, step.amount, Requested,
                            Seen(bank.accounts, step.source, step.destination), Some(AtRequested), [], [], []));
      Replaced(bank, bank.accounts, step.ref, after.transfers[step.ref]);
    }
  }

  lemma FreshIsKnown(t: Transfer)
    requires t.amount > 0 && t.history == [] && t.status == Requested && t.refunds == []
    requires t.pending == [] && t.stage == Some(AtRequested) && t.source != t.destination
    ensures Known(React(t, TransferRequested)) && Outstanding(React(t, TransferRequested)) == 0
  {
    Legs(t, TransferRequested);
    ReactKeeps(t, TransferRequested);
    assert React(t, TransferRequested).pending == [Debit];
  }

  lemma SweepKeeps(bank: Bank, step: Step)
    requires Sound(bank) && step.Sweep?
    ensures Sound(After(bank, step)) && Money(After(bank, step)) == Money(bank)
  {
    if step.ref in bank.transfers {
      var t := bank.transfers[step.ref];
      SweptKnown(t, Seen(bank.accounts, t.source, t.destination));
      Replaced(bank, bank.accounts, step.ref, After(bank, step).transfers[step.ref]);
    }
  }

  lemma SweptKnown(t: Transfer, view: View)
    requires Known(t)
    ensures Known(t.(view := view)) && Outstanding(t.(view := view)) == Outstanding(t)
  {
  }

  lemma AccountsKeep(bank: Bank, step: Step)
    requires Sound(bank) && (step.Rule? || step.Customer? || step.Refresh? || step.Teller?)
    ensures Sound(After(bank, step))
    ensures Money(After(bank, step)) == Money(bank) + PaidIn(bank, [step])
  {
    assert PaidIn(After(bank, step), []) == 0;
    var after := After(bank, step);
    assert Transit(after) == Transit(bank);
    if !step.Teller? {
      assert Balances(after.accounts) == Balances(bank.accounts);
    } else if TellerMay(bank, step.number, step.cents) {
      Posts(bank.accounts, step.number, step.cents);
    }
  }

  lemma StepKeeps(bank: Bank, step: Step)
    requires Sound(bank)
    ensures Sound(After(bank, step))
    ensures Money(After(bank, step)) == Money(bank) + PaidIn(bank, [step])
  {
    assert PaidIn(After(bank, step), []) == 0;
    match step {
      case Request(_, _, _, _, _) => RequestKeeps(bank, step);
      case Sweep(_) => SweepKeeps(bank, step);
      case Rule(_, _) => AccountsKeep(bank, step);
      case Customer(_, _) => AccountsKeep(bank, step);
      case Refresh(_) => AccountsKeep(bank, step);
      case Teller(_, _) => AccountsKeep(bank, step);
      case Dispatch(ref) =>
        if ref in bank.transfers && bank.transfers[ref].pending != [] {
          DeliverKeeps(bank, ref);
        }
    }
  }

  // In every interleaving, what the accounts hold plus what is outstanding changes only by what
  // tellers pay in or out, no balance goes negative or past 64 bits, and every saga's transfer,
  // stage, compensation ledger and pending work are those its own history leaves.
  lemma {:induction false} MoneyIsConserved(bank: Bank, steps: seq<Step>)
    requires Sound(bank)
    ensures Sound(Run(bank, steps))
    ensures Money(Run(bank, steps)) == Money(bank) + PaidIn(bank, steps)
    decreases |steps|
  {
    if steps != [] {
      var step := steps[0];
      StepKeeps(bank, step);
      MoneyIsConserved(After(bank, step), steps[1..]);
    }
  }

  // ----- How a transfer ends -----

  // What the outside answered each dispatch, were it made.
  datatype Answers = Answers(
    debit: bool, markDebited: bool, credit: bool, markCredited: bool, settle: bool, refund: bool, markReversed: bool)

  // A settlement told from its answers alone.
  function Story(a: Answers): seq<Did> {
    if !a.debit then [No(Debit)]
    else if !a.markDebited then
      [Yes(Debit), No(MarkDebited), Did(Compensate, a.refund), No(MarkReversed), Did(Credit, a.credit)]
    else if !a.credit then
      [Yes(Debit), Yes(MarkDebited), No(Credit), Did(Compensate, a.refund), Did(MarkReversed, a.markReversed)]
    else if !a.markCredited then
      [Yes(Debit), Yes(MarkDebited), Yes(Credit), No(MarkCredited), Did(Compensate, a.refund),
          Did(MarkReversed, a.markReversed)]
    else [Yes(Debit), Yes(MarkDebited), Yes(Credit), Yes(MarkCredited), Did(Settle, a.settle)]
  }

  predicate AtRest(t: Transfer) { t.pending == [] }

  // However it was interleaved, a transfer's history is one of the stories so far, and it is at rest
  // exactly when the story is over.
  lemma LivesAStory(t: Transfer) returns (a: Answers)
    requires Known(t)
    ensures t.history <= Story(a)
    ensures AtRest(t) <==> t.history == Story(a)
  {
    if Starting(t) {
      a := Answers(t.history != [No(Debit)], true, false, true, true, true, false);
    } else {
      hide Story;
      if Unrecorded(t) {
        a := LivesUnrecorded(t);
      } else if Paying(t) {
        a := LivesPaying(t);
      } else if Unwinding(t, UNPAID) {
        a := LivesUnpaid(t);
      } else {
        a := LivesUnmarked(t);
      }
    }
  }

  lemma LivesUnrecorded(t: Transfer) returns (a: Answers)
    requires Unrecorded(t)
    ensures t.history <= Story(a) && (AtRest(t) <==> t.history == Story(a))
  {
    var h := t.history;
    a := Answers(true, false, |h| < 5 || h[4].delivered, true, true, |h| < 3 || h[2].delivered, false);
    assert h == h[..2] + h[2..];
  }

  lemma LivesPaying(t: Transfer) returns (a: Answers)
    requires Paying(t)
    ensures t.history <= Story(a) && (AtRest(t) <==> t.history == Story(a))
  {
    var h := t.history;
    a := Answers(true, true, true, true, |h| < 5 || h[4].delivered, true, false);
  }

  lemma LivesUnpaid(t: Transfer) returns (a: Answers)
    requires Unwinding(t, UNPAID)
    ensures t.history <= Story(a) && (AtRest(t) <==> t.history == Story(a))
  {
    var h := t.history;
    a := Answers(true, true, false, true, true, |h| < 4 || h[3].delivered, |h| < 5 || h[4].delivered);
    assert h == h[..3] + h[3..];
  }

  lemma LivesUnmarked(t: Transfer) returns (a: Answers)
    requires Unwinding(t, UNMARKED)
    ensures t.history <= Story(a) && (AtRest(t) <==> t.history == Story(a))
  {
    var h := t.history;
    a := Answers(true, true, true, false, true, |h| < 5 || h[4].delivered, |h| < 6 || h[5].delivered);
    assert h == h[..4] + h[4..];
  }

  function Bit(b: bool): int { if b then 1 else 0 }

  lemma CountFive(a: Did, b: Did, c: Did, d: Did, e: Did, x: Did)
    ensures multiset([a, b, c, d, e])[x] == Bit(a == x) + Bit(b == x) + Bit(c == x) + Bit(d == x) + Bit(e == x)
  {
  }

  lemma CountSix(a: Did, b: Did, c: Did, d: Did, e: Did, f: Did, x: Did)
    ensures multiset([a, b, c, d, e, f])[x]
            == Bit(a == x) + Bit(b == x) + Bit(c == x) + Bit(d == x) + Bit(e == x) + Bit(f == x)
  {
    assert [a, b, c, d, e, f] == [a, b, c, d, e] + [f];
    CountFive(a, b, c, d, e, x);
  }

  lemma RefusedCount(a: Answers, x: Did)
    requires !a.debit
    ensures multiset(Story(a))[x] == Bit(No(Debit) == x)
  {
    assert multiset(Story(a)) == multiset{No(Debit)};
  }

  lemma UnrecordedCount(a: Answers, x: Did)
    requires a.debit && !a.markDebited
    ensures multiset(Story(a))[x]
            == Bit(Yes(Debit) == x) + Bit(No(MarkDebited) == x) + Bit(Did(Compensate, a.refund) == x)
                                     + Bit(No(MarkReversed) == x) + Bit(Did(Credit, a.credit) == x)
  {
    CountFive(Yes(Debit), No(MarkDebited), Did(Compensate, a.refund), No(MarkReversed), Did(Credit, a.credit), x);
  }

  lemma UnpaidCount(a: Answers, x: Did)
    requires a.debit && a.markDebited && !a.credit
    ensures multiset(Story(a))[x] == Bit(Yes(Debit) == x) + Bit(Yes(MarkDebited) == x) + Bit(No(Credit) == x)
                                     + Bit(Did(Compensate, a.refund) == x) + Bit(Did(MarkReversed, a.markReversed) == x)
  {
    CountFive(Yes(Debit), Yes(MarkDebited), No(Credit), Did(Compensate, a.refund), Did(MarkReversed, a.markReversed),
        x);
  }

  lemma UnmarkedCount(a: Answers, x: Did)
    requires a.debit && a.markDebited && a.credit && !a.markCredited
    ensures multiset(Story(a))[x] == Bit(Yes(Debit) == x) + Bit(Yes(MarkDebited) == x) + Bit(Yes(Credit) == x)
                                     + Bit(No(MarkCredited) == x) + Bit(Did(Compensate, a.refund) == x)
                                     + Bit(Did(MarkReversed, a.markReversed) == x)
  {
    CountSix(Yes(Debit), Yes(MarkDebited), Yes(Credit), No(MarkCredited), Did(Compensate, a.refund),
             Did(MarkReversed, a.markReversed), x);
  }

  lemma PaidCount(a: Answers, x: Did)
    requires a.debit && a.markDebited && a.credit && a.markCredited
    ensures multiset(Story(a))[x] == Bit(Yes(Debit) == x) + Bit(Yes(MarkDebited) == x) + Bit(Yes(Credit) == x)
                                     + Bit(Yes(MarkCredited) == x) + Bit(Did(Settle, a.settle) == x)
  {
    CountFive(Yes(Debit), Yes(MarkDebited), Yes(Credit), Yes(MarkCredited), Did(Settle, a.settle), x);
  }

  lemma StoryCounts(a: Answers, errand: Errand)
    requires errand.Debit? || errand.Credit? || errand.Compensate?
    ensures Times(Story(a), errand) ==
            match errand
            case Debit => Bit(a.debit)
            case Credit => Bit(a.debit && a.credit)
            case _ => Bit(a.debit && a.refund && !(a.markDebited && a.credit && a.markCredited))
  {
    hide Story;
    if !a.debit {
      RefusedCount(a, Yes(errand));
    } else if !a.markDebited {
      UnrecordedCount(a, Yes(errand));
    } else if !a.credit {
      UnpaidCount(a, Yes(errand));
    } else if !a.markCredited {
      UnmarkedCount(a, Yes(errand));
    } else {
      PaidCount(a, Yes(errand));
    }
  }

  function StoryNet(a: Answers): int {
    if !a.debit then 0
    else 1 - Bit(a.credit) - Bit(a.refund && !(a.markDebited && a.credit && a.markCredited))
  }

  lemma OutstandingTold(t: Transfer, a: Answers)
    requires t.history == Story(a)
    ensures Outstanding(t) == t.amount * StoryNet(a)
  {
    hide Story, Times;
    StoryCounts(a, Debit);
    StoryCounts(a, Credit);
    StoryCounts(a, Compensate);
    assert NetOut(t.history) == StoryNet(a);
  }

  // Where the money of a transfer at rest is, exactly. It is back or arrived unless the credit and
  // its refund were both declined (stranded), or both happened (paid twice). Both happen only
  // when a mark on the transfer is declined after the debit.
  lemma RestingPlace(t: Transfer)
    requires Known(t) && AtRest(t)
    ensures Outstanding(t) in {0, t.amount, -t.amount}
    ensures Outstanding(t) == t.amount <==> No(Credit) in t.history && No(Compensate) in t.history
    ensures Outstanding(t) == -t.amount <==> Yes(Credit) in t.history && Yes(Compensate) in t.history
    ensures Yes(Credit) in t.history && Yes(Compensate) in t.history ==>
              No(MarkDebited) in t.history || No(MarkCredited) in t.history
  {
    var a := LivesAStory(t);
    OutstandingTold(t, a);
    assert -1 <= StoryNet(a) <= 1;
    assert t.amount * 1 == t.amount && t.amount * -1 == -t.amount && t.amount * 0 == 0;
    StoryNets(a);
  }

  lemma StoryNets(a: Answers)
    ensures StoryNet(a) == 1 <==> No(Credit) in Story(a) && No(Compensate) in Story(a)
    ensures StoryNet(a) == -1 <==> Yes(Credit) in Story(a) && Yes(Compensate) in Story(a)
    ensures StoryNet(a) == -1 ==> No(MarkDebited) in Story(a) || No(MarkCredited) in Story(a)
  {
    var s := Story(a);
    if |s| == 5 {
      assert s == [s[0], s[1], s[2], s[3], s[4]];
    } else if |s| == 6 {
      assert s == [s[0], s[1], s[2], s[3], s[4], s[5]];
    }
  }

  // At any moment money left a source at most once and reached each end at most once, and neither
  // before it left; and six dispatches are all a transfer ever makes.
  lemma AtMostOnce(t: Transfer)
    requires Known(t)
    ensures 0 <= Times(t.history, Credit) <= Times(t.history, Debit) <= 1
    ensures 0 <= Times(t.history, Compensate) <= Times(t.history, Debit)
    ensures |t.history| <= 6 && (!AtRest(t) ==> |t.history| < 6)
  {
    var a := LivesAStory(t);
    StoryCounts(a, Debit);
    StoryCounts(a, Credit);
    StoryCounts(a, Compensate);
    PrefixCounts(t.history, Story(a), Yes(Debit));
    PrefixCounts(t.history, Story(a), Yes(Credit));
    PrefixCounts(t.history, Story(a), Yes(Compensate));
    if t.history == [] {
    } else if a.debit {
      assert t.history[0] == Yes(Debit) && Yes(Debit) in t.history;
      assert Yes(Debit) in multiset(t.history);
    }
  }

  lemma PrefixCounts(h: seq<Did>, s: seq<Did>, x: Did)
    requires h <= s
    ensures multiset(h)[x] <= multiset(s)[x]
  {
    assert s == h + s[|h|..];
  }

  // ----- Coming to rest -----

  function DispatchesOf(steps: seq<Step>, ref: string): nat {
    if steps == [] then 0 else (if steps[0] == Dispatch(ref) then 1 else 0) + DispatchesOf(steps[1..], ref)
  }

  // What one step does to one transfer.
  lemma StepOn(bank: Bank, step: Step, ref: string)
    requires ref in bank.transfers
    ensures ref in After(bank, step).transfers
    ensures var t, next := bank.transfers[ref], After(bank, step).transfers[ref];
            && (step == Dispatch(ref) && !AtRest(t) ==>
                  next == Answered(bank, t))
            && (step != Dispatch(ref) || AtRest(t) ==> next.history == t.history && next.pending == t.pending)
            && (step != Sweep(ref) && (step != Dispatch(ref) || AtRest(t)) ==> next == t)
            && (step == Sweep(ref) ==> next == t.(view := Seen(bank.accounts, t.source, t.destination)))
            && next.source == t.source && next.destination == t.destination
  {
    hide Accepts;
    if step == Dispatch(ref) && !AtRest(bank.transfers[ref]) {
      AnsweredGrows(bank, bank.transfers[ref]);
      hide Answered;
    }
  }

  // Whatever else happens in between, six dispatches bring any transfer to rest, for good.
  lemma {:induction false} SixDispatchesSettle(bank: Bank, steps: seq<Step>, ref: string)
    requires Sound(bank) && ref in bank.transfers
    requires DispatchesOf(steps, ref) >= 6 - |bank.transfers[ref].history| || AtRest(bank.transfers[ref])
    ensures ref in Run(bank, steps).transfers && AtRest(Run(bank, steps).transfers[ref])
    decreases |steps|
  {
    var t := bank.transfers[ref];
    AtMostOnce(t);
    if steps != [] {
      StepKeeps(bank, steps[0]);
      StepOn(bank, steps[0], ref);
      if steps[0] == Dispatch(ref) && !AtRest(t) {
        AnsweredGrows(bank, t);
      }
      SixDispatchesSettle(After(bank, steps[0]), steps[1..], ref);
    }
  }

  // ----- When the books are kept -----

  predicate CopiesOpen(view: View) {
    view.sourceOpen && view.sourceActive && view.destinationOpen && view.destinationActive
  }

  predicate MarksKept(t: Transfer) {
    No(MarkDebited) !in t.history && No(MarkCredited) !in t.history
  }

  // A mark is declined exactly when the transfer's copy of that account is not open and active; a
  // reversal also when the debit was never recorded.
  lemma MarksReadTheCopies(bank: Bank, t: Transfer)
    requires Known(t) && !AtRest(t)
    ensures t.pending[0].MarkDebited? ==>
              (Accepts(bank, t, MarkDebited) <==> t.view.sourceOpen && t.view.sourceActive)
    ensures t.pending[0].MarkCredited? ==>
              (Accepts(bank, t, MarkCredited) <==> t.view.destinationOpen && t.view.destinationActive)
    ensures t.pending[0].Settle? ==>
              (Accepts(bank, t, Settle) <==> t.view.destinationOpen && t.view.destinationActive)
    ensures t.pending[0].MarkReversed? ==>
              (Accepts(bank, t, MarkReversed) <==>
                  Yes(MarkDebited) in t.history && t.view.sourceOpen && t.view.sourceActive)
  {
    if t.pending[0].MarkReversed? {
      DebitedIsRecorded(t);
    }
  }

  lemma DebitedIsRecorded(t: Transfer)
    requires Known(t) && !AtRest(t) && t.pending[0].MarkReversed?
    ensures t.status.Debited? <==> Yes(MarkDebited) in t.history
  {
    if Unrecorded(t) {
      assert t.history == [t.history[0], t.history[1], t.history[2]];
      assert t.history[..2][1] == t.history[1];
    } else if Unwinding(t, UNPAID) {
      assert t.history[1] == t.history[..3][1] == UNPAID[1];
    } else {
      assert t.history[1] == t.history[..4][1] == UNMARKED[1];
    }
  }

  // Money moves out of, into and back to accounts that are there, open and whose copy of their customer is
  // active; out of one that holds it and lets it go in a day.
  lemma MovementsReadTheAccounts(bank: Bank, t: Transfer)
    requires Known(t) && !AtRest(t)
    ensures t.pending[0].Debit? ==>
              (Accepts(bank, t, Debit) <==>
                 && t.source in bank.accounts && bank.accounts[t.source].open && bank.accounts[t.source].active
                 && t.amount <= bank.accounts[t.source].balance && t.amount <= bank.accounts[t.source].dailyLimit)
    ensures t.pending[0].Credit? ==>
              (Accepts(bank, t, Credit) <==>
                 && t.destination in bank.accounts && bank.accounts[t.destination].open
                 && bank.accounts[t.destination].active
                 && bank.accounts[t.destination].balance + t.amount <= 0x7FFF_FFFF_FFFF_FFFF)
    ensures t.pending[0].Compensate? ==>
              (Accepts(bank, t, Compensate) <==>
                 && t.source in bank.accounts && bank.accounts[t.source].open && bank.accounts[t.source].active
                 && bank.accounts[t.source].balance + t.amount <= 0x7FFF_FFFF_FFFF_FFFF)
  {
    if t.pending[0].Compensate? {
      OneRefundOwed(t);
    }
  }

  // A request is taken exactly when its reference is new, its amount positive, its accounts two, its source
  // there and open and its customer active; a transfer begins with its debit next.
  lemma RequestsTaken(bank: Bank, ref: string, source: string, destination: string, amount: int, customerActive: bool)
    ensures var after := After(bank, Request(ref, source, destination, amount, customerActive));
            var taken := ref !in bank.transfers && amount > 0 && source != destination
                         && source in bank.accounts && bank.accounts[source].open && customerActive;
            && after.accounts == bank.accounts
            && (!taken ==> after == bank)
            && (taken ==> after.transfers == bank.transfers[ref := Transfer(source, destination, amount, Requested,
                  Seen(bank.accounts, source, destination), Some(AtRequested), [], [Debit], [])])
  {
    if ref !in bank.transfers && amount > 0 && source != destination && source in bank.accounts
        && bank.accounts[source].open && customerActive {
      var t := Transfer(source, destination, amount, Requested, Seen(bank.accounts, source, destination),
          Some(AtRequested), [], [], []);
      Legs(t, TransferRequested);
      assert [Debit] + [] == [Debit] && [] + [Debit] == [Debit];
    }
  }

  // What a transfer's save copies of its accounts, and what a teller and a customer's standing do to them.
  lemma AccountsAround(bank: Bank, number: string, other: string, cents: int, flag: bool)
    requires number in bank.accounts && other in bank.accounts
    ensures var a, b := bank.accounts[number], bank.accounts[other];
            && Seen(bank.accounts, number, other) == View(a.open, a.active, b.open, b.active)
            && (After(bank, Teller(number, cents)) != bank && cents != 0 ==>
                  After(bank, Teller(number, cents)).accounts
                  == bank.accounts[number := Account(a.balance + cents, a.dailyLimit, true, a.standing, a.standing)])
            && (cents != 0 ==>
                  (After(bank, Teller(number, cents)) != bank <==>
                      a.open && a.active && 0 <= a.balance + cents <= 0x7FFF_FFFF_FFFF_FFFF))
            && After(bank, Rule(number, flag)).accounts[number]
                == Account(a.balance, a.dailyLimit, flag, a.standing, a.standing)
            && After(bank, Customer(number, flag)).accounts[number]
                == Account(a.balance, a.dailyLimit, a.open, a.active, flag)
            && After(bank, Refresh(number)).accounts[number]
                == Account(a.balance, a.dailyLimit, a.open, a.standing, a.standing)
  {
    if TellerMay(bank, number, cents) && cents != 0 {
      assert After(bank, Teller(number, cents)).accounts[number].balance != bank.accounts[number].balance;
    }
  }

  // An unwinding saga gives back what is owed newest first, one refund a dispatch, whether the refund is
  // taken or declined, and is done with it when nothing is owed any more.
  lemma RefundsNewestFirst(bank: Bank, ref: string)
    requires ref in bank.transfers && bank.transfers[ref].pending != [] && bank.transfers[ref].pending[0] == Compensate
    requires bank.transfers[ref].refunds != [] && bank.transfers[ref].stage == Some(AtReversed)
    ensures var t, after := bank.transfers[ref], After(bank, Dispatch(ref));
            var n := |t.refunds| - 1;
            var (number, amount) := (t.refunds[n].account, t.refunds[n].amount);
            var taken := number in bank.accounts && bank.accounts[number].open && bank.accounts[number].active
                         && bank.accounts[number].balance + amount <= 0x7FFF_FFFF_FFFF_FFFF;
            && after.transfers[ref].refunds == t.refunds[..n]
            && after.transfers[ref].pending == (if n == 0 then t.pending[1..] else t.pending)
            && after.transfers[ref].stage == t.stage && after.transfers[ref].status == t.status
            && after.transfers[ref].history == t.history + [Did(Compensate, taken)]
            && (taken ==> number in after.accounts
                          && after.accounts[number].balance == bank.accounts[number].balance + amount)
            && (!taken ==> after.accounts == bank.accounts)
  {
  }

  // Whether a step has a transfer's copies taken anew.
  predicate Takes(bank: Bank, step: Step, ref: string)
    requires ref in bank.transfers
  {
    var t := bank.transfers[ref];
    step == Sweep(ref) || (step == Dispatch(ref) && !AtRest(t) && Marks(t.pending[0]) && Accepts(bank, t, t.pending[0]))
  }

  // Every time a run takes a transfer's copies anew, both accounts stand open and active.
  ghost predicate TakenOpen(bank: Bank, steps: seq<Step>, ref: string)
    requires ref in bank.transfers
    decreases |steps|
  {
    steps == []
    || (StepOn(bank, steps[0], ref);
        (Takes(bank, steps[0], ref) ==>
           CopiesOpen(Seen(bank.accounts, bank.transfers[ref].source, bank.transfers[ref].destination)))
        && TakenOpen(After(bank, steps[0]), steps[1..], ref))
  }

  // While its copies are taken of open and active accounts, a transfer is never both credited and refunded.
  lemma {:induction false} NeverBothWhileTakenOpen(bank: Bank, steps: seq<Step>, ref: string)
    requires Sound(bank) && ref in bank.transfers && TakenOpen(bank, steps, ref)
    requires CopiesOpen(bank.transfers[ref].view) && MarksKept(bank.transfers[ref])
    ensures ref in Run(bank, steps).transfers
    ensures var t := Run(bank, steps).transfers[ref];
            && MarksKept(t)
            && !(Yes(Credit) in t.history && Yes(Compensate) in t.history)
            && Outstanding(t) >= 0
            && (AtRest(t) && No(Compensate) !in t.history ==> Outstanding(t) == 0)
    decreases |steps|
  {
    var t := bank.transfers[ref];
    if steps == [] {
      KeptMarksNeverBoth(t);
    } else {
      StepKeeps(bank, steps[0]);
      StepOn(bank, steps[0], ref);
      MarksStayKept(bank, steps[0], ref);
      NeverBothWhileTakenOpen(After(bank, steps[0]), steps[1..], ref);
    }
  }

  lemma MarksStayKept(bank: Bank, step: Step, ref: string)
    requires Sound(bank) && ref in bank.transfers
    requires CopiesOpen(bank.transfers[ref].view) && MarksKept(bank.transfers[ref])
    requires Takes(bank, step, ref) ==>
               CopiesOpen(Seen(bank.accounts, bank.transfers[ref].source, bank.transfers[ref].destination))
    ensures ref in After(bank, step).transfers
    ensures var next := After(bank, step).transfers[ref]; CopiesOpen(next.view) && MarksKept(next)
  {
    var t := bank.transfers[ref];
    StepOn(bank, step, ref);
    if step == Dispatch(ref) && !AtRest(t) {
      hide Known, Answered;
      MarksReadTheCopies(bank, t);
      AnsweredGrows(bank, t);
    }
  }

  // An account that is open, holds its customer active, and whose customer is.
  predicate Upright(accounts: map<string, Account>, number: string) {
    number in accounts && accounts[number].open && accounts[number].active && accounts[number].standing
  }

  // Nothing a run does closes an account or suspends its customer.
  predicate LeftStanding(steps: seq<Step>, number: string) {
    Rule(number, false) !in steps && Customer(number, false) !in steps
  }

  lemma StillUpright(bank: Bank, step: Step, number: string)
    requires Upright(bank.accounts, number) && step != Rule(number, false) && step != Customer(number, false)
    ensures Upright(After(bank, step).accounts, number)
  {
  }

  lemma {:induction false} StandingIsTakenOpen(bank: Bank, steps: seq<Step>, ref: string)
    requires ref in bank.transfers
    requires var t := bank.transfers[ref];
             && Upright(bank.accounts, t.source) && Upright(bank.accounts, t.destination)
             && LeftStanding(steps, t.source) && LeftStanding(steps, t.destination)
    ensures TakenOpen(bank, steps, ref)
    decreases |steps|
  {
    if steps != [] {
      var t := bank.transfers[ref];
      assert steps[0] in steps && forall x :: x in steps[1..] ==> x in steps;
      StepOn(bank, steps[0], ref);
      StillUpright(bank, steps[0], t.source);
      StillUpright(bank, steps[0], t.destination);
      StandingIsTakenOpen(After(bank, steps[0]), steps[1..], ref);
    }
  }

  // So a transfer between two accounts that stand, of which no run closes either or suspends its
  // customer, never pays twice, and at rest has all its money in one place unless its refund was declined.
  lemma StandingAccountsArePaidOnce(bank: Bank, steps: seq<Step>, ref: string)
    requires Sound(bank) && ref in bank.transfers && CopiesOpen(bank.transfers[ref].view)
             && MarksKept(bank.transfers[ref])
    requires var t := bank.transfers[ref];
             && Upright(bank.accounts, t.source) && Upright(bank.accounts, t.destination)
             && LeftStanding(steps, t.source) && LeftStanding(steps, t.destination)
    ensures ref in Run(bank, steps).transfers
    ensures var t := Run(bank, steps).transfers[ref];
            && Outstanding(t) >= 0
            && (AtRest(t) && No(Compensate) !in t.history ==> Outstanding(t) == 0)
  {
    StandingIsTakenOpen(bank, steps, ref);
    NeverBothWhileTakenOpen(bank, steps, ref);
  }

  lemma KeptMarksNeverBoth(t: Transfer)
    requires Known(t) && MarksKept(t)
    ensures !(Yes(Credit) in t.history && Yes(Compensate) in t.history)
    ensures Outstanding(t) >= 0
    ensures AtRest(t) && No(Compensate) !in t.history ==> Outstanding(t) == 0
  {
    if Unrecorded(t) || Unwinding(t, UNMARKED) {
      BrokenMarks(t);
    }
    NeverBoth(t);
    AtMostOnce(t);
    NotTwice(t.history, Credit);
    NotTwice(t.history, Compensate);
    assert NetOut(t.history) >= 0;
    if AtRest(t) {
      RestingPlace(t);
    }
  }

  lemma NeverBoth(t: Transfer)
    requires Starting(t) || Paying(t) || Unwinding(t, UNPAID)
    ensures !(Yes(Credit) in t.history && Yes(Compensate) in t.history)
  {
    if Unwinding(t, UNPAID) {
      assert t.history == UNPAID + t.history[3..];
    }
  }

  lemma NotTwice(history: seq<Did>, errand: Errand)
    ensures Times(history, errand) == 0 <==> Yes(errand) !in history
  {
    assert Yes(errand) in history <==> Yes(errand) in multiset(history);
  }

  lemma BrokenMarks(t: Transfer)
    requires Unrecorded(t) || Unwinding(t, UNMARKED)
    ensures !MarksKept(t)
  {
    if Unrecorded(t) {
      assert t.history[1] == t.history[..2][1];
    } else {
      assert t.history[3] == t.history[..4][3];
    }
  }

  // ----- When they are not -----

  lemma PaidSoFar()
    ensures NetOut([Yes(Debit), Yes(MarkDebited)]) == 1
    ensures NetOut([Yes(Debit), Yes(MarkDebited), Yes(Credit)]) == 0
  {
    var two, three := [Yes(Debit), Yes(MarkDebited)], [Yes(Debit), Yes(MarkDebited), Yes(Credit)];
    assert multiset(two) == multiset{Yes(Debit), Yes(MarkDebited)};
    assert multiset(three) == multiset{Yes(Debit), Yes(MarkDebited), Yes(Credit)};
  }

  function Twice(bank: Bank, ref: string): Bank {
    After(After(bank, Dispatch(ref)), Dispatch(ref))
  }

  // A saga about to refund does so exactly when its source may be credited.
  lemma RefundNext(bank: Bank, ref: string)
    requires Sound(bank) && ref in bank.transfers
    requires var t := bank.transfers[ref]; t.pending != [] && t.pending[0].Compensate?
    ensures ref in Deliver(bank, ref).transfers
    ensures var t := bank.transfers[ref];
            Outstanding(Deliver(bank, ref).transfers[ref])
            == Outstanding(t) - if Creditable(bank.accounts, t.source, t.amount) then t.amount else 0
  {
    var t := bank.transfers[ref];
    OneRefundOwed(t);
    AnsweredGrows(bank, t);
  }

  // A saga in the middle of a payment: what is next, and what its money came to so far.
  predicate Midway(t: Transfer, errand: Errand) {
    && t.pending == [errand] && t.stage == Some(AwaitingCredit)
    && t.refunds == [Refund(t.source, t.amount)] && !errand.Compensate?
  }

  // Declined, it turns to the refund.
  lemma DeclinedTurnsToRefund(t: Transfer, errand: Errand)
    requires Midway(t, errand)
    ensures var next := Advanced(t, errand, false);
            && next.pending == [Compensate, MarkReversed] && next.refunds == t.refunds
            && next.source == t.source && next.amount == t.amount
  {
    var begun := Begun(t, errand).(history := t.history + [Did(errand, false)]);
    assert begun.pending == [];
    Legs(begun, Refusal);
  }

  // Accepted, it goes on to the next mark.
  lemma AcceptedGoesOn(t: Transfer, errand: Errand)
    requires Midway(t, errand) && (errand.Credit? || errand.MarkCredited?)
    ensures Advanced(t, errand, true).pending == if errand.Credit? then [MarkCredited] else [Settle]
    ensures Advanced(t, errand, true).amount == t.amount
  {
    var begun := Begun(t, errand).(history := t.history + [Did(errand, true)], status := Marked(t, errand));
    assert begun.pending == [];
    Legs(begun, AccountCredited);
    Legs(begun, TransferCredited);
  }

  lemma MidwayIn(t: Transfer)
    requires Known(t) && t.pending != [] && t.stage == Some(AwaitingCredit)
    requires t.pending[0].MarkCredited? || t.pending == [Credit]
    ensures Midway(t, t.pending[0])
    ensures Outstanding(t) == if t.pending[0].Credit? then t.amount else 0
  {
    PaidSoFar();
  }

  // What is outstanding two dispatches on, from the middle of a payment.
  lemma TwoDispatchesOn(bank: Bank, ref: string)
    requires Sound(bank) && ref in bank.transfers
    requires var t := bank.transfers[ref];
             t.pending != [] && Midway(t, t.pending[0]) && (t.pending[0].Credit? || t.pending[0].MarkCredited?)
    ensures ref in Twice(bank, ref).transfers
    ensures var t := bank.transfers[ref];
            Outstanding(Twice(bank, ref).transfers[ref])
            == if Accepts(bank, t, t.pending[0]) then Outstanding(t) - Adds(t, t.pending[0])
               else Outstanding(t) - if Creditable(bank.accounts, t.source, t.amount) then t.amount else 0
  {
    hide Advanced, Outstanding, Sound, Known, Accepts, Creditable, Deliver, Twice, Answered, Seen;
    var t := bank.transfers[ref];
    var errand, once := t.pending[0], Deliver(bank, ref);
    DeliverKeeps(bank, ref);
    AnsweredGrows(bank, t);
    DeliveredIs(bank, ref);
    if Accepts(bank, t, errand) {
      AcceptedGoesOn(t, errand);
      AnsweredGrows(once, once.transfers[ref]);
    } else {
      DeclinedTurnsToRefund(t, errand);
      RefundNext(once, ref);
    }
    DeliveredIs(once, ref);
    TwiceDelivered(bank, ref);
  }

  // What a dispatch leaves of its transfer, and of the accounts when it is declined.
  lemma DeliveredIs(bank: Bank, ref: string)
    requires ref in bank.transfers && bank.transfers[ref].pending != []
    ensures var t, after := bank.transfers[ref], Deliver(bank, ref); var accepted := Accepts(bank, t, t.pending[0]);
            && ref in after.transfers && after.transfers[ref] == Answered(bank, t)
            && (accepted ==> after.accounts == Posted(bank, t, t.pending[0])
                             && after.transfers[ref].pending == Advanced(t, t.pending[0], true).pending)
            && (!accepted ==>
                after.accounts == bank.accounts && after.transfers[ref] == Advanced(t, t.pending[0], false))
  {
    hide Advanced, Accepts, Posted;
  }

  lemma TwiceDelivered(bank: Bank, ref: string)
    requires ref in bank.transfers && bank.transfers[ref].pending != []
    requires ref in Deliver(bank, ref).transfers && Deliver(bank, ref).transfers[ref].pending != []
    ensures Twice(bank, ref) == Deliver(Deliver(bank, ref), ref)
  {
    hide Deliver;
  }

  // The credit arrived but cannot be marked: the refund goes out as well. Two dispatches on, the
  // amount has been paid twice exactly when the source may still be credited.
  lemma RefusedMarkPaysTwice(bank: Bank, ref: string)
    requires Sound(bank) && ref in bank.transfers
    requires var t := bank.transfers[ref]; t.pending != [] && t.pending[0].MarkCredited?
    ensures ref in Twice(bank, ref).transfers
    ensures var t := bank.transfers[ref];
            Outstanding(Twice(bank, ref).transfers[ref]) == -t.amount <==>
            !(t.view.destinationOpen && t.view.destinationActive) && Creditable(bank.accounts, t.source, t.amount)
  {
    MidwayIn(bank.transfers[ref]);
    MarksReadTheCopies(bank, bank.transfers[ref]);
    TwoDispatchesOn(bank, ref);
  }

  // Neither end may be credited: two dispatches on, the money has left the source and is nowhere.
  lemma RefusedRefundStrands(bank: Bank, ref: string)
    requires Sound(bank) && ref in bank.transfers
    requires var t := bank.transfers[ref]; t.pending == [Credit] && t.stage == Some(AwaitingCredit)
    ensures ref in Twice(bank, ref).transfers
    ensures var t := bank.transfers[ref];
            Outstanding(Twice(bank, ref).transfers[ref]) == t.amount <==>
            !Creditable(bank.accounts, t.destination, t.amount) && !Creditable(bank.accounts, t.source, t.amount)
  {
    MidwayIn(bank.transfers[ref]);
    TwoDispatchesOn(bank, ref);
  }

  // ----- A debit that cannot be marked -----

  // Once the mark was declined, the history alone says where a transfer stands.
  lemma StandsUnrecorded(t: Transfer)
    requires Known(t) && |t.history| >= 2 && t.history[..2] == [Yes(Debit), No(MarkDebited)]
    ensures Unrecorded(t)
  {
    assert t.history[1] == t.history[..2][1];
    if !Unrecorded(t) {
      SecondOf(t);
    }
  }

  lemma SecondOf(t: Transfer)
    requires Known(t) && |t.history| >= 2 && !Unrecorded(t)
    ensures t.history[1] == Yes(MarkDebited)
  {
    if Unwinding(t, UNPAID) {
      assert t.history[1] == t.history[..3][1];
    } else if Unwinding(t, UNMARKED) {
      assert t.history[1] == t.history[..4][1];
    }
  }

  // And so it does along a payment.
  lemma StandsPaying(t: Transfer)
    requires Known(t)
    ensures t.history == [Yes(Debit), Yes(MarkDebited)] ==> t.pending == [Credit] && t.status == Debited
    ensures t.history == PAID ==> t.pending == [MarkCredited] && t.status == Debited
    ensures t.history == PAID + [Yes(MarkCredited)] ==> t.pending == [Settle]
  {
    if Unrecorded(t) {
      NotUnrecorded(t);
    } else if Unwinding(t, UNPAID) {
      assert t.history[2] == t.history[..3][2];
    } else if Unwinding(t, UNMARKED) {
      assert t.history[3] == t.history[..4][3];
    }
  }

  lemma NotUnrecorded(t: Transfer)
    requires Unrecorded(t)
    ensures t.history[1] == No(MarkDebited)
  {
    assert t.history[1] == t.history[..2][1];
  }

  function Delivered(bank: Bank, ref: string, n: nat): Bank
    decreases n
  {
    if n == 0 then bank else Delivered(After(bank, Dispatch(ref)), ref, n - 1)
  }

  lemma DeliverNext(bank: Bank, ref: string)
    requires Sound(bank) && ref in bank.transfers && bank.transfers[ref].pending != []
    ensures var after, t := After(bank, Dispatch(ref)), bank.transfers[ref];
            var accepted := Accepts(bank, t, t.pending[0]);
            && Sound(after) && ref in after.transfers
            && after.accounts == (if accepted then Posted(bank, t, t.pending[0]) else bank.accounts)
            && after.transfers[ref] == Answered(bank, t)
            && Known(after.transfers[ref])
  {
    hide Known, Accepts, Posted, Answered;
    DeliverKeeps(bank, ref);
  }

  lemma OnceDebited(t: Transfer)
    requires t.history == [Yes(Debit)]
    ensures Outstanding(t) == t.amount
  {
    assert multiset([Yes(Debit)]) == multiset{Yes(Debit)};
  }

  // The mark is declined: a refund, a mark that cannot be set and a credit follow.
  lemma DeclinedDebitMark(bank: Bank, ref: string)
    requires Sound(bank) && ref in bank.transfers && bank.transfers[ref].history == [Yes(Debit)]
    requires bank.transfers[ref].pending == [MarkDebited, Credit] && !Accepts(bank, bank.transfers[ref], MarkDebited)
    ensures ref in Delivered(bank, ref, 4).transfers
    ensures var t, last := bank.transfers[ref], Delivered(bank, ref, 4).transfers[ref];
            Outstanding(last) == t.amount
              - (if Creditable(bank.accounts, t.source, t.amount) then t.amount else 0)
              - (if Creditable(bank.accounts, t.destination, t.amount) then t.amount else 0)
  {
    var t := bank.transfers[ref];
    OnceDebited(t);
    AnsweredGrows(bank, t);
    DeliverNext(bank, ref);
    var b1 := After(bank, Dispatch(ref));
    AfterDeclinedMark(b1, ref);
    assert Delivered(bank, ref, 4) == Delivered(b1, ref, 3);
  }

  lemma AfterDeclinedMark(bank: Bank, ref: string)
    requires Sound(bank) && ref in bank.transfers && bank.transfers[ref].history == [Yes(Debit), No(MarkDebited)]
    ensures ref in Delivered(bank, ref, 3).transfers
    ensures var t, last := bank.transfers[ref], Delivered(bank, ref, 3).transfers[ref];
            Outstanding(last) == Outstanding(t)
              - (if Creditable(bank.accounts, t.source, t.amount) then t.amount else 0)
              - (if Creditable(bank.accounts, t.destination, t.amount) then t.amount else 0)
  {
    hide Outstanding, Delivered;
    var t := bank.transfers[ref];
    StandsUnrecorded(t);
    DeliverNext(bank, ref);
    AnsweredGrows(bank, t);
    var b2 := After(bank, Dispatch(ref));
    var t2 := b2.transfers[ref];
    assert t2.history[..2] == t.history;
    assert Sound(b2) && t.source != t.destination;
    if Accepts(bank, t, Compensate) {
      DestinationUntouched(bank, t);
    }
    AfterRefund(b2, ref);
    Thrice(bank, ref);
    Twofold(b2, ref);
  }

  lemma AfterRefund(bank: Bank, ref: string)
    requires Sound(bank) && ref in bank.transfers
    requires var h := bank.transfers[ref].history; |h| == 3 && h[..2] == [Yes(Debit), No(MarkDebited)]
    ensures ref in Delivered(bank, ref, 2).transfers
    ensures var t, last := bank.transfers[ref], Delivered(bank, ref, 2).transfers[ref];
            Outstanding(last) == Outstanding(t) - if Creditable(bank.accounts, t.destination, t.amount) then t.amount
                else 0
  {
    hide Outstanding, Delivered;
    var t := bank.transfers[ref];
    StandsUnrecorded(t);
    DeliverNext(bank, ref);
    AnsweredGrows(bank, t);
    var b3 := After(bank, Dispatch(ref));
    var t3 := b3.transfers[ref];
    assert t3.history[..2] == t.history[..2];
    StandsUnrecorded(t3);
    DeliverNext(b3, ref);
    AnsweredGrows(b3, t3);
    Twofold(bank, ref);
  }

  // A refund leaves the destination as it was.
  lemma DestinationUntouched(bank: Bank, t: Transfer)
    requires t.source != t.destination && t.refunds == [Refund(t.source, t.amount)] && Accepts(bank, t, Compensate)
    ensures Creditable(Posted(bank, t, Compensate), t.destination, t.amount) <==>
            Creditable(bank.accounts, t.destination, t.amount)
  {
  }

  lemma Twofold(bank: Bank, ref: string)
    ensures Delivered(bank, ref, 2) == After(After(bank, Dispatch(ref)), Dispatch(ref))
  {
    hide After;
    var once := After(bank, Dispatch(ref));
    assert Delivered(once, ref, 1) == Delivered(After(once, Dispatch(ref)), ref, 0);
  }

  lemma Thrice(bank: Bank, ref: string)
    ensures Delivered(bank, ref, 3) == Delivered(After(bank, Dispatch(ref)), ref, 2)
  {
  }

  lemma Fourfold(bank: Bank, ref: string)
    ensures Delivered(bank, ref, 4) == Delivered(After(bank, Dispatch(ref)), ref, 3)
  {
  }

  // The mark is set: what is paid to the destination can then be marked as well, or it is refunded.
  lemma AcceptedDebitMark(bank: Bank, ref: string)
    requires Sound(bank) && ref in bank.transfers && bank.transfers[ref].history == [Yes(Debit)]
    requires bank.transfers[ref].pending == [MarkDebited, Credit] && Accepts(bank, bank.transfers[ref], MarkDebited)
    ensures ref in Delivered(bank, ref, 4).transfers
    ensures Outstanding(Delivered(bank, ref, 4).transfers[ref]) >= 0
  {
    hide Outstanding, Delivered;
    var t := bank.transfers[ref];
    DeliverNext(bank, ref);
    AnsweredGrows(bank, t);
    var b1 := After(bank, Dispatch(ref));
    var t1 := b1.transfers[ref];
    StandsPaying(t1);
    AfterSetMark(b1, ref);
    Fourfold(bank, ref);
  }

  lemma AfterSetMark(bank: Bank, ref: string)
    requires Sound(bank) && ref in bank.transfers && bank.transfers[ref].history == [Yes(Debit), Yes(MarkDebited)]
    requires var t := bank.transfers[ref]; t.view == Seen(bank.accounts, t.source, t.destination)
    ensures ref in Delivered(bank, ref, 3).transfers
    ensures Outstanding(Delivered(bank, ref, 3).transfers[ref]) >= 0
  {
    var t := bank.transfers[ref];
    StandsPaying(t);
    hide Delivered, Outstanding, Known, Posted, Answered, After;
    DeliverNext(bank, ref);
    AnsweredGrows(bank, t);
    var b2 := After(bank, Dispatch(ref));
    Thrice(bank, ref);
    if Accepts(bank, t, Credit) {
      assert b2.transfers[ref].history == PAID;
      AfterCredit(b2, ref);
    } else {
      assert b2.transfers[ref].history == UNPAID;
      AfterNoCredit(b2, ref);
    }
  }

  lemma HistoryNext(bank: Bank, ref: string)
    requires Sound(bank) && ref in bank.transfers && bank.transfers[ref].pending != []
    ensures var after, t := After(bank, Dispatch(ref)), bank.transfers[ref];
            && Sound(after) && ref in after.transfers && Known(after.transfers[ref])
            && after.transfers[ref].history == t.history + [Did(t.pending[0], Accepts(bank, t, t.pending[0]))]
  {
    hide Known, Accepts, Posted, Answered, After, Sound;
    DeliverNext(bank, ref);
    AnsweredGrows(bank, bank.transfers[ref]);
  }

  // The destination was copied as it stood when it was credited, so the credit is marked.
  lemma AfterCredit(bank: Bank, ref: string)
    requires Sound(bank) && ref in bank.transfers && bank.transfers[ref].history == PAID
    requires bank.transfers[ref].view.destinationOpen && bank.transfers[ref].view.destinationActive
    ensures ref in Delivered(bank, ref, 2).transfers
    ensures Outstanding(Delivered(bank, ref, 2).transfers[ref]) >= 0
  {
    var t := bank.transfers[ref];
    StandsPaying(t);
    MarksReadTheCopies(bank, t);
    hide Delivered, Outstanding, Known, After, Accepts, Sound, MarksKept;
    HistoryNext(bank, ref);
    var b3 := After(bank, Dispatch(ref));
    assert b3.transfers[ref].history == PAID + [Yes(MarkCredited)];
    StandsPaying(b3.transfers[ref]);
    HistoryNext(b3, ref);
    Twofold(bank, ref);
    SettledKeepsMarks(After(b3, Dispatch(ref)).transfers[ref]);
    KeptMarksNeverBoth(After(b3, Dispatch(ref)).transfers[ref]);
  }

  lemma SettledKeepsMarks(t: Transfer)
    requires exists answer: bool :: t.history == PAID + [Yes(MarkCredited)] + [Did(Settle, answer)]
    ensures MarksKept(t)
  {
  }

  // Once the credit was declined no mark is, but the last.
  lemma AfterNoCredit(bank: Bank, ref: string)
    requires Sound(bank) && ref in bank.transfers && bank.transfers[ref].history == UNPAID
    ensures ref in Delivered(bank, ref, 2).transfers
    ensures Outstanding(Delivered(bank, ref, 2).transfers[ref]) >= 0
  {
    var t := bank.transfers[ref];
    UnpaidNext(t);
    hide Delivered, Outstanding, Known, After, Accepts, Sound, MarksKept, UNPAID;
    HistoryNext(bank, ref);
    var b3 := After(bank, Dispatch(ref));
    UnpaidNext(b3.transfers[ref]);
    HistoryNext(b3, ref);
    Twofold(bank, ref);
    UnpaidNext(After(b3, Dispatch(ref)).transfers[ref]);
    KeptMarksNeverBoth(After(b3, Dispatch(ref)).transfers[ref]);
  }

  lemma UnpaidNext(t: Transfer)
    requires Known(t) && UNPAID <= t.history
    ensures MarksKept(t)
    ensures |t.history| < |UNPAID| + 2 ==> t.pending != []
  {
    StandsUnpaid(t);
    assert t.history == UNPAID + t.history[3..];
  }

  lemma StandsUnpaid(t: Transfer)
    requires Known(t) && UNPAID <= t.history
    ensures Unwinding(t, UNPAID)
  {
    assert t.history[1] == Yes(MarkDebited) && t.history[2] == No(Credit);
    if Unrecorded(t) {
      NotUnrecorded(t);
    }
    if Unwinding(t, UNMARKED) {
      WasCredited(t);
    }
    assert t.history[..3] == UNPAID;
  }

  lemma WasCredited(t: Transfer)
    requires Unwinding(t, UNMARKED)
    ensures t.history[2] == Yes(Credit)
  {
    assert t.history[2] == t.history[..4][2];
  }

  // The debit left but is not yet marked. Four dispatches on, with nothing in between, the amount has
  // been paid twice exactly when the transfer's copy of its source is not open and active and both
  // accounts may be credited.
  lemma RefusedDebitMarkPaysTwice(bank: Bank, ref: string)
    requires Sound(bank) && ref in bank.transfers
    requires var t := bank.transfers[ref]; t.pending != [] && t.pending[0].MarkDebited?
    ensures ref in Delivered(bank, ref, 4).transfers
    ensures var t := bank.transfers[ref];
            Outstanding(Delivered(bank, ref, 4).transfers[ref]) == -t.amount <==>
            && !(t.view.sourceOpen && t.view.sourceActive)
            && Creditable(bank.accounts, t.source, t.amount) && Creditable(bank.accounts, t.destination, t.amount)
  {
    var t := bank.transfers[ref];
    MarksReadTheCopies(bank, t);
    if Accepts(bank, t, MarkDebited) {
      AcceptedDebitMark(bank, ref);
    } else {
      DeclinedDebitMark(bank, ref);
    }
  }
}
