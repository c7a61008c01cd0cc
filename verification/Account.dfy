// Banking's Account: the commands that move its balance, the ledger whose entries mint their own
// sequence, its lifecycle, and what holds of every account any run of commands reaches.
module Account {
  import opened Wrappers

  const INT64_MIN: int := -0x8000_0000_0000_0000
  const INT64_MAX: int := 0x7FFF_FFFF_FFFF_FFFF

  predicate Fits64(n: int) { INT64_MIN <= n <= INT64_MAX }

  datatype Money = Money(cents: int, currency: string)

  datatype Direction = Credited | Debited

  datatype Entry = Entry(sequence: int, amount: Money, direction: Direction, reversed: bool)

  datatype Status = Open | Frozen | Closed

  datatype Standing = Active | Suspended | Ended

  datatype Event =
    | AccountOpened | AccountCredited | AccountDebited | AccountFrozen | AccountUnfrozen | AccountClosed
    | FeeApplied | FeeCorrected | InterestAccrued | InterestCorrected | LedgerEntryAmended | LedgerEntryReversed

  // `customer` is the customer's status, and `standing` the account's held copy of it.
  datatype Books = Books(
    balance: Money,
    dailyLimit: int,
    ledger: seq<Entry>,
    fees: int,
    interest: int,
    status: Status,
    standing: Standing,
    customer: Standing,
    events: seq<Event>)

  datatype Command =
    | Credit(amount: Money)
    | Debit(amount: Money)
    | FreezeAccount
    | Unfreeze
    | CloseAccount
    | ApplyFee(amount: Money)
    | CorrectFee(amount: Money)
    | AccrueInterest(amount: Money)
    | CorrectInterest(amount: Money)
    | Amend(sequence: int, adjustment: Money)
    | Reverse(sequence: int)

  datatype Answer =
      Done | ValueRefused | NotFound | NothingToCorrect | GivenNotMet | LifecycleBlocked | InvariantBroken | Crashed

  // A newly opened account.
  function Opened(dailyLimit: int, customer: Standing): Books {
    Books(Money(0, "USD"), dailyLimit, [], 0, 0, Open, customer, customer, [AccountOpened])
  }

  // ----- What one command does -----

  predicate PositiveMoney(m: Money) { m.cents > 0 && |m.currency| == 3 }

  // The argument's value object, before any rule is asked.
  predicate Admitted(c: Command) {
    match c
    case Amend(_, adjustment) => |adjustment.currency| == 3
    case Credit(amount) => PositiveMoney(amount)
    case Debit(amount) => PositiveMoney(amount)
    case ApplyFee(amount) => PositiveMoney(amount)
    case CorrectFee(amount) => PositiveMoney(amount)
    case AccrueInterest(amount) => PositiveMoney(amount)
    case CorrectInterest(amount) => PositiveMoney(amount)
    case _ => true
  }

  // The place of the entry with a sequence.
  function Find(ledger: seq<Entry>, sequence: int): (at: Option<nat>)
    ensures at.Some? ==> at.value < |ledger| && ledger[at.value].sequence == sequence
    ensures at.None? ==> forall i :: 0 <= i < |ledger| ==> ledger[i].sequence != sequence
  {
    if ledger == [] then None
    else if ledger[0].sequence == sequence then Some(0)
    else
      var later := Find(ledger[1..], sequence);
      if later.Some? then Some(later.value + 1) else None
  }

  // The rules read before anything is written. An entry's rules read its parent's status and standing.
  predicate GivensHold(b: Books, c: Command) {
    match c
    case Credit(_) => b.standing == Active
    case Debit(amount) => b.standing == Active && b.balance.cents >= amount.cents && b.dailyLimit >= amount.cents
    case FreezeAccount => b.standing != Ended
    case Unfreeze => b.standing == Active
    case CloseAccount => b.standing != Ended && b.balance.cents == 0
    case ApplyFee(amount) => b.standing == Active && b.balance.cents >= amount.cents
    case CorrectFee(amount) => b.standing == Active && b.fees >= amount.cents
    case AccrueInterest(_) => b.standing == Active
    case CorrectInterest(amount) => b.standing == Active && b.interest >= amount.cents
        && b.balance.cents >= amount.cents
    case Amend(sequence, adjustment) =>
      b.standing == Active && b.status == Open
      && (var at := Find(b.ledger, sequence);
          at.Some? && !b.ledger[at.value].reversed && b.ledger[at.value].amount.cents + adjustment.cents >= 0)
    case Reverse(sequence) =>
      b.standing == Active && b.status == Open
      && (var at := Find(b.ledger, sequence); at.Some? && !b.ledger[at.value].reversed)
  }

  predicate FromHolds(b: Books, c: Command) {
    match c
    case Unfreeze => b.status == Frozen
    case CloseAccount => b.status != Closed
    case Amend(_, _) => true
    case Reverse(_) => true
    case _ => b.status == Open
  }

  // How far a command moves the balance, the fees and the interest.
  function BalanceMove(c: Command): int {
    match c
    case Credit(amount) => amount.cents
    case Debit(amount) => -amount.cents
    case ApplyFee(amount) => -amount.cents
    case CorrectFee(amount) => amount.cents
    case AccrueInterest(amount) => amount.cents
    case CorrectInterest(amount) => -amount.cents
    case _ => 0
  }

  function FeeMove(c: Command): int {
    match c case ApplyFee(amount) => amount.cents case CorrectFee(amount) => -amount.cents case _ => 0
  }

  function InterestMove(c: Command): int {
    match c case AccrueInterest(amount) => amount.cents case CorrectInterest(amount) => -amount.cents case _ => 0
  }

  function Highest(ledger: seq<Entry>): int {
    if ledger == [] then 0
    else
      var before := Highest(ledger[..|ledger| - 1]);
      var last := ledger[|ledger| - 1].sequence;
      if |ledger| == 1 || last > before then last else before
  }

  // One past the highest sequence held.
  function NextSequence(ledger: seq<Entry>): int { Highest(ledger) + 1 }

  function Posted(ledger: seq<Entry>, amount: Money, direction: Direction): seq<Entry> {
    ledger + [Entry(NextSequence(ledger), amount, direction, false)]
  }

  function LedgerAfter(ledger: seq<Entry>, c: Command): seq<Entry> {
    match c
    case Credit(amount) => Posted(ledger, amount, Credited)
    case Debit(amount) => Posted(ledger, amount, Debited)
    case Amend(sequence, adjustment) =>
      var at := Find(ledger, sequence);
      if at.None? then ledger
      else
        var e := ledger[at.value];
        ledger[at.value := e.(amount := Money(e.amount.cents + adjustment.cents, e.amount.currency))]
    case Reverse(sequence) =>
      var at := Find(ledger, sequence);
      if at.None? then ledger else ledger[at.value := ledger[at.value].(reversed := true)]
    case _ => ledger
  }

  function StatusAfter(status: Status, c: Command): Status {
    match c case FreezeAccount => Frozen case Unfreeze => Open case CloseAccount => Closed case _ => status
  }

  function EventOf(c: Command): Event {
    match c
    case Credit(_) => AccountCredited
    case Debit(_) => AccountDebited
    case FreezeAccount => AccountFrozen
    case Unfreeze => AccountUnfrozen
    case CloseAccount => AccountClosed
    case ApplyFee(_) => FeeApplied
    case CorrectFee(_) => FeeCorrected
    case AccrueInterest(_) => InterestAccrued
    case CorrectInterest(_) => InterestCorrected
    case Amend(_, _) => LedgerEntryAmended
    case Reverse(_) => LedgerEntryReversed
  }

  // An amendment's arithmetic is checked where its rule reads it, the rest where it is written.
  predicate Overflows(b: Books, c: Command) {
    if c.Amend? then
      var at := Find(b.ledger, c.sequence);
      at.Some? && !Fits64(b.ledger[at.value].amount.cents + c.adjustment.cents)
    else
      !Fits64(b.balance.cents + BalanceMove(c)) || !Fits64(b.fees + FeeMove(c)) || !Fits64(b.interest + InterestMove(c))
  }

  // Every save by a command of the account takes the copy anew; an entry's commands leave it.
  function StandingAfter(standing: Standing, customer: Standing, c: Command): Standing {
    if c.Amend? || c.Reverse? then standing else customer
  }

  function Wrote(b: Books, c: Command): Books {
    Books(b.balance.(cents := b.balance.cents + BalanceMove(c)), b.dailyLimit, LedgerAfter(b.ledger, c),
          b.fees + FeeMove(c), b.interest + InterestMove(c), StatusAfter(b.status, c),
          StandingAfter(b.standing, b.customer, c), b.customer, b.events + [EventOf(c)])
  }

  function AnswerTo(b: Books, c: Command): Answer {
    if !Admitted(c) then ValueRefused
    else if (c.Amend? || c.Reverse?) && Find(b.ledger, c.sequence).None? then NotFound
    else if c.CorrectFee? && FeeApplied !in b.events then NothingToCorrect
    else if c.Amend? && b.standing == Active && b.status == Open && !b.ledger[Find(b.ledger, c.sequence).value].reversed
            && Overflows(b, c) then Crashed
    else if !GivensHold(b, c) then GivenNotMet
    else if !FromHolds(b, c) then LifecycleBlocked
    else if Overflows(b, c) then Crashed
    else if b.balance.cents + BalanceMove(c) < 0 then InvariantBroken
    else Done
  }

  function After(b: Books, c: Command): Books {
    if AnswerTo(b, c) == Done then Wrote(b, c) else b
  }

  // ----- Every reachable account -----

  function Signed(e: Entry): int { if e.direction == Credited then e.amount.cents else -e.amount.cents }

  function LedgerSum(ledger: seq<Entry>): int {
    if ledger == [] then 0 else LedgerSum(ledger[..|ledger| - 1]) + Signed(ledger[|ledger| - 1])
  }

  ghost predicate Reachable(b: Books) {
    && 0 <= b.balance.cents <= INT64_MAX && b.balance.currency == "USD"
    && 0 <= b.fees <= INT64_MAX && 0 <= b.interest <= INT64_MAX
    && (forall i :: 0 <= i < |b.ledger| ==> b.ledger[i].sequence == i + 1 && 0 <= b.ledger[i].amount.cents <= INT64_MAX)
    && (b.fees > 0 ==> FeeApplied in b.events)
  }

  lemma {:induction false} HighestIsLength(ledger: seq<Entry>)
    requires forall i :: 0 <= i < |ledger| ==> ledger[i].sequence == i + 1
    ensures Highest(ledger) == |ledger|
  {
    if ledger != [] {
      HighestIsLength(ledger[..|ledger| - 1]);
    }
  }

  lemma {:induction false} SumReplaced(ledger: seq<Entry>, at: nat, e: Entry)
    requires at < |ledger|
    ensures LedgerSum(ledger[at := e]) == LedgerSum(ledger) - Signed(ledger[at]) + Signed(e)
  {
    var n := |ledger| - 1;
    if at < n {
      SumReplaced(ledger[..n], at, e);
      assert ledger[at := e][..n] == ledger[..n][at := e];
    } else {
      assert ledger[at := e][..n] == ledger[..n];
    }
  }

  // What an accepted command adds to the ledger's signed sum.
  function SumMove(b: Books, c: Command): int {
    match c
    case Credit(amount) => amount.cents
    case Debit(amount) => -amount.cents
    case Amend(_, _) => Amendment(b, c)
    case _ => 0
  }

  // An amendment moves the entry it corrects, and with it the sum, but not the balance.
  function Amendment(b: Books, c: Command): int {
    if !c.Amend? || AnswerTo(b, c) != Done then 0
    else if b.ledger[Find(b.ledger, c.sequence).value].direction == Credited then c.adjustment.cents
    else -c.adjustment.cents
  }

  lemma SumMoves(b: Books, c: Command)
    requires AnswerTo(b, c) == Done
    ensures LedgerSum(LedgerAfter(b.ledger, c)) == LedgerSum(b.ledger) + SumMove(b, c)
  {
    if c.Credit? || c.Debit? {
      var more := LedgerAfter(b.ledger, c);
      assert more[..|more| - 1] == b.ledger;
    } else if c.Amend? || c.Reverse? {
      var at := Find(b.ledger, c.sequence).value;
      SumReplaced(b.ledger, at, LedgerAfter(b.ledger, c)[at]);
    }
  }

  // Every command keeps a reachable account reachable; one that is not carried out changes nothing;
  // a status changes only along a declared transition.
  lemma StaysReachable(b: Books, c: Command)
    requires Reachable(b)
    ensures Reachable(After(b, c))
    ensures AnswerTo(b, c) != Done ==> After(b, c) == b
    ensures var was, now := b.status, After(b, c).status;
            was == now || (was, now) in {(Open, Frozen), (Frozen, Open), (Open, Closed), (Frozen, Closed)}
  {
    if AnswerTo(b, c) == Done {
      HighestIsLength(b.ledger);
    }
  }

  // ----- Runs -----

  // A command, a sweep that refreshes the held copy, or a change of the customer's own status.
  datatype Step = Send(c: Command) | Sweep | Customer(to: Standing)

  function Next(b: Books, step: Step): Books {
    match step
    case Send(c) => After(b, c)
    case Sweep => b.(standing := b.customer)
    case Customer(to) => b.(customer := to)
  }

  function Run(b: Books, steps: seq<Step>): Books
    decreases |steps|
  {
    if steps == [] then b else Run(Next(b, steps[0]), steps[1..])
  }

  function Amended(b: Books, steps: seq<Step>): int
    decreases |steps|
  {
    if steps == [] then 0
    else (if steps[0].Send? then Amendment(b, steps[0].c) else 0) + Amended(Next(b, steps[0]), steps[1..])
  }

  // What the ledger says and the balance does not: fees, interest and amendments.
  function Unposted(b: Books): int { b.interest - b.fees }

  // The balance less what explains it.
  function Unexplained(b: Books): int { b.balance.cents - LedgerSum(b.ledger) - Unposted(b) }

  lemma StepExplained(b: Books, step: Step)
    requires Reachable(b)
    ensures Reachable(Next(b, step))
    ensures Unexplained(Next(b, step)) + (if step.Send? then Amendment(b, step.c) else 0) == Unexplained(b)
  {
    hide GivensHold, FromHolds, Overflows, Admitted, LedgerAfter, LedgerSum;
    if step.Send? {
      StaysReachable(b, step.c);
      if AnswerTo(b, step.c) == Done {
        SumMoves(b, step.c);
      }
    }
  }

  // In every run the account stays reachable, and its balance is the signed sum of its ledger, with
  // interest added and fees taken, less what amendments changed after the fact.
  lemma {:induction false} BalanceExplained(b: Books, steps: seq<Step>)
    requires Reachable(b)
    ensures Reachable(Run(b, steps)) && Unexplained(Run(b, steps)) + Amended(b, steps) == Unexplained(b)
    decreases |steps|
  {
    hide AnswerTo, After, LedgerSum, Reachable, Unexplained, Amendment;
    if steps != [] {
      StepExplained(b, steps[0]);
      BalanceExplained(Next(b, steps[0]), steps[1..]);
    }
  }

  // From its opening on, an account's balance is the signed sum of its ledger exactly when its
  // interest makes up for its fees and its amendments.
  lemma BalanceIsLedgerSum(dailyLimit: int, customer: Standing, steps: seq<Step>)
    ensures var b := Opened(dailyLimit, customer); var after := Run(b, steps);
            after.balance.cents == LedgerSum(after.ledger) <==> Unposted(after) == Amended(b, steps)
  {
    BalanceExplained(Opened(dailyLimit, customer), steps);
  }

  // A fee is taken and no entry says so.
  lemma FeesAreInNoEntry(dailyLimit: int, paid: Money, fee: Money)
    requires PositiveMoney(paid) && PositiveMoney(fee) && fee.cents <= paid.cents <= INT64_MAX
    ensures var after := Run(Opened(dailyLimit, Active), [Send(Credit(paid)), Send(ApplyFee(fee))]);
            after.balance.cents == paid.cents - fee.cents && LedgerSum(after.ledger) == paid.cents
  {
    var b := Opened(dailyLimit, Active);
    var credited := After(b, Credit(paid));
    assert AnswerTo(b, Credit(paid)) == Done;
    SumMoves(b, Credit(paid));
    assert AnswerTo(credited, ApplyFee(fee)) == Done;
    SumMoves(credited, ApplyFee(fee));
    RunTwo(b, Credit(paid), ApplyFee(fee));
  }

  // An amendment corrects the entry and not the balance.
  lemma AmendmentsLeaveTheBalance(dailyLimit: int, paid: Money, more: Money)
    requires PositiveMoney(paid) && |more.currency| == 3 && paid.cents <= INT64_MAX
    requires 0 <= paid.cents + more.cents <= INT64_MAX
    ensures var after := Run(Opened(dailyLimit, Active), [Send(Credit(paid)), Send(Amend(1, more))]);
            after.balance.cents == paid.cents && LedgerSum(after.ledger) == paid.cents + more.cents
  {
    var b := Opened(dailyLimit, Active);
    var credited := After(b, Credit(paid));
    FirstCredit(b, paid);
    hide Run, LedgerSum, Overflows, LedgerAfter;
    SumMoves(b, Credit(paid));
    AmendIsDone(credited, paid, more);
    SumMoves(credited, Amend(1, more));
    RunTwo(b, Credit(paid), Amend(1, more));
  }

  lemma FirstCredit(b: Books, paid: Money)
    requires PositiveMoney(paid) && paid.cents <= INT64_MAX && b == Opened(b.dailyLimit, Active)
    ensures AnswerTo(b, Credit(paid)) == Done
    ensures var after := After(b, Credit(paid));
            && after.ledger == [Entry(1, paid, Credited, false)] && after.status == Open && after.standing == Active
            && after.balance.cents == paid.cents && LedgerSum(b.ledger) == 0
  {
  }

  lemma AmendIsDone(b: Books, paid: Money, more: Money)
    requires b.ledger == [Entry(1, paid, Credited, false)] && b.status == Open && b.standing == Active
    requires |more.currency| == 3 && 0 <= paid.cents + more.cents <= INT64_MAX
    requires 0 <= b.balance.cents <= INT64_MAX && b.fees == 0 && b.interest == 0
    ensures AnswerTo(b, Amend(1, more)) == Done && Find(b.ledger, 1) == Some(0)
    ensures After(b, Amend(1, more)).balance == b.balance && Amendment(b, Amend(1, more)) == more.cents
  {
    hide LedgerAfter;
    assert Find(b.ledger, 1) == Some(0);
  }

  lemma RunTwo(b: Books, c: Command, d: Command)
    ensures Run(b, [Send(c), Send(d)]) == After(After(b, c), d)
  {
    hide After;
    assert [Send(c), Send(d)][1..] == [Send(d)] && [Send(d)][1..] == [];
    assert Run(After(b, c), [Send(d)]) == Run(After(After(b, c), d), []);
  }

  predicate Plain(step: Step) {
    step.Send? ==> match step.c
                   case ApplyFee(_) => false
                   case AccrueInterest(_) => false
                   case Amend(_, _) => false
                   case _ => true
  }

  lemma {:induction false} PlainRuns(b: Books, steps: seq<Step>)
    requires Reachable(b) && b.fees == 0 && b.interest == 0
    requires forall i :: 0 <= i < |steps| ==> Plain(steps[i])
    ensures Amended(b, steps) == 0 && Run(b, steps).fees == 0 && Run(b, steps).interest == 0
    decreases |steps|
  {
    if steps != [] {
      assert Plain(steps[0]);
      if steps[0].Send? {
        StaysReachable(b, steps[0].c);
      }
      PlainRuns(Next(b, steps[0]), steps[1..]);
    }
  }

  // With credits, debits, reversals, freezing and closing alone it always is.
  lemma PlainBalanceIsLedgerSum(dailyLimit: int, customer: Standing, steps: seq<Step>)
    requires forall i :: 0 <= i < |steps| ==> Plain(steps[i])
    ensures var after := Run(Opened(dailyLimit, customer), steps); after.balance.cents == LedgerSum(after.ledger)
  {
    PlainRuns(Opened(dailyLimit, customer), steps);
    BalanceIsLedgerSum(dailyLimit, customer, steps);
  }

  // Reversing an entry marks it and leaves both the balance and the sum as they were.
  lemma ReversingMovesNoMoney(b: Books, sequence: int)
    requires Reachable(b) && AnswerTo(b, Reverse(sequence)) == Done
    ensures var after := After(b, Reverse(sequence));
            && after.balance == b.balance && LedgerSum(after.ledger) == LedgerSum(b.ledger)
            && 1 <= sequence <= |b.ledger|
            && after.ledger == b.ledger[sequence - 1 := b.ledger[sequence - 1].(reversed := true)]
            && !b.ledger[sequence - 1].reversed
  {
    SumMoves(b, Reverse(sequence));
  }

  // Nothing changes a closed account again but a sweep of its customer's status.
  lemma {:induction false} ClosedForGood(b: Books, steps: seq<Step>)
    requires Reachable(b) && b.status == Closed
    ensures Run(b, steps).(standing := b.standing, customer := b.customer) == b
    decreases |steps|
  {
    if steps != [] {
      ClosedForGood(Next(b, steps[0]), steps[1..]);
    }
  }

  // A debit that is carried out keeps its own promises, and a fee is corrected only once applied:
  // where the fees would cover a correction there is always one to correct.
  lemma DebitEnsures(b: Books, amount: Money)
    requires Reachable(b) && AnswerTo(b, Debit(amount)) == Done
    ensures var after := After(b, Debit(amount));
            && b.balance.cents == after.balance.cents + amount.cents
            && |after.ledger| == |b.ledger| + 1
            && after.ledger[|b.ledger|] == Entry(|b.ledger| + 1, amount, Debited, false)
  {
    HighestIsLength(b.ledger);
  }

  lemma InvariantNeverBreaks(b: Books, c: Command)
    requires Reachable(b)
    ensures AnswerTo(b, c) != InvariantBroken
    ensures c.CorrectFee? && Admitted(c) && b.fees >= c.amount.cents ==> AnswerTo(b, c) != NothingToCorrect
  {
  }

  // ----- What each command takes, and does -----

  // The whole of a save by the account's own command: its copy of the customer's standing is taken anew.
  function SavedAs(b: Books, balance: int, ledger: seq<Entry>, fees: int, interest: int, status: Status,
      said: Event): Books {
    Books(Money(balance, b.balance.currency), b.dailyLimit, ledger, fees, interest, status, b.customer, b.customer,
        b.events + [said])
  }

  predicate Stands(b: Books) { b.status == Open && b.standing == Active }

  // Money put in or taken out: of an open account whose copy of its customer is active. A debit is
  // within the balance and the daily limit.
  lemma MovementsDone(b: Books, amount: Money)
    requires Reachable(b)
    ensures AnswerTo(b, Credit(amount)) == Done <==>
            amount.cents > 0 && |amount.currency| == 3 && Stands(b)
            && b.balance.cents + amount.cents <= 0x7FFF_FFFF_FFFF_FFFF
    ensures AnswerTo(b, Debit(amount)) == Done <==>
            amount.cents > 0 && |amount.currency| == 3 && Stands(b)
            && amount.cents <= b.balance.cents && amount.cents <= b.dailyLimit
    ensures AnswerTo(b, Credit(amount)) == Done ==>
              After(b, Credit(amount)) == SavedAs(b, b.balance.cents + amount.cents,
                b.ledger + [Entry(|b.ledger| + 1, amount, Credited, false)], b.fees, b.interest, Open, AccountCredited)
    ensures AnswerTo(b, Debit(amount)) == Done ==>
              After(b, Debit(amount)) == SavedAs(b, b.balance.cents - amount.cents,
                b.ledger + [Entry(|b.ledger| + 1, amount, Debited, false)], b.fees, b.interest, Open, AccountDebited)
  {
    HighestIsLength(b.ledger);
  }

  // Fees and their corrections, which give back no more than was taken.
  lemma FeesDone(b: Books, amount: Money)
    requires Reachable(b)
    ensures AnswerTo(b, ApplyFee(amount)) == Done <==>
            amount.cents > 0 && |amount.currency| == 3 && Stands(b)
            && amount.cents <= b.balance.cents && b.fees + amount.cents <= 0x7FFF_FFFF_FFFF_FFFF
    ensures AnswerTo(b, CorrectFee(amount)) == Done <==>
            amount.cents > 0 && |amount.currency| == 3 && Stands(b)
            && amount.cents <= b.fees && b.balance.cents + amount.cents <= 0x7FFF_FFFF_FFFF_FFFF
    ensures AnswerTo(b, ApplyFee(amount)) == Done ==>
              After(b, ApplyFee(amount))
              == SavedAs(b, b.balance.cents - amount.cents, b.ledger, b.fees + amount.cents, b.interest, Open,
                  FeeApplied)
    ensures AnswerTo(b, CorrectFee(amount)) == Done ==>
              After(b, CorrectFee(amount))
              == SavedAs(b, b.balance.cents + amount.cents, b.ledger, b.fees - amount.cents, b.interest, Open,
                  FeeCorrected)
  {
  }

  // Interest and its corrections, which take back no more than was given.
  lemma InterestDone(b: Books, amount: Money)
    requires Reachable(b)
    ensures AnswerTo(b, AccrueInterest(amount)) == Done <==>
            && amount.cents > 0 && |amount.currency| == 3 && Stands(b)
            && b.balance.cents + amount.cents <= 0x7FFF_FFFF_FFFF_FFFF
            && b.interest + amount.cents <= 0x7FFF_FFFF_FFFF_FFFF
    ensures AnswerTo(b, CorrectInterest(amount)) == Done <==>
            amount.cents > 0 && |amount.currency| == 3 && Stands(b)
            && amount.cents <= b.interest && amount.cents <= b.balance.cents
    ensures AnswerTo(b, AccrueInterest(amount)) == Done ==>
              After(b, AccrueInterest(amount))
              == SavedAs(b, b.balance.cents + amount.cents, b.ledger, b.fees, b.interest + amount.cents, Open,
                  InterestAccrued)
    ensures AnswerTo(b, CorrectInterest(amount)) == Done ==>
              After(b, CorrectInterest(amount))
              == SavedAs(b, b.balance.cents - amount.cents, b.ledger, b.fees, b.interest - amount.cents, Open,
                  InterestCorrected)
  {
  }

  // The lifecycle: frozen from open, open again from frozen, closed from either once empty.
  lemma LifecycleDone(b: Books)
    requires Reachable(b)
    ensures AnswerTo(b, FreezeAccount) == Done <==> b.status == Open && b.standing != Ended
    ensures AnswerTo(b, Unfreeze) == Done <==> b.status == Frozen && b.standing == Active
    ensures AnswerTo(b, CloseAccount) == Done <==>
            (b.status == Open || b.status == Frozen) && b.standing != Ended && b.balance.cents == 0
    ensures AnswerTo(b, FreezeAccount) == Done ==>
              After(b, FreezeAccount)
                  == SavedAs(b, b.balance.cents, b.ledger, b.fees, b.interest, Frozen, AccountFrozen)
    ensures AnswerTo(b, Unfreeze) == Done ==>
              After(b, Unfreeze) == SavedAs(b, b.balance.cents, b.ledger, b.fees, b.interest, Open, AccountUnfrozen)
    ensures AnswerTo(b, CloseAccount) == Done ==>
              After(b, CloseAccount) == SavedAs(b, b.balance.cents, b.ledger, b.fees, b.interest, Closed, AccountClosed)
  {
  }

  lemma {:induction false} FoundByPlace(ledger: seq<Entry>, first: int, sequence: int)
    requires forall i :: 0 <= i < |ledger| ==> ledger[i].sequence == first + i
    ensures Find(ledger, sequence) == if first <= sequence < first + |ledger| then Some(sequence - first) else None
  {
    if ledger != [] {
      FoundByPlace(ledger[1..], first + 1, sequence);
    }
  }

  // An entry's own commands: on an entry that is there and not reversed, of an open account whose copy
  // of its customer is active. They write that entry and say so, and nothing else.
  lemma EntryCommandsDone(b: Books, sequence: int, adjustment: Money)
    requires Reachable(b)
    ensures var here := 1 <= sequence <= |b.ledger| && !b.ledger[sequence - 1].reversed && Stands(b);
            && (AnswerTo(b, Reverse(sequence)) == Done <==> here)
            && (AnswerTo(b, Amend(sequence, adjustment)) == Done <==>
                  && here && |adjustment.currency| == 3
                  && 0 <= b.ledger[sequence - 1].amount.cents + adjustment.cents <= 0x7FFF_FFFF_FFFF_FFFF)
    ensures AnswerTo(b, Reverse(sequence)) == Done ==>
              After(b, Reverse(sequence))
              == b.(ledger := b.ledger[sequence - 1 := b.ledger[sequence - 1].(reversed := true)],
                    events := b.events + [LedgerEntryReversed])
    ensures AnswerTo(b, Amend(sequence, adjustment)) == Done ==>
              var was := b.ledger[sequence - 1];
              var now := Money(was.amount.cents + adjustment.cents, was.amount.currency);
              After(b, Amend(sequence, adjustment))
              == b.(ledger := b.ledger[sequence - 1 := Entry(was.sequence, now, was.direction, false)],
                  events := b.events + [LedgerEntryAmended])
  {
    hide Find;
    FoundByPlace(b.ledger, 1, sequence);
  }

  // ----- Which refusal comes back -----

  predicate TakesMoney(c: Command) {
    c.Credit? || c.Debit? || c.ApplyFee? || c.CorrectFee? || c.AccrueInterest? || c.CorrectInterest?
  }

  // What a command asks of the account before it looks at its status.
  predicate Allowed(b: Books, c: Command)
    requires c.Amend? || c.Reverse? ==> 1 <= c.sequence <= |b.ledger|
  {
    match c
    case FreezeAccount => b.standing == Active || b.standing == Suspended
    case CloseAccount => (b.standing == Active || b.standing == Suspended) && b.balance.cents == 0
    case Unfreeze => b.standing == Active
    case Credit(_) => b.standing == Active
    case AccrueInterest(_) => b.standing == Active
    case Debit(amount) => b.standing == Active && amount.cents <= b.balance.cents && amount.cents <= b.dailyLimit
    case ApplyFee(amount) => b.standing == Active && amount.cents <= b.balance.cents
    case CorrectFee(amount) => b.standing == Active && amount.cents <= b.fees
    case CorrectInterest(amount) =>
      b.standing == Active && amount.cents <= b.interest && amount.cents <= b.balance.cents
    case Reverse(sequence) => Stands(b) && !b.ledger[sequence - 1].reversed
    case Amend(sequence, adjustment) =>
      Stands(b) && !b.ledger[sequence - 1].reversed && 0 <= b.ledger[sequence - 1].amount.cents + adjustment.cents
  }

  // The refusals in their order: the argument, the entry named, a fee to correct, the account's rules, its
  // status; and a crash where a sum does not fit, which an amendment comes to before its last rule.
  lemma RefusedInOrder(b: Books, c: Command)
    requires Reachable(b)
    ensures AnswerTo(b, c) ==
            if TakesMoney(c) && (c.amount.cents <= 0 || |c.amount.currency| != 3) then ValueRefused
            else if c.Amend? && |c.adjustment.currency| != 3 then ValueRefused
            else if (c.Amend? || c.Reverse?) && !(1 <= c.sequence <= |b.ledger|) then NotFound
            else if c.CorrectFee? && FeeApplied !in b.events then NothingToCorrect
            else if c.Amend? && Stands(b) && !b.ledger[c.sequence - 1].reversed
                    && !Fits64(b.ledger[c.sequence - 1].amount.cents + c.adjustment.cents) then Crashed
            else if !Allowed(b, c) then GivenNotMet
            else if c.Unfreeze? && b.status != Frozen then LifecycleBlocked
            else if c.CloseAccount? && b.status == Closed then LifecycleBlocked
            else if (TakesMoney(c) || c.FreezeAccount?) && b.status != Open then LifecycleBlocked
            else if TakesMoney(c) && TooMuch(b, c) then Crashed
            else Done
  {
    if c.Amend? || c.Reverse? {
      hide Find;
      FoundByPlace(b.ledger, 1, c.sequence);
    }
  }

  // What the command adds to would not fit.
  predicate TooMuch(b: Books, c: Command)
    requires TakesMoney(c)
  {
    || ((c.Credit? || c.CorrectFee? || c.AccrueInterest?) && b.balance.cents + c.amount.cents > 0x7FFF_FFFF_FFFF_FFFF)
    || (c.ApplyFee? && b.fees + c.amount.cents > 0x7FFF_FFFF_FFFF_FFFF)
    || (c.AccrueInterest? && b.interest + c.amount.cents > 0x7FFF_FFFF_FFFF_FFFF)
  }

  // ----- The daily limit, over runs -----

  // What each entry of the ledger was posted at, in order.
  function PostedAt(b: Books, steps: seq<Step>, before: seq<int>): seq<int>
    decreases |steps|
  {
    if steps == [] then before
    else
      var posts := steps[0].Send? && (steps[0].c.Credit? || steps[0].c.Debit?) && AnswerTo(b, steps[0].c) == Done;
      PostedAt(Next(b, steps[0]), steps[1..], if posts then before + [steps[0].c.amount.cents] else before)
  }

  ghost predicate WithinLimit(b: Books, posted: seq<int>) {
    |posted| == |b.ledger|
    && forall i :: 0 <= i < |posted| ==>
        0 < posted[i] && (b.ledger[i].direction == Debited ==> posted[i] <= b.dailyLimit)
  }

  lemma StepWithinLimit(b: Books, step: Step, posted: seq<int>)
    requires Reachable(b) && WithinLimit(b, posted)
    ensures Next(b, step).dailyLimit == b.dailyLimit
    ensures var posts := step.Send? && (step.c.Credit? || step.c.Debit?) && AnswerTo(b, step.c) == Done;
            WithinLimit(Next(b, step), if posts then posted + [step.c.amount.cents] else posted)
  {
    hide AnswerTo;
    if step.Send? && AnswerTo(b, step.c) == Done {
      match step.c {
        case Credit(amount) => MovementsDone(b, amount);
        case Debit(amount) => MovementsDone(b, amount);
        case Amend(sequence, adjustment) => EntryCommandsDone(b, sequence, adjustment);
        case Reverse(sequence) => EntryCommandsDone(b, sequence, Money(0, "USD"));
        case _ =>
      }
    }
  }

  lemma {:induction false} RunWithinLimit(b: Books, steps: seq<Step>, posted: seq<int>)
    requires Reachable(b) && WithinLimit(b, posted)
    ensures Run(b, steps).dailyLimit == b.dailyLimit && WithinLimit(Run(b, steps), PostedAt(b, steps, posted))
    decreases |steps|
  {
    hide AnswerTo, WithinLimit, Reachable, Next;
    if steps != [] {
      StepWithinLimit(b, steps[0], posted);
      StepExplained(b, steps[0]);
      var posts := steps[0].Send? && (steps[0].c.Credit? || steps[0].c.Debit?) && AnswerTo(b, steps[0].c) == Done;
      RunWithinLimit(Next(b, steps[0]), steps[1..], if posts then posted + [steps[0].c.amount.cents] else posted);
    }
  }

  // In every run from its opening, an account's every entry was posted at some amount more than nothing,
  // and none that took money out at more than the daily limit.
  lemma DebitsWithinLimit(dailyLimit: int, customer: Standing, steps: seq<Step>)
    ensures var after, posted :=
            Run(Opened(dailyLimit, customer), steps), PostedAt(Opened(dailyLimit, customer), steps, []);
            && |posted| == |after.ledger|
            && forall i :: 0 <= i < |posted| ==>
                0 < posted[i] && (after.ledger[i].direction == Debited ==> posted[i] <= dailyLimit)
  {
    RunWithinLimit(Opened(dailyLimit, customer), steps, []);
  }

  // Commands that were not carried out may be left out of a history: the rest replays to the same account.
  function CarriedOut(b: Books, steps: seq<Step>): seq<Step>
    decreases |steps|
  {
    if steps == [] then []
    else (if steps[0].Send? && AnswerTo(b, steps[0].c) != Done then [] else [steps[0]])
         + CarriedOut(Next(b, steps[0]), steps[1..])
  }

  lemma {:induction false} ReplayAgrees(b: Books, steps: seq<Step>)
    ensures Run(b, CarriedOut(b, steps)) == Run(b, steps)
    ensures |Run(b, steps).events| <= |b.events| + |CarriedOut(b, steps)|
    decreases |steps|
  {
    if steps != [] {
      var rest := CarriedOut(Next(b, steps[0]), steps[1..]);
      ReplayAgrees(Next(b, steps[0]), steps[1..]);
      if steps[0].Send? && AnswerTo(b, steps[0].c) != Done {
        assert [] + rest == rest;
      } else {
        assert ([steps[0]] + rest)[1..] == rest;
      }
    }
  }

  lemma EntriesAreFound(b: Books, c: Command)
    requires AnswerTo(b, c) == Done
    ensures c.Amend? || c.Reverse? ==> Find(b.ledger, c.sequence).Some?
  {
  }

  // ----- The record a dispatch updates in place -----

  class Record {
    var balance: Money
    var dailyLimit: int
    var ledger: seq<Entry>
    var fees: int
    var interest: int
    var status: Status
    var standing: Standing
    var customer: Standing
    var events: seq<Event>

    ghost function State(): Books
      reads this
    {
      Books(balance, dailyLimit, ledger, fees, interest, status, standing, customer, events)
    }

    constructor (dailyLimit: int, customer: Standing)
      ensures State() == Opened(dailyLimit, customer)
    {
      this.dailyLimit, this.standing, this.customer := dailyLimit, customer, customer;
      balance, ledger := Money(0, "USD"), [];
      fees, interest := 0, 0;
      status, events := Open, [AccountOpened];
    }

    // The sequence an append without one is given.
    method MintSequence() returns (sequence: int)
      ensures sequence == NextSequence(ledger)
    {
      var highest := 0;
      var k := 0;
      while k < |ledger|
        invariant 0 <= k <= |ledger|
        invariant highest == Highest(ledger[..k])
      {
        if k == 0 || ledger[k].sequence > highest {
          highest := ledger[k].sequence;
        }
        assert ledger[..k + 1][..k] == ledger[..k];
        k := k + 1;
      }
      assert ledger[..k] == ledger;
      sequence := highest + 1;
    }

    method Post(amount: Money, direction: Direction)
      modifies this`ledger
      ensures ledger == Posted(old(ledger), amount, direction)
    {
      var sequence := MintSequence();
      ledger := ledger + [Entry(sequence, amount, direction, false)];
    }

    method Rewrite(sequence: int, cents: int, reverses: bool)
      requires Find(ledger, sequence).Some?
      modifies this`ledger
      ensures var at := Find(old(ledger), sequence).value; var e := old(ledger)[at];
              ledger == old(ledger)[at := e.(amount := Money(e.amount.cents + cents, e.amount.currency),
                  reversed := e.reversed || reverses)]
    {
      var at := Find(ledger, sequence).value;
      var e := ledger[at];
      ledger := ledger[at := e.(amount := Money(e.amount.cents + cents, e.amount.currency), reversed := e.reversed
          || reverses)];
    }

    // One dispatch: the rules in their order, then the writes, then the event.
    method Dispatch(c: Command) returns (answer: Answer)
      modifies this
      ensures answer == AnswerTo(old(State()), c)
      ensures State() == After(old(State()), c)
    {
      hide EventOf, AnswerTo, Find, Posted, NextSequence, Highest;
      ghost var before := State();
      answer := AnswerTo(Books(balance, dailyLimit, ledger, fees, interest, status, standing, customer, events), c);
      if answer != Done {
        return;
      }
      EntriesAreFound(before, c);
      balance := balance.(cents := balance.cents + BalanceMove(c));
      match c {
        case Credit(amount) => Post(amount, Credited);
        case Debit(amount) => Post(amount, Debited);
        case FreezeAccount => status := Frozen;
        case Unfreeze => status := Open;
        case CloseAccount => status := Closed;
        case ApplyFee(amount) => fees := fees + amount.cents;
        case CorrectFee(amount) => fees := fees - amount.cents;
        case AccrueInterest(amount) => interest := interest + amount.cents;
        case CorrectInterest(amount) => interest := interest - amount.cents;
        case Amend(sequence, adjustment) => Rewrite(sequence, adjustment.cents, false);
        case Reverse(sequence) => Rewrite(sequence, 0, true);
      }
      standing := StandingAfter(standing, customer, c);
      events := events + [EventOf(c)];
    }
  }
}
