/** The account ledger of BankingCore.py: three account variants that share
    deposit and differ in how far withdraw may take the balance, interest
    accrual as a derived deposit, and a withdraw-then-deposit transfer.

    Amounts are exact reals (no floating-point rounding). The Python class
    hierarchy becomes one class whose constant `kind` selects the variant. */
module Banking {

  /** The account variant and its construction-time parameter. */
  datatype Kind =
    | Basic                              // BankAccount
    | Savings(interestRate: real)        // SavingsAccount
    | Current(overdraftLimit: real)      // CurrentAccount

  /** The defaults of `SavingsAccount(..., interest_rate=0.01)` and
      `CurrentAccount(..., overdraft_limit=500)`. */
  const DefaultInterestRate: real := 0.01
  const DefaultOverdraftLimit: real := 500.0

  /** The lowest balance a successful withdraw may leave behind. */
  function Floor(kind: Kind): real
  {
    match kind
    case Basic => 0.0
    case Savings(_) => 0.0
    case Current(limit) => -limit
  }

  /** What an operation reports and the balance it leaves. */
  datatype Outcome = Outcome(ok: bool, balance: real)

  /** `deposit`: a non-positive amount is rejected, anything else is added. */
  function DepositStep(balance: real, amount: real): (r: Outcome)
    ensures r.ok <==> amount > 0.0
    ensures r.balance >= balance
    ensures r.balance - balance == (if r.ok then amount else 0.0)
  {
    if amount <= 0.0 then Outcome(false, balance)
    else Outcome(true, balance + amount)
  }

  /** `withdraw` of BankAccount (inherited by SavingsAccount) and the override
      of CurrentAccount. Whatever the variant, a withdraw succeeds exactly when
      the amount is positive and does not take the balance below the floor. */
  function WithdrawStep(kind: Kind, balance: real, amount: real): (r: Outcome)
    ensures r.ok <==> 0.0 < amount <= balance - Floor(kind)
    ensures r.balance == (if r.ok then balance - amount else balance)
    ensures r.ok ==> r.balance >= Floor(kind)
    ensures balance >= Floor(kind) ==> r.balance >= Floor(kind)
  {
    if amount <= 0.0 then Outcome(false, balance)
    else match kind
      case Current(limit) =>
        if amount > balance + limit then Outcome(false, balance)
        else Outcome(true, balance - amount)
      case _ =>
        if amount > balance then Outcome(false, balance)
        else Outcome(true, balance - amount)
  }

  /** `apply_interest`: the interest `balance * rate` goes through the
      ordinary deposit, so a zero or negative interest is silently dropped. */
  function InterestStep(rate: real, balance: real): (r: Outcome)
    ensures balance * rate > 0.0 ==> r.ok && r.balance == balance + balance * rate
    ensures balance * rate <= 0.0 ==> !r.ok && r.balance == balance
    ensures r.balance >= balance
  {
    DepositStep(balance, balance * rate)
  }

  /** One call on an account, as a value. */
  datatype Op = Deposit(amount: real) | Withdraw(amount: real) | ApplyInterest

  /** `apply_interest` exists only on savings accounts. */
  predicate Supports(kind: Kind, op: Op)
  {
    op.ApplyInterest? ==> kind.Savings?
  }

  /** The effect of one supported call on an account of the given variant:
      a rejected call changes nothing, and no call breaks the floor. */
  function Step(kind: Kind, balance: real, op: Op): (r: Outcome)
    requires Supports(kind, op)
    ensures !r.ok ==> r.balance == balance
    ensures balance >= Floor(kind) ==> r.balance >= Floor(kind)
    ensures (op.Deposit? || op.Withdraw?) && op.amount <= 0.0 ==> !r.ok
  {
    match op
    case Deposit(amount) => DepositStep(balance, amount)
    case Withdraw(amount) => WithdrawStep(kind, balance, amount)
    case ApplyInterest => InterestStep(kind.interestRate, balance)
  }

  /** The balance after a sequence of calls, each on the previous balance. */
  function Run(kind: Kind, balance: real, ops: seq<Op>): real
    requires forall i :: 0 <= i < |ops| ==> Supports(kind, ops[i])
    decreases |ops|
  {
    if ops == [] then balance
    else Run(kind, Step(kind, balance, ops[0]).balance, ops[1..])
  }

  /** The floor holds after any sequence of calls once it holds before:
      `balance >= 0` for basic and savings accounts, `balance >= -limit`
      for current accounts. */
  lemma {:induction false} RunKeepsFloor(kind: Kind, balance: real, ops: seq<Op>)
    requires forall i :: 0 <= i < |ops| ==> Supports(kind, ops[i])
    requires balance >= Floor(kind)
    ensures Run(kind, balance, ops) >= Floor(kind)
    decreases |ops|
  {
    if ops != [] {
      RunKeepsFloor(kind, Step(kind, balance, ops[0]).balance, ops[1..]);
    }
  }

  /** Rejected calls can be dropped from a sequence without changing the
      final balance: a rejection has no effect at all. */
  lemma RunSkipsRejected(kind: Kind, balance: real, op: Op, ops: seq<Op>)
    requires Supports(kind, op)
    requires forall i :: 0 <= i < |ops| ==> Supports(kind, ops[i])
    requires !Step(kind, balance, op).ok
    ensures Run(kind, balance, [op] + ops) == Run(kind, balance, ops)
  {
  }

  /** What a transfer reports and the two balances it leaves. */
  datatype TransferOutcome = TransferOutcome(ok: bool, source: real, destination: real)

  /** `transfer` between two distinct accounts: the destination is credited
      only when the source's withdraw succeeded, and then its deposit cannot
      fail, since the withdraw already required a positive amount. */
  function TransferStep(sourceKind: Kind, source: real, destination: real, amount: real): (r: TransferOutcome)
    ensures r.ok <==> WithdrawStep(sourceKind, source, amount).ok
    ensures r.ok ==> DepositStep(destination, amount).ok
    ensures !r.ok ==> r.source == source && r.destination == destination
    ensures r.ok ==> r.source == source - amount && r.destination == destination + amount
    ensures r.source + r.destination == source + destination
    ensures source >= Floor(sourceKind) ==> r.source >= Floor(sourceKind)
    ensures r.destination >= destination
  {
    var w := WithdrawStep(sourceKind, source, amount);
    if w.ok then TransferOutcome(true, w.balance, DepositStep(destination, amount).balance)
    else TransferOutcome(false, source, destination)
  }

  /** A bank account. The holder name and the variant parameter are constants;
      only the balance changes, and only through the methods below. */
  class Account {
    const holderName: string
    const kind: Kind
    var balance: real

    /** The floor invariant of the account's variant. Construction does not
        establish it (BankingCore.py checks nothing at construction); every
        operation keeps it. */
    ghost predicate Valid()
      reads this
    {
      balance >= Floor(kind)
    }

    /** `__init__` of the three variants; the balance defaults to 0, as there. */
    constructor (holderName: string, kind: Kind, balance: real := 0.0)
      ensures this.holderName == holderName && this.kind == kind
      ensures this.balance == balance
    {
      this.holderName := holderName;
      this.kind := kind;
      this.balance := balance;
    }

    /** `get_balance`: reads the balance and changes nothing. */
    method GetBalance() returns (b: real)
      ensures b == balance
    {
      b := balance;
    }

    /** `deposit`. */
    method Deposit(amount: real) returns (ok: bool)
      modifies this`balance
      ensures Outcome(ok, balance) == DepositStep(old(balance), amount)
      ensures ok <==> amount > 0.0
      ensures balance == (if ok then old(balance) + amount else old(balance))
      ensures old(Valid()) ==> Valid()
    {
      if amount <= 0.0 {
        return false;
      }
      balance := balance + amount;
      return true;
    }

    /** `withdraw`: BankAccount's rule for basic and savings accounts,
        CurrentAccount's overdraft rule for current accounts. */
    method Withdraw(amount: real) returns (ok: bool)
      modifies this`balance
      ensures Outcome(ok, balance) == WithdrawStep(kind, old(balance), amount)
      ensures ok <==> 0.0 < amount <= old(balance) - Floor(kind)
      ensures balance == (if ok then old(balance) - amount else old(balance))
      ensures old(Valid()) ==> Valid()
    {
      if amount <= 0.0 {
        return false;
      }
      if kind.Current? {
        if amount > balance + kind.overdraftLimit {
          return false;
        }
      } else {
        if amount > balance {
          return false;
        }
      }
      balance := balance - amount;
      return true;
    }

    /** `apply_interest` of a savings account. */
    method ApplyInterest()
      requires kind.Savings?
      modifies this`balance
      ensures balance == InterestStep(kind.interestRate, old(balance)).balance
      ensures old(balance) * kind.interestRate > 0.0 ==>
                balance == old(balance) + old(balance) * kind.interestRate
      ensures old(balance) * kind.interestRate <= 0.0 ==> balance == old(balance)
      ensures old(Valid()) ==> Valid()
    {
      var interest := balance * kind.interestRate;
      var _ := Deposit(interest);
    }
  }

  /** `transfer`: withdraw from the source and, only if that succeeded, deposit
      into the destination. `ok` tells which of the two messages is printed.
      Funds are neither created nor destroyed, also when both are one account. */
  method Transfer(source: Account, destination: Account, amount: real) returns (ok: bool)
    modifies source`balance, destination`balance
    ensures source != destination ==>
              TransferOutcome(ok, source.balance, destination.balance)
              == TransferStep(source.kind, old(source.balance), old(destination.balance), amount)
    ensures ok == WithdrawStep(source.kind, old(source.balance), amount).ok
    ensures !ok ==> source.balance == old(source.balance)
                    && destination.balance == old(destination.balance)
    ensures ok && source != destination ==>
              source.balance == old(source.balance) - amount
              && destination.balance == old(destination.balance) + amount
    ensures source == destination ==> source.balance == old(source.balance)
    ensures source.balance + destination.balance
              == old(source.balance) + old(destination.balance)
    ensures old(source.Valid()) ==> source.Valid()
    ensures old(destination.Valid()) ==> destination.Valid()
  {
    ok := source.Withdraw(amount);
    if ok {
      var _ := destination.Deposit(amount);
    }
  }

  /** `SavingsAccount(name, 200)` with the default rate: interest adds 1%,
      while the same account opened at the default balance 0 earns nothing. */
  method DefaultInterest() returns (funded: real, empty: real)
    ensures funded == 202.0 && empty == 0.0
  {
    var a := new Account("", Savings(DefaultInterestRate), 200.0);
    a.ApplyInterest();
    funded := a.GetBalance();
    var b := new Account("", Savings(DefaultInterestRate));
    b.ApplyInterest();
    empty := b.GetBalance();
  }

  /** `CurrentAccount(name)` with every default: balance 0 and an overdraft of
      500, so the floor is -500; a withdraw of exactly 500 goes through and
      any further cent is refused. */
  method DefaultOverdraft() returns (full: bool, beyond: bool, left: real)
    ensures full && !beyond && left == -500.0
  {
    var account := new Account("", Current(DefaultOverdraftLimit));
    assert account.balance == 0.0 && Floor(account.kind) == -500.0;
    full := account.Withdraw(500.0);
    beyond := account.Withdraw(0.01);
    left := account.GetBalance();
  }

  /** The sample session of BankingCore.py's `main`: a savings account at 1000
      with a 5% rate and a current account at 500 with a 300 overdraft. */
  method SampleSession() returns (savings: real, current: real)
    ensures savings == 665.0 && current == 1200.0
  {
    var john := new Account("John Doe", Savings(0.05), 1000.0);
    var jane := new Account("Jane Smith", Current(300.0), 500.0);
    var ok := john.Deposit(500.0);
    assert john.balance == 1500.0;
    ok := john.Withdraw(200.0);
    assert john.balance == 1300.0;
    john.ApplyInterest();
    assert john.balance == 1365.0;
    ok := Transfer(john, jane, 700.0);
    savings := john.GetBalance();
    current := jane.GetBalance();
  }
}
