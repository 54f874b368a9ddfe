/**
  The classes of Python/14_OOPS.py that carry logic: `Car.describe`, the
  `BankAccount` with its guarded withdrawal, and `Product` with its
  validating `price` setter. Objects are immutable values here: a method
  that mutates `self` returns the updated value.
 */
module Oops {
  import opened Wrappers
  import opened Text
  import opened IntText

  // ---------------------------------------------------------------
  // Car
  // ---------------------------------------------------------------

  datatype Car = Car(make: string, model: string, year: int)

  /** `f"{self.year} {self.make} {self.model}"`. */
  function Describe(car: Car): (r: string)
    ensures |r| == |Show(car.year)| + |car.make| + |car.model| + 2
    ensures r[..|Show(car.year)|] == Show(car.year)
    ensures r[|r| - |car.model|..] == car.model
    ensures r[|Show(car.year)|] == ' ' && r[|r| - |car.model| - 1] == ' '
    ensures r[|Show(car.year)| + 1..|r| - |car.model| - 1] == car.make
  {
    Show(car.year) + " " + car.make + " " + car.model
  }

  /** When make and model are single words, the description splits back
      into year, make and model, and the year reads back as a number. */
  lemma DescribeFields(car: Car)
    requires IsWord(car.make) && IsWord(car.model)
    ensures Split(Describe(car)) == [Show(car.year), car.make, car.model]
    ensures ParseInt(Split(Describe(car))[0]) == Some(car.year)
  {
    var ws := [Show(car.year), car.make, car.model];
    assert AllWords(ws);
    SplitJoin(ws);
    JoinThree(Show(car.year), car.make, car.model);
    ShowParse(car.year);
  }

  lemma JoinThree(a: string, b: string, c: string)
    ensures JoinWords([a, b, c]) == a + " " + b + " " + c
  {
    var ws := [a, b, c];
    assert ws[1..] == [b, c] && ws[1..][1..] == [c];
    assert JoinWords(ws[1..]) == b + " " + c;
  }

  lemma DescribeExample(car: Car)
    requires car == Car("Toyota", "Camry", 2022)
    ensures Describe(car) == "2022 Toyota Camry"
  {
    assert Show(2022) == "2022" by {
      assert ShowNat(2) == "2";
      assert ShowNat(20) == "20";
      assert ShowNat(202) == "202";
    }
  }

  // ---------------------------------------------------------------
  // BankAccount
  // ---------------------------------------------------------------

  datatype Account = Account(owner: string, balance: int)

  const InsufficientFunds := "Insufficient funds."

  /** `BankAccount(owner, balance=0)`: the balance defaults to zero. */
  function Open(owner: string, balance: int := 0): (a: Account)
    ensures a.owner == owner && a.balance == balance
  {
    Account(owner, balance)
  }

  function DepositMessage(amount: int, balance: int): string {
    "$" + Show(amount) + " deposited. New balance: $" + Show(balance)
  }

  function WithdrawMessage(amount: int, balance: int): string {
    "$" + Show(amount) + " withdrawn. New balance: $" + Show(balance)
  }

  /** `deposit`: the balance grows by exactly `amount`; the message
      reports the amount and the new balance. Python checks nothing, so a
      negative amount lowers the balance. */
  function Deposit(a: Account, amount: int): (r: (Account, string))
    ensures r.0.owner == a.owner
    ensures r.0.balance - a.balance == amount
    ensures r.1 == DepositMessage(amount, r.0.balance)
  {
    var after := a.(balance := a.balance + amount);
    (after, DepositMessage(amount, after.balance))
  }

  /** `withdraw`: refused, with the account untouched, when `amount`
      exceeds the balance; otherwise the balance drops by exactly
      `amount` and so never goes below zero. */
  function Withdraw(a: Account, amount: int): (r: (Account, string))
    ensures amount > a.balance ==> r.0 == a && r.1 == InsufficientFunds
    ensures amount <= a.balance ==> r.0.owner == a.owner && a.balance - r.0.balance == amount
    ensures amount <= a.balance ==> r.0.balance >= 0 && r.1 == WithdrawMessage(amount, r.0.balance)
  {
    if amount > a.balance then (a, InsufficientFunds)
    else
      var after := a.(balance := a.balance - amount);
      (after, WithdrawMessage(amount, after.balance))
  }

  /** Withdrawing what was just deposited restores the account, as long
      as the balance was not negative to begin with. */
  lemma DepositThenWithdraw(a: Account, amount: int)
    requires a.balance >= 0
    ensures Withdraw(Deposit(a, amount).0, amount).0 == a
  {
  }

  /** A successful withdrawal is undone by depositing the same amount. */
  lemma WithdrawThenDeposit(a: Account, amount: int)
    requires amount <= a.balance
    ensures Deposit(Withdraw(a, amount).0, amount).0 == a
  {
  }

  datatype Transaction = DepositOf(amount: int) | WithdrawalOf(amount: int)

  /** The account after the transactions, applied in order. */
  function Apply(a: Account, ts: seq<Transaction>): Account
    decreases |ts|
  {
    if |ts| == 0 then a
    else
      var next := match ts[0]
        case DepositOf(x) => Deposit(a, x).0
        case WithdrawalOf(x) => Withdraw(a, x).0;
      Apply(next, ts[1..])
  }

  /** Starting from a non-negative balance and depositing only
      non-negative amounts, the balance is never negative, however the
      withdrawals go. */
  lemma {:induction false} BalanceStaysNonNegative(a: Account, ts: seq<Transaction>)
    requires a.balance >= 0
    requires forall i :: 0 <= i < |ts| && ts[i].DepositOf? ==> ts[i].amount >= 0
    ensures Apply(a, ts).balance >= 0
    ensures Apply(a, ts).owner == a.owner
    decreases |ts|
  {
    if |ts| > 0 {
      var next := match ts[0]
        case DepositOf(x) => Deposit(a, x).0
        case WithdrawalOf(x) => Withdraw(a, x).0;
      assert next.balance >= 0;
      assert forall i :: 0 <= i < |ts[1..]| && ts[1..][i].DepositOf? ==> ts[1..][i].amount >= 0 by {
        forall i | 0 <= i < |ts[1..]| && ts[1..][i].DepositOf?
          ensures ts[1..][i].amount >= 0
        {
          assert ts[1..][i] == ts[i + 1];
        }
      }
      BalanceStaysNonNegative(next, ts[1..]);
    }
  }

  /** The tutorial's session: 1000, deposit 500, withdraw 200. */
  lemma AccountSession(owner: string)
    ensures Open(owner).balance == 0
    ensures var a := Open(owner, 1000);
      && Deposit(a, 500).0.balance == 1500
      && Withdraw(Deposit(a, 500).0, 200).0.balance == 1300
      && Withdraw(Deposit(a, 500).0, 2000).1 == InsufficientFunds
  {
  }

  // ---------------------------------------------------------------
  // Product
  // ---------------------------------------------------------------

  /** `Product(name, price)`; the constructor stores `price` unchecked. */
  datatype Product = Product(name: string, price: int)

  const NegativePrice := "Price cannot be negative."

  /** The `price` setter: a negative value raises `ValueError` and the
      product keeps its old price; any other value is stored. */
  function SetPrice(p: Product, value: int): (r: (Product, Option<string>))
    ensures value < 0 ==> r.0 == p && r.1 == Some(NegativePrice)
    ensures value >= 0 ==> r.0.name == p.name && r.0.price == value && r.1 == None
  {
    if value < 0 then (p, Some(NegativePrice))
    else (p.(price := value), None)
  }

  /** Only the last accepted assignment matters: a rejected one changes
      nothing, and an accepted one overrides everything before it. */
  lemma SetPriceLastWins(p: Product, v1: int, v2: int)
    ensures v2 >= 0 ==> SetPrice(SetPrice(p, v1).0, v2).0 == SetPrice(p, v2).0
    ensures v2 < 0 ==> SetPrice(SetPrice(p, v1).0, v2).0 == SetPrice(p, v1).0
  {
  }

  /** The `price` property getter. Assigning back the price just read is
      accepted and changes nothing whenever the stored price is valid. */
  function Price(p: Product): (v: int)
    ensures Product(p.name, v) == p
    ensures v >= 0 ==> SetPrice(p, v) == (p, None)
  {
    p.price
  }

  /** Reading the price back after an accepted assignment gives the value
      assigned. */
  lemma GetAfterSet(p: Product, value: int)
    requires value >= 0
    ensures Price(SetPrice(p, value).0) == value
  {
  }

  /** The tutorial's product: 1000, then set to 1200; -500 is refused. */
  lemma ProductSession(name: string)
    ensures var p := Product(name, 1000);
      && p.price == 1000
      && SetPrice(p, 1200).0.price == 1200
      && SetPrice(SetPrice(p, 1200).0, -500).0.price == 1200
  {
  }
}
