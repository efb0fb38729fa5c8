/** The order domain's view of the wallets: balances, the part of them that is locked, and settlement. */
module OrderWallets {
  import opened Wallets
  import opened Wrappers

  type Account = AccountOf<string>

  type Accounts = map<Account, Wallet>

  datatype WalletError = WalletNotFound | InsufficientBalance

  /** What one party of a trade gives and gets; `unlock` if what it gives had been locked before. */
  datatype Leg = Leg(user: string, spentCurrency: string, spent: int, receivedCurrency: string, received: int,
          unlock: bool)
  {
    function Source(): Account { Account(user, spentCurrency) }

    function Target(): Account { Account(user, receivedCurrency) }
  }

  function AvailableOf(accounts: Accounts, a: Account): int {
    if a in accounts then accounts[a].Available() else 0
  }

  function LockedOf(accounts: Accounts, a: Account): int {
    if a in accounts then accounts[a].locked else 0
  }

  function Less(locked: int, amount: int): int {
    if locked < amount then 0 else locked - amount
  }

  function Lock(accounts: Accounts, a: Account, amount: int): Result<Accounts, WalletError> {
    if a !in accounts then Err(WalletNotFound)
    else if accounts[a].Available() < amount then Err(InsufficientBalance)
    else Ok(accounts[a := accounts[a].(locked := accounts[a].locked + amount)])
  }

  function Unlock(accounts: Accounts, a: Account, amount: int): Accounts {
    if a !in accounts then accounts
    else accounts[a := accounts[a].(locked := Less(accounts[a].locked, amount))]
  }

  function Refusal(accounts: Accounts, leg: Leg): Option<WalletError> {
    if leg.Source() !in accounts then Some(WalletNotFound)
    else if !leg.unlock && accounts[leg.Source()].Available() < leg.spent then Some(InsufficientBalance)
    else None
  }

  function Debited(accounts: Accounts, leg: Leg): Accounts
    requires leg.Source() in accounts
  {
    var w := accounts[leg.Source()];
    accounts[leg.Source() :=
      w.(balance := w.balance - leg.spent, locked := if leg.unlock then Less(w.locked, leg.spent) else w.locked)]
  }

  function Credited(accounts: Accounts, leg: Leg): Accounts {
    var w := WalletOf(accounts, leg.Target());
    accounts[leg.Target() := w.(balance := w.balance + leg.received)]
  }

  function Process(accounts: Accounts, leg: Leg): Result<Accounts, WalletError> {
    var refusal := Refusal(accounts, leg);
    if refusal.Some? then Err(refusal.value) else Ok(Credited(Debited(accounts, leg), leg))
  }

  /** Both legs, or neither. */
  function Settle(accounts: Accounts, maker: Leg, taker: Leg): Result<Accounts, WalletError> {
    match Process(accounts, maker)
    case Err(e) => Err(e)
    case Ok(a) => Process(a, taker)
  }

  class OrderWalletAdapter {
    var accounts: Accounts

    constructor (accounts: Accounts)
      ensures this.accounts == accounts
    {
      this.accounts := accounts;
    }

    method AvailableBalance(user: string, currency: string) returns (available: int)
      ensures available == AvailableOf(accounts, Account(user, currency))
    {
      var a := Account(user, currency);
      if a !in accounts {
        return 0;
      }
      return accounts[a].Available();
    }

    method LockBalance(user: string, currency: string, amount: int) returns (error: Option<WalletError>)
      modifies this
      ensures match Lock(old(accounts), Account(user, currency), amount)
        case Ok(a) => error == None && accounts == a
        case Err(e) => error == Some(e) && accounts == old(accounts)
    {
      var a := Account(user, currency);
      if a !in accounts {
        return Some(WalletNotFound);
      }
      var w := accounts[a];
      if w.Available() < amount {
        return Some(InsufficientBalance);
      }
      accounts := accounts[a := w.(locked := w.locked + amount)];
      return None;
    }

    method UnlockBalance(user: string, currency: string, amount: int)
      modifies this
      ensures accounts == Unlock(old(accounts), Account(user, currency), amount)
    {
      var a := Account(user, currency);
      if a !in accounts {
        return;
      }
      var newLocked := accounts[a].locked - amount;
      if newLocked < 0 {
        newLocked := 0;
      }
      accounts := accounts[a := accounts[a].(locked := newLocked)];
    }

    /** Debits and credits one party, step by step; a refusal leaves what was written so far. */
    method ProcessUser(leg: Leg) returns (error: Option<WalletError>)
      modifies this
      ensures match Process(old(accounts), leg)
        case Ok(a) => error == None && accounts == a
        case Err(e) => error == Some(e) && accounts == old(accounts)
    {
      if leg.Source() !in accounts {
        return Some(WalletNotFound);
      }
      var spend := accounts[leg.Source()];
      var newLocked := spend.locked;
      if leg.unlock {
        newLocked := newLocked - leg.spent;
        if newLocked < 0 {
          newLocked := 0;
        }
      } else if spend.Available() < leg.spent {
        return Some(InsufficientBalance);
      }
      accounts := accounts[leg.Source() := spend.(balance := spend.balance - leg.spent, locked := newLocked)];
      if leg.Target() !in accounts {
        accounts := accounts[leg.Target() := NEW_WALLET];
      }
      var receive := accounts[leg.Target()];
      accounts := accounts[leg.Target() := receive.(balance := receive.balance + leg.received)];
      return None;
    }

    /** Settles a trade inside one transaction: a refused taker also undoes what the maker's leg wrote. */
    method SettleTrade(maker: Leg, taker: Leg) returns (error: Option<WalletError>)
      modifies this
      ensures match Settle(old(accounts), maker, taker)
        case Ok(a) => error == None && accounts == a
        case Err(e) => error == Some(e) && accounts == old(accounts)
    {
      var before := accounts;
      error := ProcessUser(maker);
      if error == None {
        error := ProcessUser(taker);
      }
      if error.Some? {
        accounts := before;
      }
    }
  }

  // ----- what settlement keeps

  lemma ProcessTotal(accounts: Accounts, leg: Leg, currency: string)
    requires Process(accounts, leg).Ok?
    ensures Total(Process(accounts, leg).value, currency) == Total(accounts, currency)
            - (if leg.spentCurrency == currency then leg.spent else 0)
            + (if leg.receivedCurrency == currency then leg.received else 0)
  {
    var debited := Debited(accounts, leg);
    TotalUpdate(accounts, leg.Source(), debited[leg.Source()], currency);
    TotalUpdate(debited, leg.Target(), Credited(debited, leg)[leg.Target()], currency);
  }

  /** What either party gives is what the other one gets. */
  predicate Mirrored(maker: Leg, taker: Leg) {
    && maker.spentCurrency == taker.receivedCurrency && maker.spent == taker.received
    && maker.receivedCurrency == taker.spentCurrency && maker.received == taker.spent
  }

  /** A settlement moves money between wallets and neither makes nor destroys any, whatever the amounts. */
  lemma SettleConserves(accounts: Accounts, maker: Leg, taker: Leg, currency: string)
    requires Mirrored(maker, taker) && Settle(accounts, maker, taker).Ok?
    ensures Total(Settle(accounts, maker, taker).value, currency) == Total(accounts, currency)
  {
    ProcessTotal(accounts, maker, currency);
    ProcessTotal(Process(accounts, maker).value, taker, currency);
  }

  lemma LockConserves(accounts: Accounts, a: Account, amount: int, currency: string)
    ensures Lock(accounts, a, amount).Ok? ==>
      Total(Lock(accounts, a, amount).value, currency) == Total(accounts, currency)
    ensures Total(Unlock(accounts, a, amount), currency) == Total(accounts, currency)
  {
    if a in accounts {
      TotalUpdate(accounts, a, accounts[a].(locked := accounts[a].locked + amount), currency);
      TotalUpdate(accounts, a, accounts[a].(locked := Less(accounts[a].locked, amount)), currency);
    }
  }

  /** Whether a leg finds what it needs: locked before if it unlocks, and else available. */
  predicate Funded(accounts: Accounts, leg: Leg) {
    && leg.spent >= 0 && leg.received >= 0 && leg.Source() in accounts
    && leg.spent <= if leg.unlock then accounts[leg.Source()].locked else accounts[leg.Source()].Available()
  }

  /** A funded leg is processed without clamping: exactly what it spends leaves the locked part or the available one. */
  lemma ProcessFunded(accounts: Accounts, leg: Leg)
    requires Solvent(accounts) && Funded(accounts, leg)
    ensures Process(accounts, leg).Ok?
    ensures var after := Process(accounts, leg).value;
      && Solvent(after) && accounts.Keys <= after.Keys
      && (forall a :: LockedOf(after, a) == LockedOf(accounts, a) - if leg.unlock && a == leg.Source() then leg.spent
           else 0)
      && (forall a :: AvailableOf(after, a) == AvailableOf(accounts, a)
            - (if !leg.unlock && a == leg.Source() then leg.spent else 0) +
              (if a == leg.Target() then leg.received else 0))
  {
  }
}
