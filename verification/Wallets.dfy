/** Wallets, as every part of the exchange that moves money sees them. */
module Wallets {
  import opened MapSums

  datatype AccountOf<U> = Account(user: U, currency: string)

  /** Amounts are whole numbers of the currency's smallest unit. */
  datatype Wallet = Wallet(balance: int, locked: int, active: bool)
  {
    function Available(): int { balance - locked }
  }

  const NEW_WALLET := Wallet(0, 0, true)

  /** A wallet that does not exist yet counts as the one that would be created. */
  function WalletOf<U(==)>(wallets: map<AccountOf<U>, Wallet>, a: AccountOf<U>): Wallet {
    if a in wallets then wallets[a] else NEW_WALLET
  }

  function BalanceOf<U(==)>(wallets: map<AccountOf<U>, Wallet>, a: AccountOf<U>): int {
    if a in wallets then wallets[a].balance else 0
  }

  ghost predicate Solvent<U(!new)>(wallets: map<AccountOf<U>, Wallet>) {
    forall a :: a in wallets ==> 0 <= wallets[a].locked <= wallets[a].balance
  }

  /** The sum of all balances in one currency. */
  ghost function Total<U(!new)>(wallets: map<AccountOf<U>, Wallet>, currency: string): int {
    Sum(map a | a in wallets :: if a.currency == currency then wallets[a].balance else 0)
  }

  lemma TotalUpdate<U(!new)>(wallets: map<AccountOf<U>, Wallet>, a: AccountOf<U>, w: Wallet, currency: string)
    ensures Total(wallets[a := w], currency) == Total(wallets, currency) +
            (if a.currency == currency then w.balance - WalletOf(wallets, a).balance else 0)
  {
    var m := map x | x in wallets :: if x.currency == currency then wallets[x].balance else 0;
    var v := if a.currency == currency then w.balance else 0;
    var wallets' := wallets[a := w];
    SumUpdate(m, a, v);
    assert (map x | x in wallets' :: if x.currency == currency then wallets'[x].balance else 0) == m[a := v];
  }
}
