/**
 Transfers between users' wallets, many at a time. Each locks two wallet rows in the order of
 their users' ids, reads them, and writes what it read plus or minus the amount.
 */
module Transfers {
  import opened Wallets
  import opened Wrappers

  /** Of user ids only their order matters. */
  type UserId = nat

  type Account = AccountOf<UserId>

  type Table = map<Account, Wallet>

  datatype Move = Move(from: UserId, to: UserId, currency: string, amount: int)
  {
    function Sender(): Account { Account(from, currency) }

    function Receiver(): Account { Account(to, currency) }

    function First(): Account { if from > to then Receiver() else Sender() }

    function Second(): Account { if from > to then Sender() else Receiver() }
  }

  datatype TransferError = InvalidAmount | UnknownAddress | ToSelf | Suspended | InsufficientBalance

  // ----- one transfer by itself

  /** Why a transfer between two rows does not happen. */
  function Refusal(t: Move, sender: Wallet, receiver: Wallet): Option<TransferError> {
    if !sender.active || !receiver.active then Some(Suspended)
    else if sender.Available() < t.amount then Some(InsufficientBalance)
    else None
  }

  function Written(table: Table, t: Move, sender: Wallet, receiver: Wallet): Table {
    table[t.Sender() := sender.(balance := sender.balance - t.amount)]
      [t.Receiver() := receiver.(balance := receiver.balance + t.amount)]
  }

  /** A transfer in one step: nothing, or the amount from one wallet to the other. */
  function Transferred(table: Table, t: Move): Table {
    var sender, receiver := WalletOf(table, t.Sender()), WalletOf(table, t.Receiver());
    if Refusal(t, sender, receiver).Some? then table else Written(table, t, sender, receiver)
  }

  function LockedOf(table: Table, a: Account): int { if a in table then table[a].locked else 0 }

  predicate Active(table: Table, a: Account) { a in table ==> table[a].active }

  /** A transfer is refused for a suspended wallet, or else for more than the sender has and has not locked. */
  lemma RefusedExactly(table: Table, t: Move)
    ensures var from, to := Account(t.from, t.currency), Account(t.to, t.currency);
      Refusal(t, WalletOf(table, from), WalletOf(table, to)) ==
      if !(Active(table, from) && Active(table, to)) then Some(Suspended)
      else if t.amount > BalanceOf(table, from) - LockedOf(table, from) then Some(InsufficientBalance)
      else None
  {
  }

  /** Both wallets are active, and the amount is there. */
  predicate Goes(table: Table, t: Move) {
    var from, to := Account(t.from, t.currency), Account(t.to, t.currency);
    Active(table, from) && Active(table, to) && t.amount <= BalanceOf(table, from) - LockedOf(table, from)
  }

  /** Only these two wallets are written. */
  lemma WritesTwo(table: Table, t: Move, sender: Wallet, receiver: Wallet)
    requires t.from != t.to
    ensures var after, from, to := Written(table, t, sender, receiver), t.Sender(), t.Receiver();
      && from != to && from in after && after[from] == sender.(balance := sender.balance - t.amount)
      && to in after && after[to] == receiver.(balance := receiver.balance + t.amount)
      && forall a :: a != from && a != to ==> (a in after <==> a in table) && (a in after ==> after[a] == table[a])
  {
  }

  lemma TransferredIf(table: Table, t: Move)
    ensures Transferred(table, t) ==
      if Goes(table, t) then Written(table, t, WalletOf(table, t.Sender()), WalletOf(table, t.Receiver())) else table
  {
    hide Written;
    RefusedExactly(table, t);
  }

  /** One that goes through takes the amount from the one and gives it to the other; any other changes nothing. */
  lemma MovesExactly(table: Table, t: Move, a: Account)
    requires t.from != t.to
    ensures !Goes(table, t) ==> Transferred(table, t) == table
    ensures BalanceOf(Transferred(table, t), a) == BalanceOf(table, a) +
      if !Goes(table, t) then 0
      else if a == Account(t.from, t.currency) then -t.amount
      else if a == Account(t.to, t.currency) then t.amount
      else 0
    ensures LockedOf(Transferred(table, t), a) == LockedOf(table, a)
    ensures Active(Transferred(table, t), a) <==> Active(table, a)
  {
    var from, to := t.Sender(), t.Receiver();
    TransferredIf(table, t);
    hide Transferred;
    if Goes(table, t) {
      hide Goes;
      WritesTwo(table, t, WalletOf(table, from), WalletOf(table, to));
      hide Written;
    }
  }

  /** Once both wallets exist, they are as they counted before, and writing them forgets that one was created. */
  lemma CreatedBoth(table: Table, t: Move, created: Table)
    requires t.from != t.to
    requires created == table[t.First() := WalletOf(table, t.First())][t.Second() := WalletOf(table, t.Second())]
    ensures t.Sender() in created && created[t.Sender()] == WalletOf(table, t.Sender())
    ensures t.Receiver() in created && created[t.Receiver()] == WalletOf(table, t.Receiver())
    ensures forall sender, receiver :: Written(created, t, sender, receiver) == Written(table, t, sender, receiver)
  {
  }

  datatype Record = Record(account: Account, amount: int, before: int, after: int)

  class WalletUsecase {
    var table: Table
    var log: seq<Record>
    const addresses: map<string, UserId>

    constructor (table: Table, addresses: map<string, UserId>)
      ensures this.table == table && this.addresses == addresses && log == []
    {
      this.table, this.addresses, log := table, addresses, [];
    }

    /** The wallet of a user, which is created if there is none. */
    method GetOrCreate(a: Account)
      modifies this`table
      ensures table == old(table)[a := WalletOf(old(table), a)]
    {
      if a !in table {
        table := table[a := NEW_WALLET];
      }
      assert table == old(table)[a := WalletOf(old(table), a)];
    }

    /** A refused transfer leaves nothing behind, the wallets it would have created included. */
    method Transfer(from: UserId, address: string, currency: string, amount: int) returns (error: Option<TransferError>)
      modifies this
      ensures error == (if amount <= 0 then Some(InvalidAmount)
                        else if address !in addresses then Some(UnknownAddress)
                        else if addresses[address] == from then Some(ToSelf)
                        else var t := Move(from, addresses[address], currency, amount);
                          Refusal(t, WalletOf(old(table), t.Sender()), WalletOf(old(table), t.Receiver())))
      ensures amount > 0 && address in addresses && addresses[address] != from ==>
        var sender, receiver := Account(from, currency), Account(addresses[address], currency);
        error == if !(Active(old(table), sender) && Active(old(table), receiver)) then Some(Suspended)
                 else if amount > BalanceOf(old(table), sender) - LockedOf(old(table), sender)
                 then Some(InsufficientBalance)
                 else None
      ensures error.Some? ==> table == old(table) && log == old(log)
      ensures error.None? ==>
        var t := Move(from, addresses[address], currency, amount);
        && table == Transferred(old(table), t)
        && log == old(log) +
             [Record(t.Sender(), amount, WalletOf(old(table), t.Sender()).balance, table[t.Sender()].balance),
              Record(t.Receiver(), amount, WalletOf(old(table), t.Receiver()).balance, table[t.Receiver()].balance)]
    {
      if amount <= 0 {
        return Some(InvalidAmount);
      }
      if address !in addresses {
        return Some(UnknownAddress);
      }
      var to := addresses[address];
      if from == to {
        return Some(ToSelf);
      }
      var t := Move(from, to, currency, amount);
      RefusedExactly(table, t);
      hide Active;
      hide BalanceOf;
      hide LockedOf;
      var before := table;
      var firstId, secondId := from, to;
      if firstId > secondId {
        firstId, secondId := secondId, firstId;
      }
      GetOrCreate(Account(firstId, currency));
      GetOrCreate(Account(secondId, currency));
      CreatedBoth(before, t, table);
      hide WalletOf;
      var first, second := table[Account(firstId, currency)], table[Account(secondId, currency)];
      var sender, receiver;
      if firstId == from {
        sender, receiver := first, second;
      } else {
        sender, receiver := second, first;
      }
      if !sender.active || !receiver.active {
        table := before;
        return Some(Suspended);
      }
      if sender.Available() < amount {
        table := before;
        return Some(InsufficientBalance);
      }
      var newSender, newReceiver := sender.balance - amount, receiver.balance + amount;
      assert Written(table, t, sender, receiver) == Transferred(before, t);
      table := table[t.Sender() := sender.(balance := newSender)];
      table := table[t.Receiver() := receiver.(balance := newReceiver)];
      log := log + [Record(t.Sender(), amount, sender.balance, newSender)];
      log := log + [Record(t.Receiver(), amount, receiver.balance, newReceiver)];
      return None;
    }
  }

  // ----- many transfers at once

  datatype Phase = Starting | HoldingOne | HoldingBoth | Committed | Aborted

  /** A transfer under way, with the rows it read when it locked them. */
  datatype Process = Process(transfer: Move, phase: Phase, first: Wallet, second: Wallet)
  {
    predicate Done() { phase == Committed || phase == Aborted }

    predicate Holds(a: Account) {
      (a == transfer.First() && (phase == HoldingOne || phase == HoldingBoth)) ||
        (a == transfer.Second() && phase == HoldingBoth)
    }

    /** The row whose lock it is going to take next. */
    predicate Wants(a: Account) {
      (phase == Starting && a == transfer.First()) || (phase == HoldingOne && a == transfer.Second())
    }

    function ReadOf(a: Account): Wallet { if a == transfer.First() then first else second }
  }

  /** Rows, the lock on each locked row, and the processes. */
  datatype State = State(table: Table, owner: map<Account, nat>, processes: seq<Process>)

  /** What process `p` can do, if it can do anything: take a free lock, or decide and release both. */
  function Next(s: State, p: nat): Option<State>
    requires p < |s.processes|
  {
    var x := s.processes[p];
    var t := x.transfer;
    match x.phase
    case Starting =>
      if t.First() in s.owner then None
      else Some(s.(owner := s.owner[t.First() := p],
                   processes := s.processes[p := x.(phase := HoldingOne, first := WalletOf(s.table, t.First()))]))
    case HoldingOne =>
      if t.Second() in s.owner then None
      else Some(s.(owner := s.owner[t.Second() := p],
                   processes := s.processes[p := x.(phase := HoldingBoth, second := WalletOf(s.table, t.Second()))]))
    case HoldingBoth =>
      var sender, receiver := x.ReadOf(t.Sender()), x.ReadOf(t.Receiver());
      var owner := s.owner - {t.First(), t.Second()};
      if Refusal(t, sender, receiver).Some? then
        Some(State(s.table, owner, s.processes[p := x.(phase := Aborted)]))
      else
        Some(State(Written(s.table, t, sender, receiver), owner, s.processes[p := x.(phase := Committed)]))
    case _ => None
  }

  /** Locks and holders agree, and a row stays as its holder read it. */
  ghost predicate Inv(s: State) {
    && (forall p :: 0 <= p < |s.processes| ==> var t := s.processes[p].transfer; t.from != t.to && t.amount > 0)
    && (forall a, p :: 0 <= p < |s.processes| ==> (s.processes[p].Holds(a) <==> a in s.owner && s.owner[a] == p))
    && (forall a :: a in s.owner ==> s.owner[a] < |s.processes|)
    && (forall a, p :: 0 <= p < |s.processes| && s.processes[p].Holds(a) ==>
         s.processes[p].ReadOf(a) == WalletOf(s.table, a))
  }

  /** Some transfers, none of which has begun; what they will read is of no account yet. */
  function Start(table: Table, moves: seq<Move>): State {
    State(table, map[],
      seq(|moves|, i requires 0 <= i < |moves| => Process(moves[i], Starting, NEW_WALLET, NEW_WALLET)))
  }

  predicate Sane(moves: seq<Move>) {
    forall i :: 0 <= i < |moves| ==> moves[i].from != moves[i].to && moves[i].amount > 0
  }

  lemma StartInv(table: Table, moves: seq<Move>)
    requires Sane(moves)
    ensures Inv(Start(table, moves))
  {
  }

  lemma OneHolder(s: State, a: Account, p: nat, q: nat)
    requires Inv(s) && p < |s.processes| && q < |s.processes| && s.processes[q].Holds(a) && s.processes[p].Holds(a)
    ensures p == q
  {
    assert s.owner[a] == p && s.owner[a] == q;
  }

  /** Taking a lock, with what is read under it. */
  lemma LockInv(s: State, p: nat)
    requires Inv(s) && p < |s.processes| && s.processes[p].phase != HoldingBoth && Next(s, p).Some?
    ensures Inv(Next(s, p).value)
  {
    hide WalletOf;
    var s', x := Next(s, p).value, s.processes[p];
    var t := x.transfer;
    assert t.from != t.to;
    forall a, q | 0 <= q < |s'.processes| && s'.processes[q].Holds(a)
      ensures s'.processes[q].ReadOf(a) == WalletOf(s'.table, a)
    {
      if q != p {
        assert s.processes[q].Holds(a);
      } else {
        assert x.phase == HoldingOne ==> x.Holds(t.First());
      }
    }
  }

  lemma OthersKept(s: State, p: nat)
    requires p < |s.processes| && s.processes[p].phase == HoldingBoth
    ensures forall a :: !s.processes[p].Holds(a) ==> WalletOf(Next(s, p).value.table, a) == WalletOf(s.table, a)
  {
  }

  /** Deciding, writing, and giving both locks back. */
  lemma FinishInv(s: State, p: nat)
    requires Inv(s) && p < |s.processes| && s.processes[p].phase == HoldingBoth
    ensures Inv(Next(s, p).value)
  {
    hide Refusal;
    hide WalletOf;
    var s', x := Next(s, p).value, s.processes[p];
    OthersKept(s, p);
    forall a, q | 0 <= q < |s'.processes| && s'.processes[q].Holds(a)
      ensures s'.processes[q].ReadOf(a) == WalletOf(s'.table, a)
    {
      assert q != p && s.processes[q].Holds(a);
      assert !x.Holds(a) by { if x.Holds(a) { OneHolder(s, a, p, q); } }
    }
    forall a, q | 0 <= q < |s'.processes|
      ensures s'.processes[q].Holds(a) <==> a in s'.owner && s'.owner[a] == q
    {
      assert s.processes[q].Holds(a) <==> a in s.owner && s.owner[a] == q;
      assert x.Holds(a) <==> a in s.owner && s.owner[a] == p;
    }
  }

  lemma NextInv(s: State, p: nat)
    requires Inv(s) && p < |s.processes| && Next(s, p).Some?
    ensures Inv(Next(s, p).value)
  {
    hide Inv;
    if s.processes[p].phase == HoldingBoth {
      FinishInv(s, p);
    } else {
      LockInv(s, p);
    }
  }

  // ----- no deadlock

  /** `p` waits for `q`, which holds the lock that `p` is to take next. */
  predicate Waits(s: State, p: nat, q: nat) {
    p < |s.processes| && q < |s.processes| &&
    ((s.processes[p].phase == Starting && s.processes[p].transfer.First() in s.owner &&
      s.owner[s.processes[p].transfer.First()] == q) ||
     (s.processes[p].phase == HoldingOne && s.processes[p].transfer.Second() in s.owner &&
       s.owner[s.processes[p].transfer.Second()] == q))
  }

  /** A transfer that has not ended cannot go on exactly if it waits for some transfer. */
  lemma WaitsIfBlocked(s: State, p: nat)
    requires Inv(s) && p < |s.processes| && !s.processes[p].Done()
    ensures Next(s, p).None? <==> exists q: nat :: Waits(s, p, q)
  {
    hide WalletOf;
    hide Refusal;
    var x := s.processes[p];
    var a := if x.phase == Starting then x.transfer.First() else x.transfer.Second();
    if Next(s, p).None? {
      assert Waits(s, p, s.owner[a]);
    }
  }

  /** The user whose row a process is to lock next. */
  function Wanted(x: Process): UserId {
    if x.phase == Starting then x.transfer.First().user else x.transfer.Second().user
  }

  /** One who waits for another wants a smaller id than the other one wants, if that waits as well. */
  lemma WaitsUpwards(s: State, p: nat, q: nat, r: nat)
    requires Inv(s) && Waits(s, p, q) && Waits(s, q, r)
    ensures Wanted(s.processes[p]) < Wanted(s.processes[q])
  {
    var x, y := s.processes[p], s.processes[q];
    var a := if x.phase == Starting then x.transfer.First() else x.transfer.Second();
    assert y.Holds(a);
  }

  /** A chain of waits: each process waits for the next. */
  ghost predicate Chain(s: State, ps: seq<nat>) {
    forall i :: 0 <= i < |ps| - 1 ==> Waits(s, ps[i], ps[i + 1])
  }

  lemma {:induction false} ChainRises(s: State, ps: seq<nat>, i: nat, j: nat)
    requires Inv(s) && Chain(s, ps) && i < j < |ps| - 1
    ensures ps[i] < |s.processes| && ps[j] < |s.processes| && Wanted(s.processes[ps[i]]) < Wanted(s.processes[ps[j]])
    decreases j
  {
    WaitsUpwards(s, ps[j - 1], ps[j], ps[j + 1]);
    if i < j - 1 {
      ChainRises(s, ps, i, j - 1);
    }
  }

  /** The wait-for graph has no cycle. */
  lemma NoCycle(s: State, ps: seq<nat>)
    requires Inv(s) && Chain(s, ps) && |ps| > 1
    ensures ps[0] != ps[|ps| - 1]
  {
    if ps[0] == ps[|ps| - 1] {
      var round := ps + [ps[1]];
      assert Chain(s, round) by {
        forall i | 0 <= i < |round| - 1 ensures Waits(s, round[i], round[i + 1]) {
          assert i < |ps| - 1 ==> Waits(s, ps[i], ps[i + 1]);
          assert Waits(s, ps[0], ps[1]);
        }
      }
      ChainRises(s, round, 0, |ps| - 1);
    }
  }

  /** As long as a transfer is unfinished, some transfer can go on. */
  lemma {:induction false} Progress(s: State, p: nat) returns (q: nat)
    requires Inv(s) && p < |s.processes| && !s.processes[p].Done()
    ensures q < |s.processes| && Next(s, q).Some?
    decreases Highest(s, |s.processes|) - Wanted(s.processes[p]), 3 - PhaseRank(s.processes[p])
  {
    var x := s.processes[p];
    if Next(s, p).Some? {
      return p;
    }
    var a := if x.phase == Starting then x.transfer.First() else x.transfer.Second();
    var r := s.owner[a];
    assert s.processes[r].Holds(a);
    HighestBound(s, |s.processes|, r);
    if s.processes[r].phase == HoldingBoth {
      return r;
    }
    q := Progress(s, r);
  }

  function PhaseRank(x: Process): nat {
    match x.phase case Starting => 0 case HoldingOne => 1 case HoldingBoth => 2 case _ => 3
  }

  /** A bound on the ids of the users of the first `n` transfers. */
  function Highest(s: State, n: nat): nat
    requires n <= |s.processes|
  {
    if n == 0 then 0 else s.processes[n - 1].transfer.from + s.processes[n - 1].transfer.to + Highest(s, n - 1)
  }

  lemma {:induction false} HighestBound(s: State, n: nat, p: nat)
    requires p < n <= |s.processes|
    ensures Wanted(s.processes[p]) <= Highest(s, n)
    decreases n
  {
    if p < n - 1 {
      HighestBound(s, n - 1, p);
    }
  }

  /** What is left to do, which every step makes smaller by one. */
  function Left(ps: seq<Process>): nat {
    if ps == [] then 0 else 3 - PhaseRank(ps[0]) + Left(ps[1..])
  }

  lemma {:induction false} LeftUpdate(ps: seq<Process>, p: nat, x: Process)
    requires p < |ps|
    ensures Left(ps[p := x]) == Left(ps) - (3 - PhaseRank(ps[p])) + (3 - PhaseRank(x))
    decreases ps
  {
    if p > 0 {
      assert ps[p := x][1..] == ps[1..][p - 1 := x];
      LeftUpdate(ps[1..], p - 1, x);
    } else {
      assert ps[p := x][1..] == ps[1..];
    }
  }

  lemma StepLeft(s: State, p: nat)
    requires p < |s.processes| && Next(s, p).Some?
    ensures Left(Next(s, p).value.processes) == Left(s.processes) - 1 && |Next(s, p).value.processes| == |s.processes|
  {
    LeftUpdate(s.processes, p, Next(s, p).value.processes[p]);
  }

  // ----- every interleaving is some serial order

  function RunOf(s: State, schedule: seq<nat>): State
    decreases schedule
  {
    if schedule == [] then s
    else if schedule[0] < |s.processes| && Next(s, schedule[0]).Some? then
      RunOf(Next(s, schedule[0]).value, schedule[1..])
    else RunOf(s, schedule[1..])
  }

  /** How many turns of a schedule are steps, and not waits or turns of transfers that have ended. */
  function Steps(s: State, schedule: seq<nat>): nat
    decreases schedule
  {
    if schedule == [] then 0
    else if schedule[0] < |s.processes| && Next(s, schedule[0]).Some? then
      1 + Steps(Next(s, schedule[0]).value, schedule[1..])
    else Steps(s, schedule[1..])
  }

  /** No run takes more than three steps a transfer, and one in which nothing is left to do has finished them all. */
  lemma {:induction false} StepsRunOut(s: State, schedule: seq<nat>)
    ensures var s' := RunOf(s, schedule);
      && Steps(s, schedule) == Left(s.processes) - Left(s'.processes) && Steps(s, schedule) <= 3 * |s.processes|
      && |s'.processes| == |s.processes|
      && (Left(s'.processes) == 0 <==> forall p :: 0 <= p < |s'.processes| ==> s'.processes[p].Done())
    decreases schedule
  {
    hide Next;
    LeftBounds(s.processes);
    if schedule != [] {
      if schedule[0] < |s.processes| && Next(s, schedule[0]).Some? {
        StepLeft(s, schedule[0]);
        StepsRunOut(Next(s, schedule[0]).value, schedule[1..]);
      } else {
        StepsRunOut(s, schedule[1..]);
      }
    }
  }

  lemma {:induction false} LeftBounds(ps: seq<Process>)
    ensures Left(ps) <= 3 * |ps| && (Left(ps) == 0 <==> forall p :: 0 <= p < |ps| ==> ps[p].Done())
  {
    if ps != [] {
      LeftBounds(ps[1..]);
      assert forall p :: 0 < p < |ps| ==> ps[p] == ps[1..][p - 1];
    }
  }

  /** The transfers, by their numbers, in the order in which a schedule finishes them. */
  function Finishers(s: State, schedule: seq<nat>): seq<nat>
    decreases schedule
  {
    if schedule == [] then []
    else if schedule[0] < |s.processes| && Next(s, schedule[0]).Some? then
      (if s.processes[schedule[0]].phase == HoldingBoth then [schedule[0]] else []) +
      Finishers(Next(s, schedule[0]).value, schedule[1..])
    else Finishers(s, schedule[1..])
  }

  function TransferOf(ps: seq<Process>, p: nat): Move {
    if p < |ps| then ps[p].transfer else Move(0, 0, "", 0)
  }

  /** The moves of some transfers. */
  function Moves(ps: seq<Process>, ids: seq<nat>): seq<Move> {
    if ids == [] then [] else [TransferOf(ps, ids[0])] + Moves(ps, ids[1..])
  }

  function Serially(table: Table, moves: seq<Move>): Table
    decreases moves
  {
    if moves == [] then table else Serially(Transferred(table, moves[0]), moves[1..])
  }

  /** A transfer that holds both locks has read both rows as they are. */
  lemma BothRead(s: State, p: nat)
    requires Inv(s) && p < |s.processes| && s.processes[p].phase == HoldingBoth
    ensures var x := s.processes[p];
      && x.ReadOf(x.transfer.Sender()) == WalletOf(s.table, x.transfer.Sender())
      && x.ReadOf(x.transfer.Receiver()) == WalletOf(s.table, x.transfer.Receiver())
  {
    var x := s.processes[p];
    assert x.Holds(x.transfer.First()) && x.Holds(x.transfer.Second());
  }

  /** Only the last step of a transfer writes. */
  lemma NextTable(s: State, p: nat)
    requires p < |s.processes| && Next(s, p).Some?
    ensures var x := s.processes[p];
      Next(s, p).value.table ==
      if x.phase != HoldingBoth ||
        Refusal(x.transfer, x.ReadOf(x.transfer.Sender()), x.ReadOf(x.transfer.Receiver())).Some? then s.table
      else Written(s.table, x.transfer, x.ReadOf(x.transfer.Sender()), x.ReadOf(x.transfer.Receiver()))
  {
    hide Written;
    hide Refusal;
    hide WalletOf;
  }

  /** The last step of a transfer does, all at once, what the transfer does by itself. */
  lemma CommitIsAtomic(s: State, p: nat)
    requires Inv(s) && p < |s.processes| && Next(s, p).Some?
    ensures Next(s, p).value.table ==
            if s.processes[p].phase == HoldingBoth then Transferred(s.table, s.processes[p].transfer) else s.table
  {
    hide Next;
    hide WalletOf;
    hide Refusal;
    hide Written;
    hide Inv;
    NextTable(s, p);
    if s.processes[p].phase == HoldingBoth {
      BothRead(s, p);
    }
  }

  /** It is committed if and only if both wallets are active and the amount is there at that moment. */
  lemma CommitsExactly(s: State, p: nat)
    requires Inv(s) && p < |s.processes| && s.processes[p].phase == HoldingBoth && Next(s, p).Some?
    ensures Next(s, p).value.processes[p].phase ==
            if Goes(s.table, s.processes[p].transfer) then Committed else Aborted
  {
    hide WalletOf;
    hide Written;
    hide Inv;
    BothRead(s, p);
    RefusedExactly(s.table, s.processes[p].transfer);
    hide Refusal;
  }

  /** A step moves one transfer on by a phase, and a transfer that has ended stays as it is. */
  lemma NextPhases(s: State, p: nat)
    requires p < |s.processes| && Next(s, p).Some?
    ensures var ps, ps' := s.processes, Next(s, p).value.processes;
      && |ps'| == |ps| && (forall q :: 0 <= q < |ps| && q != p ==> ps'[q] == ps[q])
      && ps'[p].transfer == ps[p].transfer && !ps[p].Done()
      && (ps'[p].Done() <==> ps[p].phase == HoldingBoth)
  {
  }

  lemma {:induction false} MovesSame(ps: seq<Process>, ps': seq<Process>, ids: seq<nat>)
    requires |ps'| == |ps| && forall q :: 0 <= q < |ps| ==> ps'[q].transfer == ps[q].transfer
    ensures Moves(ps', ids) == Moves(ps, ids)
    decreases ids
  {
    if ids != [] { MovesSame(ps, ps', ids[1..]); }
  }

  /** A schedule finishes a transfer at most once, and finishes exactly those that were under way and have ended. */
  lemma {:induction false} FinishedOnce(s: State, schedule: seq<nat>)
    ensures var ids, ps, ps' := Finishers(s, schedule), s.processes, RunOf(s, schedule).processes;
      && |ps'| == |ps| && (forall q :: 0 <= q < |ps| && ps[q].Done() ==> ps'[q].Done())
      && (forall i, j :: 0 <= i < j < |ids| ==> ids[i] != ids[j])
      && (forall q: nat :: q in ids <==> q < |ps| && !ps[q].Done() && ps'[q].Done())
    decreases schedule
  {
    hide Next;
    hide Process.Done;
    if schedule != [] {
      var p := schedule[0];
      if p < |s.processes| && Next(s, p).Some? {
        NextPhases(s, p);
        FinishedOnce(Next(s, p).value, schedule[1..]);
        var ids, rest := Finishers(s, schedule), Finishers(Next(s, p).value, schedule[1..]);
        assert ids == (if s.processes[p].phase == HoldingBoth then [p] else []) + rest;
      } else {
        FinishedOnce(s, schedule[1..]);
      }
    }
  }

  /**
   However the steps interleave, the table ends as if the transfers that have finished had run one
   after the other, each of them once.
   */
  lemma {:induction false} RunIsSerial(s: State, schedule: seq<nat>)
    requires Inv(s)
    ensures Inv(RunOf(s, schedule))
    ensures RunOf(s, schedule).table == Serially(s.table, Moves(s.processes, Finishers(s, schedule)))
    ensures var ids, ps, ps' := Finishers(s, schedule), s.processes, RunOf(s, schedule).processes;
      && |ps'| == |ps| && (forall i, j :: 0 <= i < j < |ids| ==> ids[i] != ids[j])
      && (forall q: nat :: q in ids <==> q < |ps| && !ps[q].Done() && ps'[q].Done())
    decreases schedule
  {
    hide Inv;
    hide Next;
    hide Transferred;
    FinishedOnce(s, schedule);
    if schedule != [] {
      var p := schedule[0];
      if p < |s.processes| && Next(s, p).Some? {
        var s', rest := Next(s, p).value, Finishers(Next(s, p).value, schedule[1..]);
        NextInv(s, p);
        NextPhases(s, p);
        CommitIsAtomic(s, p);
        RunIsSerial(s', schedule[1..]);
        MovesSame(s.processes, s'.processes, rest);
        if s.processes[p].phase == HoldingBoth {
          assert Finishers(s, schedule)[1..] == rest;
          assert Moves(s.processes, Finishers(s, schedule))[1..] == Moves(s.processes, rest);
        } else {
          assert Finishers(s, schedule) == rest;
        }
      } else {
        RunIsSerial(s, schedule[1..]);
      }
    }
  }

  /** From the start: no cycle of waits ever, and as long as a transfer is unfinished, some transfer can go on. */
  lemma NeverDeadlocked(table: Table, moves: seq<Move>, schedule: seq<nat>)
    requires Sane(moves)
    ensures var s := RunOf(Start(table, moves), schedule);
      && |s.processes| == |moves|
      && (forall ps :: Chain(s, ps) && |ps| > 1 ==> ps[0] != ps[|ps| - 1])
      && ((exists p :: 0 <= p < |moves| && !s.processes[p].Done()) ==> exists q: nat :: q < |moves| && Next(s, q).Some?)
  {
    hide Inv;
    hide Next;
    hide Chain;
    StartInv(table, moves);
    RunIsSerial(Start(table, moves), schedule);
    var s := RunOf(Start(table, moves), schedule);
    forall ps | Chain(s, ps) && |ps| > 1 ensures ps[0] != ps[|ps| - 1] { NoCycle(s, ps); }
    if p :| 0 <= p < |moves| && !s.processes[p].Done() {
      var q := Progress(s, p);
    }
  }

  // ----- the money

  /** A transfer moves money and makes none, takes nobody below what is locked, and touches two rows only. */
  lemma TransferKeeps(table: Table, t: Move, currency: string)
    requires Solvent(table) && t.from != t.to && t.amount > 0
    ensures Solvent(Transferred(table, t)) && Total(Transferred(table, t), currency) == Total(table, currency)
    ensures WalletOf(Transferred(table, t), t.Sender()).Available() >= 0
    ensures WalletOf(Transferred(table, t), t.Sender()).balance +
      WalletOf(Transferred(table, t), t.Receiver()).balance ==
            WalletOf(table, t.Sender()).balance + WalletOf(table, t.Receiver()).balance
    ensures forall a :: a != t.Sender() && a != t.Receiver() ==>
      WalletOf(Transferred(table, t), a) == WalletOf(table, a)
    ensures forall a :: WalletOf(Transferred(table, t), a).locked == WalletOf(table, a).locked
  {
    hide Total;
    var sender, receiver := WalletOf(table, t.Sender()), WalletOf(table, t.Receiver());
    var debited := table[t.Sender() := sender.(balance := sender.balance - t.amount)];
    TotalUpdate(table, t.Sender(), sender.(balance := sender.balance - t.amount), currency);
    TotalUpdate(debited, t.Receiver(), receiver.(balance := receiver.balance + t.amount), currency);
  }

  lemma {:induction false} SeriallyKeeps(table: Table, moves: seq<Move>, currency: string)
    requires Solvent(table) && forall i :: 0 <= i < |moves| ==> moves[i].from != moves[i].to && moves[i].amount > 0
    ensures Solvent(Serially(table, moves)) && Total(Serially(table, moves), currency) == Total(table, currency)
    decreases moves
  {
    hide Transferred;
    hide Total;
    hide Solvent;
    if moves != [] {
      TransferKeeps(table, moves[0], currency);
      SeriallyKeeps(Transferred(table, moves[0]), moves[1..], currency);
    }
  }

  lemma {:induction false} FinishedMoves(ps: seq<Process>, ids: seq<nat>)
    requires forall p :: 0 <= p < |ps| ==> ps[p].transfer.from != ps[p].transfer.to && ps[p].transfer.amount > 0
    requires forall i :: 0 <= i < |ids| ==> ids[i] < |ps|
    ensures forall i :: 0 <= i < |Moves(ps, ids)| ==>
      Moves(ps, ids)[i].from != Moves(ps, ids)[i].to && Moves(ps, ids)[i].amount > 0
    decreases ids
  {
    if ids != [] {
      FinishedMoves(ps, ids[1..]);
    }
  }

  /** In every interleaving balances keep their sum and stay above what is locked. */
  lemma RunKeepsMoney(s: State, schedule: seq<nat>, currency: string)
    requires Inv(s) && Solvent(s.table)
    ensures Solvent(RunOf(s, schedule).table) && Total(RunOf(s, schedule).table, currency) == Total(s.table, currency)
  {
    RunIsSerial(s, schedule);
    forall i | 0 <= i < |Finishers(s, schedule)| ensures Finishers(s, schedule)[i] < |s.processes| {
      assert Finishers(s, schedule)[i] in Finishers(s, schedule);
    }
    FinishedMoves(s.processes, Finishers(s, schedule));
    SeriallyKeeps(s.table, Moves(s.processes, Finishers(s, schedule)), currency);
  }
}
