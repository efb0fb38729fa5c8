/**
 The contract P2PEscrow. A payout runs the receiver in the middle of the call, with the contract's
 own state in the fields, and a revert puts back what the fields held when the call began.
 */
module Escrows {
  import opened EscrowModel

  class P2PEscrow {
    const arbiter: Address
    var escrows: map<OrderId, Escrow>
    var ether: int
    ghost var deposits: map<OrderId, Deposit>
    ghost var payments: seq<Payment>
    ghost var forced: nat

    ghost function Now(): Chain
      reads this
    {
      Chain(arbiter, escrows, ether, deposits, payments, forced)
    }

    constructor (arbiter: Address)
      requires arbiter != 0
      ensures this.arbiter == arbiter && Sound(Now()) && escrows == map[] && ether == 0
    {
      this.arbiter := arbiter;
      escrows, ether := map[], 0;
      deposits, payments, forced := map[], [], 0;
      new;
      SameEscrows(Now(), Chain(arbiter, map[], 0, map[], [], 0));
      NothingLive(arbiter);
    }

    function StateAt(id: OrderId): State
      reads this`escrows
    {
      if id in escrows then escrows[id].state else Absent
    }

    method CreateEscrow(sender: Address, id: OrderId, buyer: Address, seller: Address, value: nat) returns (ok: bool)
      requires Sound(Now())
      modifies this
      ensures Sound(Now()) && Now() == After(old(Now()), Create(sender, id, buyer, seller, value))
      ensures ok == Exec(old(Now()), Create(sender, id, buyer, seller, value)).Some?
    {
      hide Sound;
      AfterSound(Now(), Create(sender, id, buyer, seller, value));
      if sender != arbiter || StateAt(id) != Absent || value == 0 || buyer == 0 || seller == 0 {
        return false;
      }
      ether := ether + value;
      escrows := escrows[id := Escrow(buyer, seller, value, Funded)];
      deposits := deposits[id := Deposit(buyer, seller, value)];
      return true;
    }

    method MarkPaid(sender: Address, id: OrderId) returns (ok: bool)
      requires Sound(Now())
      modifies this
      ensures Sound(Now()) && Now() == After(old(Now()), EscrowModel.MarkPaid(sender, id))
      ensures ok == Exec(old(Now()), EscrowModel.MarkPaid(sender, id)).Some?
    {
      AfterSound(Now(), EscrowModel.MarkPaid(sender, id));
      if sender != arbiter || StateAt(id) != Funded {
        return false;
      }
      escrows := escrows[id := escrows[id].(state := Paid)];
      return true;
    }

    method RaiseDispute(sender: Address, id: OrderId) returns (ok: bool)
      requires Sound(Now())
      modifies this
      ensures Sound(Now()) && Now() == After(old(Now()), EscrowModel.RaiseDispute(sender, id))
      ensures ok == Exec(old(Now()), EscrowModel.RaiseDispute(sender, id)).Some?
    {
      AfterSound(Now(), EscrowModel.RaiseDispute(sender, id));
      if sender != arbiter || (StateAt(id) != Funded && StateAt(id) != Paid) {
        return false;
      }
      escrows := escrows[id := escrows[id].(state := Disputed)];
      return true;
    }

    /** Ether that reaches the contract without a call to it. */
    method ForceEther(value: nat)
      requires Sound(Now())
      modifies this
      ensures Sound(Now()) && Now() == After(old(Now()), EscrowModel.ForceEther(value))
    {
      AfterSound(Now(), EscrowModel.ForceEther(value));
      ether := ether + value;
      forced := forced + value;
    }

    /** Closes the escrow, sends its amount, lets the receiver act, and reverts if the ether is not taken. */
    method PayOut(id: OrderId, toBuyer: bool, receiver: Receiver) returns (ok: bool)
      requires Sound(Now()) && id in escrows && Live(StateAt(id))
      modifies this
      ensures ok == Accepts(receiver)
      ensures Now() == if ok then Received(PaidOut(old(Now()), id, toBuyer), receiver) else old(Now())
      decreases receiver, 1
    {
      hide Sound;
      hide Received;
      ghost var before := Now();
      EtherSuffices(Now(), id);
      PaidOutSound(Now(), id, toBuyer);
      var saved, savedEther := escrows, ether;
      var e := escrows[id];
      escrows := escrows[id := e.(state := if toBuyer then Released else Refunded, amount := 0)];
      if ether < e.amount {
        ok := false;
      } else {
        ether := ether - e.amount;
        payments := payments + [Payment(id, if toBuyer then e.buyer else e.seller, e.amount)];
        ok := Receive(receiver);
      }
      if !ok {
        escrows, ether := saved, savedEther;
        deposits, payments, forced := before.deposits, before.payments, before.forced;
      }
    }

    /** The receiver's turn: its calls, each of which may revert on its own, and its answer. */
    method Receive(receiver: Receiver) returns (accepts: bool)
      requires Sound(Now())
      modifies this
      ensures Sound(Now()) && Now() == Received(old(Now()), receiver) && accepts == Accepts(receiver)
      decreases receiver, 0
    {
      hide Sound;
      hide After;
      match receiver
      case Answer(yes) =>
        accepts := yes;
      case Calls(first, rest) =>
        Execute(first);
        accepts := Receive(rest);
    }

    method Release(sender: Address, id: OrderId, receiver: Receiver) returns (ok: bool)
      requires Sound(Now())
      modifies this
      ensures Sound(Now()) && Now() == After(old(Now()), EscrowModel.Release(sender, id, receiver))
      ensures ok == Exec(old(Now()), EscrowModel.Release(sender, id, receiver)).Some?
      decreases receiver, 2
    {
      hide Sound;
      hide Received;
      hide PaidOut;
      AfterSound(Now(), EscrowModel.Release(sender, id, receiver));
      PayoutUnfolds(Now(), EscrowModel.Release(sender, id, receiver));
      PaysExactlyWhen(Now(), EscrowModel.Release(sender, id, receiver));
      if sender != arbiter || (StateAt(id) != Funded && StateAt(id) != Paid) {
        return false;
      }
      ok := PayOut(id, true, receiver);
    }

    method Refund(sender: Address, id: OrderId, receiver: Receiver) returns (ok: bool)
      requires Sound(Now())
      modifies this
      ensures Sound(Now()) && Now() == After(old(Now()), EscrowModel.Refund(sender, id, receiver))
      ensures ok == Exec(old(Now()), EscrowModel.Refund(sender, id, receiver)).Some?
      decreases receiver, 2
    {
      hide Sound;
      hide Received;
      hide PaidOut;
      AfterSound(Now(), EscrowModel.Refund(sender, id, receiver));
      PayoutUnfolds(Now(), EscrowModel.Refund(sender, id, receiver));
      PaysExactlyWhen(Now(), EscrowModel.Refund(sender, id, receiver));
      if sender != arbiter || (StateAt(id) != Funded && StateAt(id) != Paid && StateAt(id) != Disputed) {
        return false;
      }
      ok := PayOut(id, false, receiver);
    }

    method ResolveDispute(sender: Address, id: OrderId, toBuyer: bool, receiver: Receiver) returns (ok: bool)
      requires Sound(Now())
      modifies this
      ensures Sound(Now()) && Now() == After(old(Now()), Resolve(sender, id, toBuyer, receiver))
      ensures ok == Exec(old(Now()), Resolve(sender, id, toBuyer, receiver)).Some?
      decreases receiver, 2
    {
      hide Sound;
      hide Received;
      hide PaidOut;
      AfterSound(Now(), Resolve(sender, id, toBuyer, receiver));
      PayoutUnfolds(Now(), Resolve(sender, id, toBuyer, receiver));
      PaysExactlyWhen(Now(), Resolve(sender, id, toBuyer, receiver));
      if sender != arbiter || StateAt(id) != Disputed {
        return false;
      }
      ok := PayOut(id, toBuyer, receiver);
    }

    method Execute(c: Call)
      requires Sound(Now())
      modifies this
      ensures Sound(Now()) && Now() == After(old(Now()), c)
      decreases c, 3
    {
      hide Sound;
      hide After;
      var ok;
      match c
      case Create(sender, id, buyer, seller, value) => ok := CreateEscrow(sender, id, buyer, seller, value);
      case MarkPaid(sender, id) => ok := MarkPaid(sender, id);
      case RaiseDispute(sender, id) => ok := RaiseDispute(sender, id);
      case ForceEther(value) => ForceEther(value);
      case Release(sender, id, receiver) => ok := Release(sender, id, receiver);
      case Refund(sender, id, receiver) => ok := Refund(sender, id, receiver);
      case Resolve(sender, id, toBuyer, receiver) => ok := ResolveDispute(sender, id, toBuyer, receiver);
    }
  }
}
