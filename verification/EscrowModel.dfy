/**
 The escrow contract as a machine of calls: a payout hands ether to an account that may call
 the contract again before it returns, to any depth, and may refuse the ether in the end.
 */
module EscrowModel {
  import opened MapSums
  import opened Wrappers

  type Address = nat

  type OrderId = string

  datatype State = Absent | Funded | Paid | Released | Refunded | Disputed

  datatype Escrow = Escrow(buyer: Address, seller: Address, amount: nat, state: State)

  /** What was paid in for an order, and by whom it may be taken. */
  datatype Deposit = Deposit(buyer: Address, seller: Address, amount: nat)

  datatype Payment = Payment(id: OrderId, to: Address, amount: nat)

  /** What an account does when it is paid: calls, one after the other, and then yes or no. */
  datatype Receiver = Answer(accepts: bool) | Calls(first: Call, rest: Receiver)

  datatype Call =
    | Create(sender: Address, id: OrderId, buyer: Address, seller: Address, value: nat)
    | MarkPaid(sender: Address, id: OrderId)
    | Release(sender: Address, id: OrderId, receiver: Receiver)
    | Refund(sender: Address, id: OrderId, receiver: Receiver)
    | RaiseDispute(sender: Address, id: OrderId)
    | Resolve(sender: Address, id: OrderId, toBuyer: bool, receiver: Receiver)
    | ForceEther(value: nat)

  /** The contract and its ether, with the deposits and payments so far and the ether forced on it. */
  datatype Chain = Chain(arbiter: Address, escrows: map<OrderId, Escrow>, ether: int,
                         deposits: map<OrderId, Deposit>, payments: seq<Payment>, forced: nat)
  {
    function StateOf(id: OrderId): State { if id in escrows then escrows[id].state else Absent }

    function With(id: OrderId, state: State): Chain
      requires id in escrows
    {
      this.(escrows := escrows[id := escrows[id].(state := state)])
    }
  }

  predicate Live(state: State) { state == Funded || state == Paid || state == Disputed }

  function Accepts(r: Receiver): bool {
    match r
    case Answer(accepts) => accepts
    case Calls(_, rest) => Accepts(rest)
  }

  /** The moment a payout reaches its receiver: the escrow is closed and emptied, and the ether has left. */
  function PaidOut(s: Chain, id: OrderId, toBuyer: bool): Chain
    requires id in s.escrows
  {
    var e := s.escrows[id];
    s.(escrows := s.escrows[id := e.(amount := 0, state := if toBuyer then Released else Refunded)],
       ether := s.ether - e.amount,
       payments := s.payments + [Payment(id, if toBuyer then e.buyer else e.seller, e.amount)])
  }

  /** Which payout a call asks for, if it is one: the order, the direction and the receiver. */
  predicate MayPay(s: Chain, c: Call) {
    match c
    case Release(sender, id, _) => sender == s.arbiter && (s.StateOf(id) == Funded || s.StateOf(id) == Paid)
    case Refund(sender, id, _) => sender == s.arbiter && Live(s.StateOf(id))
    case Resolve(sender, id, _, _) => sender == s.arbiter && s.StateOf(id) == Disputed
    case _ => false
  }

  function ToBuyer(c: Call): bool { c.Release? || (c.Resolve? && c.toBuyer) }

  /** The state after a call, or nothing if it reverts. */
  function Exec(s: Chain, c: Call): Option<Chain>
    decreases c, 0
  {
    match c
    case Create(sender, id, buyer, seller, value) =>
      if sender == s.arbiter && s.StateOf(id) == Absent && value > 0 && buyer != 0 && seller != 0 then
        Some(s.(escrows := s.escrows[id := Escrow(buyer, seller, value, Funded)], ether := s.ether + value,
                deposits := s.deposits[id := Deposit(buyer, seller, value)]))
      else None
    case MarkPaid(sender, id) =>
      if sender == s.arbiter && s.StateOf(id) == Funded then Some(s.With(id, Paid)) else None
    case RaiseDispute(sender, id) =>
      if sender == s.arbiter && (s.StateOf(id) == Funded || s.StateOf(id) == Paid) then Some(s.With(id, Disputed))
        else None
    case ForceEther(value) => Some(s.(ether := s.ether + value, forced := s.forced + value))
    case _ =>
      if MayPay(s, c) && s.escrows[c.id].amount <= s.ether && Accepts(c.receiver) then
        Some(Received(PaidOut(s, c.id, ToBuyer(c)), c.receiver))
      else None
  }

  /** A call that reverts leaves everything as it was. */
  function After(s: Chain, c: Call): Chain
    decreases c, 1
  {
    match Exec(s, c)
    case None => s
    case Some(s') => s'
  }

  function Received(s: Chain, r: Receiver): Chain
    decreases r
  {
    match r
    case Answer(_) => s
    case Calls(first, rest) => Received(After(s, first), rest)
  }

  /** Every state that is seen during a call, inside payouts too, and also those that a revert takes back. */
  function Seen(s: Chain, c: Call): seq<Chain>
    decreases c
  {
    if MayPay(s, c) && s.escrows[c.id].amount <= s.ether then
      var s' := PaidOut(s, c.id, ToBuyer(c));
      [s'] + SeenBy(s', c.receiver) + [After(s, c)]
    else [After(s, c)]
  }

  function SeenBy(s: Chain, r: Receiver): seq<Chain>
    decreases r
  {
    match r
    case Answer(_) => []
    case Calls(first, rest) => Seen(s, first) + SeenBy(After(s, first), rest)
  }

  // ----- the invariant

  function PaymentsOf(ps: seq<Payment>, id: OrderId): seq<Payment> {
    if ps == [] then [] else PaymentsOf(ps[..|ps| - 1], id) + if ps[|ps| - 1].id == id then [ps[|ps| - 1]] else []
  }

  /** One order: live with its whole deposit, or paid out whole, once, to its own buyer or its own seller. */
  predicate OrderOk(s: Chain, id: OrderId)
    requires id in s.escrows && id in s.deposits
  {
    var e, d, ps := s.escrows[id], s.deposits[id], PaymentsOf(s.payments, id);
    && e.state != Absent && e.buyer == d.buyer && e.seller == d.seller && d.amount > 0
    && e.amount == (if Live(e.state) then d.amount else 0)
    && ps == (if Live(e.state) then [] else [Payment(id, if e.state == Released then d.buyer else d.seller, d.amount)])
  }

  ghost function LiveEther(s: Chain): int {
    Sum(map id | id in s.escrows :: s.escrows[id].amount)
  }

  ghost predicate Sound(s: Chain) {
    && s.escrows.Keys == s.deposits.Keys
    && (forall id :: id in s.escrows ==> OrderOk(s, id))
    && (forall id :: id !in s.escrows ==> PaymentsOf(s.payments, id) == [])
    && s.ether == LiveEther(s) + s.forced
  }

  lemma PaymentsNext(ps: seq<Payment>, p: Payment, id: OrderId)
    ensures PaymentsOf(ps + [p], id) == PaymentsOf(ps, id) + if p.id == id then [p] else []
  {
    assert (ps + [p])[..|ps|] == ps;
  }

  lemma LiveEtherUpdate(s: Chain, id: OrderId, e: Escrow)
    ensures LiveEther(s.(escrows := s.escrows[id := e])) ==
            LiveEther(s) - (if id in s.escrows then s.escrows[id].amount else 0) + e.amount
  {
    var m := map x | x in s.escrows :: s.escrows[x].amount as int;
    var escrows := s.escrows[id := e];
    SumUpdate(m, id, e.amount);
    assert (map x | x in s.escrows :: s.escrows[x].amount) == m;
    assert (map x | x in escrows :: escrows[x].amount) == m[id := e.amount];
  }

  /** The ether is there: no payout of a sound contract fails for want of it. */
  lemma EtherSuffices(s: Chain, id: OrderId)
    requires Sound(s) && id in s.escrows
    ensures s.escrows[id].amount <= s.ether
  {
    var m := map x | x in s.escrows :: s.escrows[x].amount as int;
    assert (map x | x in s.escrows :: s.escrows[x].amount) == m;
    SumAtLeast(m, id);
  }

  lemma PaidOutOrder(s: Chain, id: OrderId, toBuyer: bool, x: OrderId)
    requires Sound(s) && Live(s.StateOf(id))
    ensures var s' := PaidOut(s, id, toBuyer);
      && (x in s.escrows ==> OrderOk(s', x)) && (x !in s.escrows ==> PaymentsOf(s'.payments, x) == [])
  {
    hide LiveEther;
    hide PaymentsOf;
    var s' := PaidOut(s, id, toBuyer);
    PaymentsNext(s.payments, s'.payments[|s.payments|], x);
    assert x in s.escrows ==> OrderOk(s, x);
  }

  lemma PaidOutSound(s: Chain, id: OrderId, toBuyer: bool)
    requires Sound(s) && Live(s.StateOf(id))
    ensures Sound(PaidOut(s, id, toBuyer))
  {
    hide LiveEther;
    hide PaymentsOf;
    hide OrderOk;
    var s' := PaidOut(s, id, toBuyer);
    LiveEtherUpdate(s, id, s'.escrows[id]);
    SameEscrows(s', s.(escrows := s.escrows[id := s'.escrows[id]]));
    forall x ensures (x in s.escrows ==> OrderOk(s', x)) && (x !in s.escrows ==> PaymentsOf(s'.payments, x) == []) {
      PaidOutOrder(s, id, toBuyer, x);
    }
  }

  lemma SameEscrows(s: Chain, s': Chain)
    requires s.escrows == s'.escrows
    ensures LiveEther(s) == LiveEther(s')
  {
  }

  lemma SimpleOrder(s: Chain, c: Call, x: OrderId)
    requires Sound(s) && (c.Create? || c.MarkPaid? || c.RaiseDispute?) && Exec(s, c).Some? && x in After(s, c).escrows
    ensures OrderOk(After(s, c), x) && x in After(s, c).deposits && (c.Create? ==> c.id !in s.escrows)
  {
    hide LiveEther;
    hide PaymentsOf;
    assert x in s.escrows ==> OrderOk(s, x);
    assert c.id in s.escrows ==> OrderOk(s, c.id);
  }

  /** A call without a payout. */
  lemma SimpleSound(s: Chain, c: Call)
    requires Sound(s) && (c.Create? || c.MarkPaid? || c.RaiseDispute? || c.ForceEther?)
    ensures Sound(After(s, c))
  {
    hide LiveEther;
    hide PaymentsOf;
    hide OrderOk;
    var s' := After(s, c);
    if Exec(s, c).Some? && !c.ForceEther? {
      SimpleOrder(s, c, c.id);
      LiveEtherUpdate(s, c.id, s'.escrows[c.id]);
      SameEscrows(s', s.(escrows := s.escrows[c.id := s'.escrows[c.id]]));
      forall x | x in s'.escrows ensures x in s'.deposits && OrderOk(s', x) {
        SimpleOrder(s, c, x);
      }
    } else {
      SameEscrows(s, s');
      forall x | x in s.escrows ensures OrderOk(s', x) {
        OrderUnmoved(s, s', x);
      }
    }
  }

  lemma OrderUnmoved(s: Chain, s': Chain, x: OrderId)
    requires
      && Sound(s) && x in s.escrows && s'.escrows == s.escrows && s'.deposits == s.deposits && s'.payments == s.payments
    ensures OrderOk(s', x)
  {
    assert OrderOk(s, x);
  }

  /** A new contract. */
  lemma NothingLive(arbiter: Address)
    ensures Sound(Chain(arbiter, map[], 0, map[], [], 0))
  {
    var escrows: map<OrderId, Escrow> := map[];
    var m := map id | id in escrows :: escrows[id].amount as int;
    assert m == map[];
  }

  predicate Pays(c: Call) { c.Release? || c.Refund? || c.Resolve? }

  /** A payout that is taken ends where its receiver leaves the contract, and any other ends where it began. */
  lemma PayoutUnfolds(s: Chain, c: Call)
    requires Sound(s) && Pays(c)
    ensures MayPay(s, c) ==> c.id in s.escrows && Live(s.StateOf(c.id)) && s.escrows[c.id].amount <= s.ether
    ensures After(s, c) ==
      if MayPay(s, c) && Accepts(c.receiver) then Received(PaidOut(s, c.id, ToBuyer(c)), c.receiver) else s
  {
    hide Received;
    if MayPay(s, c) {
      EtherSuffices(s, c.id);
    }
  }

  /** Whatever is called, by whomever, and whatever is called from inside a payout, the contract stays sound. */
  lemma {:induction false} AfterSound(s: Chain, c: Call)
    requires Sound(s)
    ensures Sound(After(s, c))
    decreases c, 1
  {
    hide Sound;
    hide After;
    hide PaidOut;
    if Pays(c) {
      PayoutUnfolds(s, c);
      if MayPay(s, c) {
        PaidOutSound(s, c.id, ToBuyer(c));
        ReceivedSound(PaidOut(s, c.id, ToBuyer(c)), c.receiver);
      }
    } else {
      SimpleSound(s, c);
    }
  }

  lemma {:induction false} ReceivedSound(s: Chain, r: Receiver)
    requires Sound(s)
    ensures Sound(Received(s, r))
    decreases r
  {
    hide Sound;
    if r.Calls? {
      AfterSound(s, r.first);
      ReceivedSound(After(s, r.first), r.rest);
    }
  }

  /** The same for every state seen on the way. */
  lemma {:induction false} SeenSound(s: Chain, c: Call)
    requires Sound(s)
    ensures forall i :: 0 <= i < |Seen(s, c)| ==> Sound(Seen(s, c)[i])
    decreases c
  {
    hide Sound;
    hide After;
    hide PaidOut;
    AfterSound(s, c);
    if MayPay(s, c) {
      PayoutUnfolds(s, c);
      PaidOutSound(s, c.id, ToBuyer(c));
      SeenBySound(PaidOut(s, c.id, ToBuyer(c)), c.receiver);
    }
  }

  lemma {:induction false} SeenBySound(s: Chain, r: Receiver)
    requires Sound(s)
    ensures forall i :: 0 <= i < |SeenBy(s, r)| ==> Sound(SeenBy(s, r)[i])
    decreases r
  {
    if r.Calls? {
      SeenSound(s, r.first);
      AfterSound(s, r.first);
      SeenBySound(After(s, r.first), r.rest);
    }
  }

  // ----- what soundness says

  lemma CoversLive(s: Chain)
    requires Sound(s)
    ensures s.ether >= LiveEther(s)
    ensures forall id :: id in s.escrows ==> (s.escrows[id].amount > 0 <==> Live(s.StateOf(id)))
    ensures forall id :: |PaymentsOf(s.payments, id)| <= 1
  {
    forall id | id in s.escrows
      ensures (s.escrows[id].amount > 0 <==> Live(s.StateOf(id))) && |PaymentsOf(s.payments, id)| <= 1
    {
      assert OrderOk(s, id);
    }
  }

  /** A payout goes through exactly when the arbiter asks for it in the right state and the receiver takes it. */
  lemma PaysExactlyWhen(s: Chain, c: Call)
    requires Sound(s) && Pays(c)
    ensures Exec(s, c).Some? <==> MayPay(s, c) && Accepts(c.receiver)
    ensures Exec(s, c).Some? <==>
      && c.sender == s.arbiter && Accepts(c.receiver) && c.id in s.escrows
      && var state := s.escrows[c.id].state;
      match c
      case Release(_, _, _) => state == Funded || state == Paid
      case Refund(_, _, _) => state == Funded || state == Paid || state == Disputed
      case _ => state == Disputed
  {
    if MayPay(s, c) {
      EtherSuffices(s, c.id);
    }
  }

  /** An order that has been paid out never changes again, whatever is called. */
  lemma {:induction false} ClosedStays(s: Chain, c: Call, id: OrderId)
    requires Sound(s) && id in s.escrows && !Live(s.StateOf(id))
    ensures id in After(s, c).escrows && After(s, c).escrows[id] == s.escrows[id]
    decreases c, 1
  {
    hide Sound;
    hide Received;
    if Pays(c) {
      PayoutUnfolds(s, c);
      if MayPay(s, c) {
        PaidOutSound(s, c.id, ToBuyer(c));
        ReceivedClosed(PaidOut(s, c.id, ToBuyer(c)), c.receiver, id);
      }
    } else {
      StateKnown(s, id);
    }
  }

  lemma StateKnown(s: Chain, id: OrderId)
    requires Sound(s) && id in s.escrows
    ensures s.escrows[id].state != Absent && id in s.deposits
  {
    assert OrderOk(s, id);
  }

  lemma {:induction false} ReceivedClosed(s: Chain, r: Receiver, id: OrderId)
    requires Sound(s) && id in s.escrows && !Live(s.StateOf(id))
    ensures id in Received(s, r).escrows && Received(s, r).escrows[id] == s.escrows[id]
    decreases r
  {
    hide Sound;
    hide After;
    if r.Calls? {
      ClosedStays(s, r.first, id);
      AfterSound(s, r.first);
      ReceivedClosed(After(s, r.first), r.rest, id);
    }
  }

  /** The call has closed the order and paid its whole deposit to this address, before anything else that it paid. */
  predicate PaidTo(s: Chain, s': Chain, id: OrderId, to: Address, amount: nat, state: State) {
    && s.payments + [Payment(id, to, amount)] <= s'.payments
    && id in s'.escrows && s'.escrows[id].state == state && s'.escrows[id].amount == 0
  }

  /** A payout that goes through pays the buyer if it is a release, the seller if a refund, and else whom it names. */
  lemma PaysWhom(s: Chain, c: Call)
    requires Sound(s) && Pays(c) && Exec(s, c).Some?
    ensures c.id in s.deposits
    ensures var d, s' := s.deposits[c.id], Exec(s, c).value;
      match c
      case Release(_, id, _) => PaidTo(s, s', id, d.buyer, d.amount, Released)
      case Refund(_, id, _) => PaidTo(s, s', id, d.seller, d.amount, Refunded)
      case Resolve(_, id, toBuyer, _) =>
        if toBuyer then PaidTo(s, s', id, d.buyer, d.amount, Released)
        else PaidTo(s, s', id, d.seller, d.amount, Refunded)
      case _ => true
  {
    hide Received;
    assert OrderOk(s, c.id);
    PayoutUnfolds(s, c);
    var s1 := PaidOut(s, c.id, ToBuyer(c));
    PaidOutSound(s, c.id, ToBuyer(c));
    hide Sound;
    ReceivedGrows(s1, c.receiver);
    ReceivedClosed(s1, c.receiver, c.id);
  }

  /** An escrow is created for an order that never had one, by the arbiter, with ether, a buyer and a seller. */
  lemma CreatesWhen(s: Chain, sender: Address, id: OrderId, buyer: Address, seller: Address, value: nat)
    requires Sound(s)
    ensures var r := Exec(s, Create(sender, id, buyer, seller, value));
      && (r.Some? <==> sender == s.arbiter && id !in s.deposits && value > 0 && buyer != 0 && seller != 0)
      && (r.Some? ==>
           r.value == Chain(s.arbiter, s.escrows[id := Escrow(buyer, seller, value, Funded)], s.ether + value,
                            s.deposits[id := Deposit(buyer, seller, value)], s.payments, s.forced))
  {
    if id in s.escrows {
      StateKnown(s, id);
    }
  }

  /** Which states a payment note and a dispute are taken in, and the state they leave; nothing else changes. */
  lemma ChangesState(s: Chain, c: Call)
    requires Sound(s) && (c.MarkPaid? || c.RaiseDispute?)
    ensures Exec(s, c).Some? <==>
      && c.sender == s.arbiter && c.id in s.escrows
      && (s.escrows[c.id].state == Funded || (c.RaiseDispute? && s.escrows[c.id].state == Paid))
    ensures var s' := After(s, c);
      Exec(s, c).Some? ==>
        && s' == s.(escrows := s'.escrows) && s'.escrows.Keys == s.escrows.Keys
        && s'.escrows[c.id] == s.escrows[c.id].(state := if c.MarkPaid? then Paid else Disputed)
        && forall id :: id in s.escrows && id != c.id ==> s'.escrows[id] == s.escrows[id]
  {
  }

  lemma SeenUnfolds(s: Chain, c: Call)
    requires Sound(s) && Pays(c) && Exec(s, c).Some?
    ensures c.id in s.escrows && Seen(s, c) == [PaidOut(s, c.id, ToBuyer(c))] +
              SeenBy(PaidOut(s, c.id, ToBuyer(c)), c.receiver) + [After(s, c)]
  {
    hide PaidOut;
    hide SeenBy;
    hide After;
    hide Received;
    PayoutUnfolds(s, c);
  }

  /** When the receiver of a payout gets its turn, the order is closed and paid and the ether has left. */
  lemma SeenFirst(s: Chain, c: Call)
    requires Sound(s) && Pays(c) && Exec(s, c).Some?
    ensures c.id in s.deposits
    ensures var seen, d := Seen(s, c), s.deposits[c.id];
      && |seen| >= 2 && seen[|seen| - 1] == After(s, c)
      && |seen[0].payments| == |s.payments| + 1 && seen[0].ether == s.ether - d.amount
      && c.id in seen[0].escrows && seen[0].escrows[c.id].amount == 0 && !Live(seen[0].escrows[c.id].state)
  {
    SeenUnfolds(s, c);
    PaysExactlyWhen(s, c);
    hide Seen;
    hide SeenBy;
    hide After;
    hide Exec;
    hide Received;
    assert OrderOk(s, c.id);
    hide Sound;
    hide PaymentsOf;
  }

  // ----- what a receiver may do

  /** A receiver that makes these calls and then answers. */
  function Behaviour(calls: seq<Call>, yes: bool): Receiver {
    if calls == [] then Answer(yes) else Calls(calls[0], Behaviour(calls[1..], yes))
  }

  function AfterAll(s: Chain, calls: seq<Call>): Chain {
    if calls == [] then s else After(AfterAll(s, calls[..|calls| - 1]), calls[|calls| - 1])
  }

  lemma {:induction false} AfterAllCons(s: Chain, c: Call, calls: seq<Call>)
    ensures AfterAll(s, [c] + calls) == AfterAll(After(s, c), calls)
    decreases calls
  {
    hide After;
    var all := [c] + calls;
    if calls == [] {
      assert all[..|all| - 1] == [];
    } else {
      assert all[..|all| - 1] == [c] + calls[..|calls| - 1];
      AfterAllCons(s, c, calls[..|calls| - 1]);
    }
  }

  /** Its calls are carried out one after the other, each whole or not at all, and its answer is the last word. */
  lemma {:induction false} Behaves(s: Chain, calls: seq<Call>, yes: bool)
    ensures Accepts(Behaviour(calls, yes)) == yes && Received(s, Behaviour(calls, yes)) == AfterAll(s, calls)
    decreases calls
  {
    hide After;
    if calls != [] {
      Behaves(After(s, calls[0]), calls[1..], yes);
      AfterAllCons(s, calls[0], calls[1..]);
      assert [calls[0]] + calls[1..] == calls;
    }
  }

  /** All that is seen during any of its calls is seen. */
  lemma {:induction false} SeenInside(s: Chain, calls: seq<Call>, yes: bool, i: nat)
    requires i < |calls|
    ensures forall x :: x in Seen(AfterAll(s, calls[..i]), calls[i]) ==> x in SeenBy(s, Behaviour(calls, yes))
    decreases calls
  {
    hide After;
    hide Seen;
    if i > 0 {
      SeenInside(After(s, calls[0]), calls[1..], yes, i - 1);
      AfterAllCons(s, calls[0], calls[1..][..i - 1]);
      assert [calls[0]] + calls[1..][..i - 1] == calls[..i];
    } else {
      assert calls[..0] == [];
    }
  }

  /** So a payout shows everything that is seen during the calls that its receiver makes. */
  lemma SeenThrough(s: Chain, c: Call, calls: seq<Call>, yes: bool, i: nat)
    requires Sound(s) && Pays(c) && Exec(s, c).Some? && c.receiver == Behaviour(calls, yes) && i < |calls|
    ensures |Seen(s, c)| > 0
    ensures forall x :: x in Seen(AfterAll(Seen(s, c)[0], calls[..i]), calls[i]) ==> x in Seen(s, c)
  {
    SeenUnfolds(s, c);
    hide Seen;
    hide SeenBy;
    hide AfterAll;
    hide After;
    var s1 := PaidOut(s, c.id, ToBuyer(c));
    assert Seen(s, c)[0] == s1;
    SeenInside(s1, calls, yes, i);
  }

  // ----- the payments

  lemma {:induction false} PaymentListed(ps: seq<Payment>, i: nat)
    requires i < |ps|
    ensures ps[i] in PaymentsOf(ps, ps[i].id)
    decreases ps
  {
    if i < |ps| - 1 {
      PaymentListed(ps[..|ps| - 1], i);
    }
  }

  lemma {:induction false} PaidTwice(ps: seq<Payment>, i: nat, j: nat)
    requires i < j < |ps| && ps[i].id == ps[j].id
    ensures |PaymentsOf(ps, ps[i].id)| >= 2
    decreases ps
  {
    if j < |ps| - 1 {
      PaidTwice(ps[..|ps| - 1], i, j);
    } else {
      PaymentListed(ps[..j], i);
    }
  }

  /** No order is paid twice, and each is paid its whole deposit: its buyer if it was released, and else its seller. */
  lemma PaymentsMean(s: Chain)
    requires Sound(s)
    ensures forall i, j :: 0 <= i < j < |s.payments| ==> s.payments[i].id != s.payments[j].id
    ensures forall i :: 0 <= i < |s.payments| ==>
      var p := s.payments[i];
      && p.id in s.deposits && p.id in s.escrows && p.amount == s.deposits[p.id].amount
      && ((s.escrows[p.id].state == Released && p.to == s.deposits[p.id].buyer) ||
          (s.escrows[p.id].state == Refunded && p.to == s.deposits[p.id].seller))
  {
    hide PaymentsOf;
    CoversLive(s);
    forall i, j | 0 <= i < j < |s.payments| ensures s.payments[i].id != s.payments[j].id {
      if s.payments[i].id == s.payments[j].id {
        PaidTwice(s.payments, i, j);
        OnePayment(s, s.payments[i].id);
      }
    }
    forall i | 0 <= i < |s.payments|
      ensures var p := s.payments[i];
        && p.id in s.escrows && p.id in s.deposits && p in PaymentsOf(s.payments, p.id) && OrderOk(s, p.id)
    {
      PaymentListed(s.payments, i);
    }
  }

  lemma OnePayment(s: Chain, id: OrderId)
    requires Sound(s)
    ensures |PaymentsOf(s.payments, id)| <= 1
  {
    assert id in s.escrows ==> OrderOk(s, id);
  }

  /** Deposits and payments are never taken back by a later call, re-entrant or not. */
  lemma {:induction false} HistoryGrows(s: Chain, c: Call)
    requires Sound(s)
    ensures s.payments <= After(s, c).payments
    ensures forall id :: id in s.deposits ==> id in After(s, c).deposits && After(s, c).deposits[id] == s.deposits[id]
    decreases c, 1
  {
    hide Sound;
    hide After;
    if Pays(c) {
      PayoutUnfolds(s, c);
      if MayPay(s, c) {
        PaidOutSound(s, c.id, ToBuyer(c));
        ReceivedGrows(PaidOut(s, c.id, ToBuyer(c)), c.receiver);
      }
    } else {
      SimpleGrows(s, c);
    }
  }

  lemma SimpleGrows(s: Chain, c: Call)
    requires Sound(s) && !Pays(c)
    ensures After(s, c).payments == s.payments
    ensures forall id :: id in s.deposits ==> id in After(s, c).deposits && After(s, c).deposits[id] == s.deposits[id]
  {
    if c.Create? && c.id in s.escrows {
      assert OrderOk(s, c.id);
    }
  }

  lemma {:induction false} ReceivedGrows(s: Chain, r: Receiver)
    requires Sound(s)
    ensures s.payments <= Received(s, r).payments
    ensures forall id :: id in s.deposits ==>
      id in Received(s, r).deposits && Received(s, r).deposits[id] == s.deposits[id]
    decreases r
  {
    if r.Calls? {
      HistoryGrows(s, r.first);
      AfterSound(s, r.first);
      ReceivedGrows(After(s, r.first), r.rest);
    }
  }

  /** A payment in the log stays the only one of its order for good. */
  lemma PaidOnce(s: Chain, r: Receiver, id: OrderId)
    requires Sound(s) && PaymentsOf(s.payments, id) != []
    ensures PaymentsOf(Received(s, r).payments, id) == PaymentsOf(s.payments, id)
  {
    ReceivedSound(s, r);
    ReceivedGrows(s, r);
    CoversLive(Received(s, r));
    PaymentsPrefix(s.payments, Received(s, r).payments, id);
  }

  lemma {:induction false} PaymentsPrefix(a: seq<Payment>, b: seq<Payment>, id: OrderId)
    requires a <= b
    ensures PaymentsOf(a, id) <= PaymentsOf(b, id)
    decreases b
  {
    if |a| < |b| {
      PaymentsPrefix(a, b[..|b| - 1], id);
    } else {
      assert a == b;
    }
  }
}
