/** `vm.deal` overwrites a balance behind the journal's back and logs the old one; a revert at the
    top level rolls the logged deals back before the journal undoes its transfers. */
module Deals {
  import opened Common

  type Address = nat

  datatype DealRecord = DealRecord(address: Address, oldBalance: nat, newBalance: nat)

  /** Balances of the accounts in the journal, and the deal log, oldest first. */
  datatype State = State(balances: map<Address, nat>, deals: seq<DealRecord>)

  /** `loaded` is the balance the database gives an account that the journal does not hold. */
  datatype Event =
    | Deal(address: Address, newBalance: nat, loaded: nat)
    | Change(address: Address, balance: nat)
    | Drop(address: Address)

  function BalanceBefore(s: State, e: Event): nat
    requires e.Deal?
  {
    if e.address in s.balances then s.balances[e.address] else e.loaded
  }

  function Next(s: State, e: Event): State {
    match e
    case Deal(a, balance, _) =>
      State(s.balances[a := balance], s.deals + [DealRecord(a, BalanceBefore(s, e), balance)])
    case Change(a, balance) => s.(balances := s.balances[a := balance])
    case Drop(a) => s.(balances := s.balances - {a})
  }

  function Run(s: State, events: seq<Event>): State {
    if events == [] then s else Next(Run(s, DropLast(events)), Last(events))
  }

  function Undone(balances: map<Address, nat>, record: DealRecord): map<Address, nat> {
    if record.address in balances then balances[record.address := record.oldBalance] else balances
  }

  /** Undo the log from its end. */
  function RolledBack(balances: map<Address, nat>, deals: seq<DealRecord>): map<Address, nat> {
    if deals == [] then balances else RolledBack(Undone(balances, Last(deals)), DropLast(deals))
  }

  class Journal {
    var balances: map<Address, nat>
    var deals: seq<DealRecord>
    var expectedRevert: bool

    constructor (balances: map<Address, nat>)
      ensures View() == State(balances, []) && !expectedRevert
    {
      this.balances, deals, expectedRevert := balances, [], false;
    }

    function View(): State
      reads this
    {
      State(balances, deals)
    }

    method ApplyDeal(address: Address, newBalance: nat, loaded: nat)
      modifies `balances, `deals
      ensures View() == Next(old(View()), Deal(address, newBalance, loaded))
    {
      if address !in balances {
        balances := balances[address := loaded];
      }
      var oldBalance := balances[address];
      balances := balances[address := newBalance];
      deals := deals + [DealRecord(address, oldBalance, newBalance)];
    }

    /** Roll every deal back, unless a revert is expected or this is not the top level. */
    method OnRevert(depth: nat)
      modifies `balances, `deals
      ensures View() == if expectedRevert || depth > 0 then old(View())
                        else State(RolledBack(old(balances), old(deals)), [])
    {
      if expectedRevert || depth > 0 {
        return;
      }
      while deals != []
        invariant RolledBack(balances, deals) == RolledBack(old(balances), old(deals))
        decreases |deals|
      {
        var record := deals[|deals| - 1];
        deals := deals[..|deals| - 1];
        if record.address in balances {
          balances := balances[record.address := record.oldBalance];
        }
      }
    }
  }

  /** The first logged deal of an account. */
  function FirstDeal(deals: seq<DealRecord>, a: Address): Option<DealRecord> {
    if deals == [] then None
    else
      var earlier := FirstDeal(DropLast(deals), a);
      if earlier.Some? then earlier else if Last(deals).address == a then Some(Last(deals)) else None
  }

  /** Rolling back leaves each account with what its first logged deal found, and touches no other. */
  lemma {:induction false} RollBackRestoresFirst(balances: map<Address, nat>, deals: seq<DealRecord>, a: Address)
    ensures a in RolledBack(balances, deals) <==> a in balances
    ensures a in balances ==>
      var first := FirstDeal(deals, a);
      RolledBack(balances, deals)[a] == if first.Some? then first.value.oldBalance else balances[a]
    decreases |deals|
  {
    if deals != [] {
      RollBackRestoresFirst(Undone(balances, Last(deals)), DropLast(deals), a);
    }
  }

  predicate IsDealOf(e: Event, a: Address) {
    e.Deal? && e.address == a
  }

  /** The event at n is the first deal of the account in the run. */
  ghost predicate FirstDealAt(events: seq<Event>, n: nat, a: Address) {
    n < |events| && IsDealOf(events[n], a) && forall i :: 0 <= i < n ==> !IsDealOf(events[i], a)
  }

  lemma {:induction false} LogHasFirst(s: State, events: seq<Event>, n: nat, a: Address)
    requires s.deals == []
    ensures (forall i :: 0 <= i < |events| ==> !IsDealOf(events[i], a)) ==> FirstDeal(Run(s, events).deals, a) == None
    ensures FirstDealAt(events, n, a) ==>
      FirstDeal(Run(s, events).deals, a).Some? &&
      FirstDeal(Run(s, events).deals, a).value.oldBalance == BalanceBefore(Run(s, events[..n]), events[n])
  {
    if events != [] {
      var before, now := DropLast(events), Run(s, DropLast(events));
      LogHasFirst(s, before, n, a);
      if Last(events).Deal? {
        assert DropLast(Run(s, events).deals) == now.deals;
      }
      if n < |before| {
        assert events[..n] == before[..n];
        assert FirstDealAt(events, n, a) ==> FirstDealAt(before, n, a);
      } else if n == |before| {
        assert events[..n] == before;
      }
    }
  }

  /** After any run of deals and other balance changes, a top-level revert leaves each dealt account
      that is still in the journal with its balance from just before its first deal, and every
      other account as it was. */
  lemma RevertUndoesDeals(s: State, events: seq<Event>, n: nat, a: Address)
    requires s.deals == [] && a in Run(s, events).balances
    ensures var end := Run(s, events);
            var restored := RolledBack(end.balances, end.deals);
            && a in restored
            && (FirstDealAt(events, n, a) ==> restored[a] == BalanceBefore(Run(s, events[..n]), events[n]))
            && ((forall i :: 0 <= i < |events| ==> !IsDealOf(events[i], a)) ==> restored[a] == end.balances[a])
  {
    LogHasFirst(s, events, n, a);
    RollBackRestoresFirst(Run(s, events).balances, Run(s, events).deals, a);
  }

  /** A deal leaves its account with the new balance, and logs it with the one that it found. */
  lemma DealSets(s: State, address: Address, newBalance: nat, loaded: nat)
    ensures var t := Next(s, Deal(address, newBalance, loaded));
            && address in t.balances && t.balances[address] == newBalance
            && (forall a :: a != address ==>
                  (a in t.balances <==> a in s.balances) && (a in s.balances ==> t.balances[a] == s.balances[a]))
            && |t.deals| == |s.deals| + 1 && DropLast(t.deals) == s.deals
            && Last(t.deals).address == address && Last(t.deals).newBalance == newBalance
            && Last(t.deals).oldBalance == if address in s.balances then s.balances[address] else loaded
  {
  }
}
