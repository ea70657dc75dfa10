/** What becomes of queued transactions and their authorizations on chain, where an authorization uses
    up a nonce of its authority whoever sent the transaction that carries it. */
module NonceReplay {
  import opened Common
  import opened Nonces

  /** EIP-7702 processing: an authorization whose nonce is its authority's current one is taken and
      uses up the nonce; any other is skipped. */
  function Taken(accounts: Accounts, auths: seq<Authorization>): Accounts {
    if auths == [] then accounts
    else
      var m, last := Taken(accounts, DropLast(auths)), Last(auths);
      if last.authority.Some? && last.nonce == NonceOf(m, last.authority.value)
      then Advanced(m, last.authority.value, 1) else m
  }

  predicate AllTaken(accounts: Accounts, auths: seq<Authorization>, a: Address) {
    auths == [] ||
    (AllTaken(accounts, DropLast(auths), a) &&
     (Last(auths).authority == Some(a) ==> Last(auths).nonce == NonceOf(Taken(accounts, DropLast(auths)), a)))
  }

  /** A transaction is valid at its sender's current nonce, which it uses up first. */
  function Replayed(accounts: Accounts, queue: seq<Transaction>): Option<Accounts> {
    if queue == [] then Some(accounts)
    else
      var m, tx := Replayed(accounts, DropLast(queue)), Last(queue);
      if m.None? || tx.nonce != NonceOf(m.value, tx.from) then None
      else Some(Taken(Advanced(m.value, tx.from, 1), tx.authorizations))
  }

  /** Every transaction is valid, and every authorization of `a` they carry is taken. */
  predicate AllAccepted(accounts: Accounts, queue: seq<Transaction>, a: Address) {
    queue == [] ||
    (AllAccepted(accounts, DropLast(queue), a) && Replayed(accounts, queue).Some? &&
     AllTaken(Advanced(Replayed(accounts, DropLast(queue)).value, Last(queue).from, 1), Last(queue).authorizations, a))
  }

  /** One authority's authorizations are all taken exactly when they count up from its nonce. */
  lemma {:induction false} AllTakenIff(accounts: Accounts, auths: seq<Authorization>, a: Address)
    ensures var nonces, n := NoncesFor(auths, a), NonceOf(accounts, a);
            && (AllTaken(accounts, auths, a) <==> nonces == Range(n, |nonces|))
            && (AllTaken(accounts, auths, a) ==> NonceOf(Taken(accounts, auths), a) == n + |nonces|)
  {
    if auths != [] {
      AllTakenIff(accounts, DropLast(auths), a);
      var before, n := NoncesFor(DropLast(auths), a), NonceOf(accounts, a);
      if Last(auths).authority == Some(a) {
        RangeSnoc(n, |before|);
        var after := NoncesFor(auths, a);
        if after == Range(n, |after|) {
          assert before == after[..|before|] == Range(n, |before|);
          assert Last(after) == n + |before|;
        }
      }
    }
  }

  lemma {:induction false} TakenAdvances(accounts: Accounts, auths: seq<Authorization>, a: Address)
    ensures NonceOf(Taken(accounts, auths), a) >= NonceOf(accounts, a)
  {
    if auths != [] {
      TakenAdvances(accounts, DropLast(auths), a);
    }
  }

  // ---- Any queue -------------------------------------------------------------------------

  /** Every nonce of an account that a queue asks the chain for: those of its transactions and those
      of its authorizations, whoever sends the transaction that carries them. */
  function FullTrail(queue: seq<Transaction>, a: Address): seq<nat> {
    if queue == [] then [] else FullTrail(DropLast(queue), a) + FullTrailOf(Last(queue), a)
  }

  function FullTrailOf(tx: Transaction, a: Address): seq<nat> {
    (if tx.from == a then [tx.nonce] else []) + NoncesFor(tx.authorizations, a)
  }

  ghost predicate CountsUp(nonces: seq<nat>, n: nat) {
    nonces == Range(n, |nonces|)
  }

  lemma CountsUpConcat(a: seq<nat>, b: seq<nat>, n: nat)
    ensures CountsUp(a + b, n) <==> CountsUp(a, n) && CountsUp(b, n + |a|)
  {
    var all := a + b;
    if CountsUp(all, n) {
      assert forall i :: 0 <= i < |a| ==> a[i] == all[i];
      assert forall i :: 0 <= i < |b| ==> b[i] == all[|a| + i];
    }
  }

  /** What one transaction asks for is granted if it counts up from the nonce on chain. */
  lemma GrantedIff(m: Accounts, tx: Transaction, a: Address)
    requires tx.nonce == NonceOf(m, tx.from)
    ensures var m' := Advanced(m, tx.from, 1);
            && (AllTaken(m', tx.authorizations, a) <==> CountsUp(FullTrailOf(tx, a), NonceOf(m, a)))
            && (CountsUp(FullTrailOf(tx, a), NonceOf(m, a)) ==>
                  NonceOf(Taken(m', tx.authorizations), a) == NonceOf(m, a) + |FullTrailOf(tx, a)|)
  {
    var nonces := NoncesFor(tx.authorizations, a);
    AllTakenIff(Advanced(m, tx.from, 1), tx.authorizations, a);
    if tx.from == a {
      CountsUpConcat([tx.nonce], nonces, NonceOf(m, a));
      assert CountsUp([tx.nonce], NonceOf(m, a));
    } else {
      assert [] + nonces == nonces;
    }
  }

  /** If every transaction is valid, the authorizations of an account are all taken if and only if all
      that is asked of it counts up from its nonce; it is then left past all of that. */
  lemma {:induction false} AcceptedIffTrail(accounts: Accounts, queue: seq<Transaction>, a: Address)
    requires Replayed(accounts, queue).Some?
    ensures AllAccepted(accounts, queue, a) <==> CountsUp(FullTrail(queue, a), NonceOf(accounts, a))
    ensures AllAccepted(accounts, queue, a) ==>
      NonceOf(Replayed(accounts, queue).value, a) == NonceOf(accounts, a) + |FullTrail(queue, a)|
  {
    if queue != [] {
      var before, tx := DropLast(queue), Last(queue);
      AcceptedIffTrail(accounts, before, a);
      GrantedIff(Replayed(accounts, before).value, tx, a);
      assert CountsUp(FullTrail(queue, a), NonceOf(accounts, a)) <==>
             CountsUp(FullTrail(before, a), NonceOf(accounts, a)) &&
             CountsUp(FullTrailOf(tx, a), NonceOf(accounts, a) + |FullTrail(before, a)|) by {
        CountsUpConcat(FullTrail(before, a), FullTrailOf(tx, a), NonceOf(accounts, a));
      }
    }
  }

  ghost predicate TrailHolds(accounts: Accounts, queue: seq<Transaction>, a: Address) {
    CountsUp(FullTrail(queue, a), NonceOf(accounts, a))
  }

  /** If all that is asked of every sender counts up, every transaction is valid. */
  lemma {:induction false} SendersReplay(accounts: Accounts, queue: seq<Transaction>)
    requires forall tx :: tx in queue ==> TrailHolds(accounts, queue, tx.from)
    ensures Replayed(accounts, queue).Some?
  {
    if queue != [] {
      var before, last := DropLast(queue), Last(queue);
      forall tx | tx in before
        ensures TrailHolds(accounts, before, tx.from)
      {
        assert tx in queue;
        CountsUpConcat(FullTrail(before, tx.from), FullTrailOf(last, tx.from), NonceOf(accounts, tx.from));
      }
      SendersReplay(accounts, before);
      assert last in queue;
      NextSenderIsValid(accounts, before, last);
    }
  }

  lemma NextSenderIsValid(accounts: Accounts, before: seq<Transaction>, last: Transaction)
    requires Replayed(accounts, before).Some?
    requires CountsUp(FullTrail(before, last.from) + FullTrailOf(last, last.from), NonceOf(accounts, last.from))
    ensures last.nonce == NonceOf(Replayed(accounts, before).value, last.from)
  {
    var n, done := NonceOf(accounts, last.from), FullTrail(before, last.from);
    var nonces := NoncesFor(last.authorizations, last.from);
    CountsUpConcat(done, [last.nonce] + nonces, n);
    CountsUpConcat([last.nonce], nonces, n + |done|);
    assert Range(n + |done|, 1)[0] == n + |done|;
    AcceptedIffTrail(accounts, before, last.from);
  }

  ghost predicate EveryTrailHolds(accounts: Accounts, queue: seq<Transaction>) {
    forall a :: TrailHolds(accounts, queue, a)
  }

  /** Every transaction is valid and every authorization is taken. */
  ghost predicate IsAccepted(accounts: Accounts, queue: seq<Transaction>) {
    Replayed(accounts, queue).Some? && forall a :: AllAccepted(accounts, queue, a)
  }

  /** For any queue, with any number of senders: it is accepted if and only if, for every account, all
      that is asked of it counts up from its nonce. Every account is then left past all of that. */
  lemma {:induction false} QueueAcceptedIff(accounts: Accounts, queue: seq<Transaction>)
    ensures IsAccepted(accounts, queue) <==> EveryTrailHolds(accounts, queue)
    ensures IsAccepted(accounts, queue) ==>
      forall a :: NonceOf(Replayed(accounts, queue).value, a) == NonceOf(accounts, a) + |FullTrail(queue, a)|
  {
    if EveryTrailHolds(accounts, queue) {
      assert forall tx :: tx in queue ==> TrailHolds(accounts, queue, tx.from);
      SendersReplay(accounts, queue);
      forall a
        ensures AllAccepted(accounts, queue, a)
      {
        assert TrailHolds(accounts, queue, a);
        AcceptedIffTrail(accounts, queue, a);
      }
    }
    if IsAccepted(accounts, queue) {
      forall a
        ensures TrailHolds(accounts, queue, a)
        ensures NonceOf(Replayed(accounts, queue).value, a) == NonceOf(accounts, a) + |FullTrail(queue, a)|
      {
        assert AllAccepted(accounts, queue, a);
        AcceptedIffTrail(accounts, queue, a);
      }
    }
  }

  // ---- Queues of benign runs -------------------------------------------------------------

  predicate Carries(tx: Transaction, a: Address) {
    NoncesFor(tx.authorizations, a) != []
  }

  predicate Concerns(tx: Transaction, a: Address) {
    tx.from == a || Carries(tx, a)
  }

  /** An authorization of the account is carried by a transaction of another sender. The simulation
      does not move the account's nonce for it; the chain does. */
  predicate CarriedAbroad(queue: seq<Transaction>, a: Address) {
    queue != [] && (CarriedAbroad(DropLast(queue), a) || (Last(queue).from != a && Carries(Last(queue), a)))
  }

  /** No transaction of the account comes after one of its authorizations carried abroad. */
  predicate NoneOvertaken(queue: seq<Transaction>, a: Address) {
    queue == [] ||
    (NoneOvertaken(DropLast(queue), a) && (Last(queue).from == a ==> !CarriedAbroad(DropLast(queue), a)))
  }

  /** Nor does any transaction that carries another authorization of the account. */
  predicate NoneLate(queue: seq<Transaction>, a: Address) {
    queue == [] ||
    (NoneLate(DropLast(queue), a) && (Concerns(Last(queue), a) ==> !CarriedAbroad(DropLast(queue), a)))
  }

  ghost predicate IsAbroad(queue: seq<Transaction>, i: nat, a: Address)
    requires i < |queue|
  {
    queue[i].from != a && Carries(queue[i], a)
  }

  /** The same by position. */
  lemma {:induction false} LateByPosition(queue: seq<Transaction>, a: Address)
    ensures NoneOvertaken(queue, a) <==>
            forall i, j :: 0 <= i < j < |queue| && IsAbroad(queue, i, a) ==> queue[j].from != a
    ensures NoneLate(queue, a) <==>
            forall i, j :: 0 <= i < j < |queue| && IsAbroad(queue, i, a) ==> !Concerns(queue[j], a)
  {
    if queue != [] {
      var before, k := DropLast(queue), |queue| - 1;
      LateByPosition(before, a);
      assert forall i :: 0 <= i < k ==> queue[i] == before[i] && IsAbroad(queue, i, a) == IsAbroad(before, i, a);
      assert CarriedAbroad(before, a) <==> exists i :: 0 <= i < k && IsAbroad(queue, i, a) by {
        AbroadByPosition(before, a);
      }
    }
  }

  lemma {:induction false} AbroadByPosition(queue: seq<Transaction>, a: Address)
    ensures CarriedAbroad(queue, a) <==> exists i :: 0 <= i < |queue| && IsAbroad(queue, i, a)
  {
    if queue != [] {
      var before, k := DropLast(queue), |queue| - 1;
      AbroadByPosition(before, a);
      assert forall i :: 0 <= i < k ==> IsAbroad(queue, i, a) == IsAbroad(before, i, a);
      assert IsAbroad(queue, k, a) <==> Last(queue).from != a && Carries(Last(queue), a);
    }
  }

  /** What a transaction of a benign run asks of an account counts up from its simulated nonce. */
  lemma AskedIsSimulated(tx: Transaction, a: Address, now: nat)
    requires QueuedAt(tx, a, now)
    ensures CountsUp(FullTrailOf(tx, a), now)
    ensures |FullTrailOf(tx, a)| == |TrailOf(tx, a)| + if tx.from != a then |NoncesFor(tx.authorizations, a)| else 0
  {
    var nonces := NoncesFor(tx.authorizations, a);
    if tx.from == a {
      CountsUpConcat([tx.nonce], nonces, now);
      assert CountsUp([tx.nonce], now);
    } else {
      assert [] + nonces == nonces;
    }
  }

  lemma CountsUpFrom(nonces: seq<nat>, n: nat, m: nat)
    requires CountsUp(nonces, n)
    ensures CountsUp(nonces, m) <==> n == m || nonces == []
  {
    if nonces != [] {
      RangeShift(n, m, |nonces|);
    }
  }

  /** All that is asked of an account counts up exactly when none of it comes late; it goes beyond the
      account's own trail exactly when something is carried abroad. */
  lemma {:induction false} TrailIffNoneLate(queue: seq<Transaction>, a: Address, n: nat)
    requires Simulated(queue, a, n)
    ensures CountsUp(FullTrail(queue, a), n) <==> NoneLate(queue, a)
    ensures |FullTrail(queue, a)| >= |Trail(queue, a)|
    ensures |FullTrail(queue, a)| == |Trail(queue, a)| <==> !CarriedAbroad(queue, a)
  {
    if queue != [] {
      var before, tx := DropLast(queue), Last(queue);
      TrailIffNoneLate(before, a, n);
      OneMoreAsked(FullTrail(before, a), |Trail(before, a)|, tx, a, n);
    }
  }

  lemma OneMoreAsked(done: seq<nat>, own: nat, tx: Transaction, a: Address, n: nat)
    requires QueuedAt(tx, a, n + own)
    ensures var asked := FullTrailOf(tx, a);
            && (CountsUp(done + asked, n) <==> CountsUp(done, n) && (Concerns(tx, a) ==> |done| == own))
            && |asked| >= |TrailOf(tx, a)|
            && (|asked| == |TrailOf(tx, a)| <==> tx.from == a || !Carries(tx, a))
  {
    var asked := FullTrailOf(tx, a);
    AskedIsSimulated(tx, a, n + own);
    CountsUpConcat(done, asked, n);
    CountsUpFrom(asked, n + own, n + |done|);
  }

  /** While transactions are valid, the chain is never behind the simulation, and is ahead exactly when
      something was carried abroad; so no transaction of the account came after that. */
  lemma {:induction false} ChainIsAhead(accounts: Accounts, queue: seq<Transaction>, a: Address)
    requires Replayed(accounts, queue).Some? && Simulated(queue, a, NonceOf(accounts, a))
    ensures var chain := NonceOf(Replayed(accounts, queue).value, a);
            var simulated := NonceOf(accounts, a) + |Trail(queue, a)|;
            chain >= simulated && (chain == simulated <==> !CarriedAbroad(queue, a))
    ensures NoneOvertaken(queue, a)
  {
    if queue != [] {
      var before, tx := DropLast(queue), Last(queue);
      ChainIsAhead(accounts, before, a);
      var m, now := Replayed(accounts, before).value, NonceOf(accounts, a) + |Trail(before, a)|;
      ChainStep(m, tx, a, now);
    }
  }

  lemma ChainStep(m: Accounts, tx: Transaction, a: Address, now: nat)
    requires tx.nonce == NonceOf(m, tx.from) && QueuedAt(tx, a, now) && NonceOf(m, a) >= now
    ensures var chain, simulated :=
              NonceOf(Taken(Advanced(m, tx.from, 1), tx.authorizations), a), now + |TrailOf(tx, a)|;
            && chain >= simulated
            && (chain == simulated <==> NonceOf(m, a) == now && (tx.from == a || !Carries(tx, a)))
            && (tx.from == a ==> NonceOf(m, a) == now)
  {
    AskedIsSimulated(tx, a, now);
    GrantedIff(m, tx, a);
    CountsUpFrom(FullTrailOf(tx, a), now, NonceOf(m, a));
    TakenAdvances(Advanced(m, tx.from, 1), tx.authorizations, a);
  }

  lemma {:induction false} NotOvertakenReplays(accounts: Accounts, queue: seq<Transaction>)
    requires forall tx :: tx in queue ==>
      Simulated(queue, tx.from, NonceOf(accounts, tx.from)) && NoneOvertaken(queue, tx.from)
    ensures Replayed(accounts, queue).Some?
  {
    if queue != [] {
      var before, last := DropLast(queue), Last(queue);
      forall tx | tx in before
        ensures Simulated(before, tx.from, NonceOf(accounts, tx.from)) && NoneOvertaken(before, tx.from)
      {
        assert tx in queue;
      }
      NotOvertakenReplays(accounts, before);
      assert last in queue;
      ChainIsAhead(accounts, before, last.from);
    }
  }

  /** On runs benign to every sender: every queued transaction is valid on chain if and only if none
      comes after a transaction of another sender that carries an authorization of its own sender. */
  lemma {:induction false} QueueReplaysIff(start: State, events: seq<Event>)
    requires IsFresh(start) && SendersBenign(start, events)
    ensures var queue := Run(start, events).queue;
            Replayed(start.accounts, queue).Some? <==> forall tx :: tx in queue ==> NoneOvertaken(queue, tx.from)
  {
    var queue := Run(start, events).queue;
    forall tx | tx in queue
      ensures Simulated(queue, tx.from, NonceOf(start.accounts, tx.from))
    {
      BenignIsOrderly(start, events, tx.from);
    }
    if forall tx :: tx in queue ==> NoneOvertaken(queue, tx.from) {
      NotOvertakenReplays(start.accounts, queue);
    } else if Replayed(start.accounts, queue).Some? {
      forall tx | tx in queue
        ensures NoneOvertaken(queue, tx.from)
      {
        ChainIsAhead(start.accounts, queue, tx.from);
      }
    }
  }

  ghost predicate SendersBenign(start: State, events: seq<Event>) {
    forall tx :: tx in Run(start, events).queue ==> BenignThroughout(start, events, tx.from)
  }

  /** On runs benign to an account whose queue replays: its authorizations are all taken if and only if
      none is carried after one carried abroad, and it ends on chain where the simulation left it if
      and only if none is carried abroad at all. */
  lemma {:induction false} AcceptedIffNoneLate(start: State, events: seq<Event>, a: Address)
    requires IsFresh(start) && BenignThroughout(start, events, a)
    requires Replayed(start.accounts, Run(start, events).queue).Some?
    ensures var s := Run(start, events);
            && (AllAccepted(start.accounts, s.queue, a) <==> NoneLate(s.queue, a))
            && (NonceOf(Replayed(start.accounts, s.queue).value, a) == NonceOf(s.accounts, a) <==>
                !CarriedAbroad(s.queue, a))
  {
    var queue := Run(start, events).queue;
    BenignIsOrderly(start, events, a);
    AcceptedIffTrail(start.accounts, queue, a);
    TrailIffNoneLate(queue, a, NonceOf(start.accounts, a));
    ChainIsAhead(start.accounts, queue, a);
  }

  ghost predicate AllBenign(start: State, events: seq<Event>) {
    forall a :: BenignThroughout(start, events, a)
  }

  ghost predicate NothingLate(queue: seq<Transaction>) {
    forall a :: NoneLate(queue, a)
  }

  /** On runs benign to every account: the whole queue is accepted if and only if nothing of any account
      comes after an authorization of it carried abroad. */
  lemma {:induction false} RunAcceptedIff(start: State, events: seq<Event>)
    requires IsFresh(start) && AllBenign(start, events)
    ensures IsAccepted(start.accounts, Run(start, events).queue) <==> NothingLate(Run(start, events).queue)
  {
    var queue := Run(start, events).queue;
    forall a
      ensures TrailHolds(start.accounts, queue, a) <==> NoneLate(queue, a)
    {
      assert BenignThroughout(start, events, a);
      BenignIsOrderly(start, events, a);
      TrailIffNoneLate(queue, a, NonceOf(start.accounts, a));
    }
    QueueAcceptedIff(start.accounts, queue);
    TrailsHoldIffNothingLate(start.accounts, queue);
  }

  lemma TrailsHoldIffNothingLate(accounts: Accounts, queue: seq<Transaction>)
    requires forall a :: TrailHolds(accounts, queue, a) <==> NoneLate(queue, a)
    ensures EveryTrailHolds(accounts, queue) <==> NothingLate(queue)
  {
    if EveryTrailHolds(accounts, queue) {
      forall a
        ensures NoneLate(queue, a)
      {
        assert TrailHolds(accounts, queue, a);
      }
    }
    if NothingLate(queue) {
      forall a
        ensures TrailHolds(accounts, queue, a)
      {
        assert NoneLate(queue, a);
      }
    }
  }

  /** How many queued transactions carry authorizations of an authority. */
  function Carriers(queue: seq<Transaction>, a: Address): nat {
    if queue == [] then 0
    else Carriers(DropLast(queue), a) + if Carries(Last(queue), a) then 1 else 0
  }

  lemma {:induction false} CarriersDecide(queue: seq<Transaction>, a: Address)
    requires forall tx :: tx in queue ==> tx.from != a
    ensures NoneLate(queue, a) <==> Carriers(queue, a) <= 1
    ensures CarriedAbroad(queue, a) <==> Carriers(queue, a) > 0
  {
    if queue != [] {
      var before, tx := DropLast(queue), Last(queue);
      assert tx in queue;
      assert forall t :: t in before ==> t in queue;
      CarriersDecide(before, a);
    }
  }

  /** For an authority that sends none of the queue: the simulation never moves its nonce, so its
      authorizations are all taken on chain if and only if no more than one transaction carries any. */
  lemma {:induction false} OthersAcceptedIffCarriedOnce(start: State, events: seq<Event>, a: Address)
    requires IsFresh(start) && BenignThroughout(start, events, a)
    requires Replayed(start.accounts, Run(start, events).queue).Some?
    requires forall tx :: tx in Run(start, events).queue ==> tx.from != a
    ensures AllAccepted(start.accounts, Run(start, events).queue, a) <==> Carriers(Run(start, events).queue, a) <= 1
  {
    AcceptedIffNoneLate(start, events, a);
    CarriersDecide(Run(start, events).queue, a);
  }

  /** If one account sent all of the queue, every transaction is valid, every authorization it signed
      is taken, and it ends at its simulated nonce. */
  lemma {:induction false} QueueReplays(start: State, events: seq<Event>, origin: Address)
    requires IsFresh(start) && BenignThroughout(start, events, origin)
    requires forall tx :: tx in Run(start, events).queue ==> tx.from == origin
    ensures var s := Run(start, events);
            && AllAccepted(start.accounts, s.queue, origin) && Replayed(start.accounts, s.queue).Some?
            && NonceOf(Replayed(start.accounts, s.queue).value, origin) == NonceOf(s.accounts, origin)
  {
    LateByPosition(Run(start, events).queue, origin);
    QueueReplaysIff(start, events);
    AcceptedIffNoneLate(start, events, origin);
  }

  // ---- Where the counts go wrong ---------------------------------------------------------

  function AuthorizationOf(authority: Address, nonce: nat): Authorization {
    Authorization(Some(authority), 7, nonce, 0)
  }

  const DELEGATES: map<Address, Address> := map[1 := 7, 5 := 7]

  /** A broadcast of account 1 by account 2 at depth 1; accounts 1 and 5 are delegated already. */
  function Broadcasting(nonce: nat, pending: seq<Authorization>, queue: seq<Transaction>): State {
    State(map[1 := nonce], DELEGATES, pending, false, Some(Broadcast(1, 2, 1, false, false)), queue, false, 0)
  }

  lemma AttachHere(nonce: nat, queue: seq<Transaction>, auth: Authorization)
    requires auth == AuthorizationOf(1, nonce + 1) || auth == AuthorizationOf(5, 0)
    ensures Next(Broadcasting(nonce, [], queue), Attach(auth)) == Broadcasting(nonce, [auth], queue)
  {
    assert DELEGATES[1 := 7] == DELEGATES && DELEGATES[5 := 7] == DELEGATES;
  }

  lemma CreateHere(nonce: nat, pending: seq<Authorization>, queue: seq<Transaction>)
    ensures Next(Broadcasting(nonce, pending, queue), Create(2, 1)) ==
            Broadcasting(nonce + 1, pending, queue + [Transaction(1, None, nonce, [], false)])
  {
  }

  lemma CallHere(nonce: nat, auth: Authorization, queue: seq<Transaction>)
    ensures Next(Broadcasting(nonce, [auth], queue), Call(2, 3, 1, false)) ==
            Broadcasting(nonce + if auth.authority == Some(1) then 2 else 1, [],
                         queue + [Transaction(1, Some(3), nonce, [auth], false)])
  {
    NoncesOfOne(auth, 1);
  }

  lemma NoncesOfOne(auth: Authorization, a: Address)
    ensures NoncesFor([auth], a) == if auth.authority == Some(a) then [auth.nonce] else []
  {
    assert DropLast([auth]) == [];
  }

  lemma ThreeSteps(s: State, s1: State, s2: State, a: Event, b: Event, c: Event)
    requires Next(s, a) == s1 && Next(s1, b) == s2
    ensures Run(s, [a]) == s1 && Run(s, [a, b, c]) == Next(s2, c)
  {
    assert DropLast([a, b, c]) == [a, b] && DropLast([a, b]) == [a] && DropLast([a]) == [];
  }

  lemma FullTrailOfTwo(a: Transaction, b: Transaction, account: Address)
    ensures FullTrail([a, b], account) == FullTrailOf(a, account) + FullTrailOf(b, account)
  {
    assert DropLast([a, b]) == [a] && DropLast([a]) == [] && FullTrail([], account) == [];
    assert FullTrail([a], account) == [] + FullTrailOf(a, account) == FullTrailOf(a, account);
  }

  function CreateWith(nonce: nat): Transaction {
    Transaction(1, None, nonce, [], false)
  }

  function CallWith(auth: Authorization, nonce: nat): Transaction {
    Transaction(1, Some(3), nonce, [auth], false)
  }

  /** A create in between: the authorization attached before it, and accepted by the simulation, is
      not taken on chain. */
  lemma CreateBreaksCount(n: nat)
    ensures var start := Broadcasting(n, [], []);
            var events := [Attach(AuthorizationOf(1, n + 1)), Create(2, 1), Call(2, 3, 1, false)];
            && IsFresh(start) && !BenignAt(start, events, 1, 1)
            && !AllAccepted(start.accounts, Run(start, events).queue, 1)
  {
    var start, auth := Broadcasting(n, [], []), AuthorizationOf(1, n + 1);
    var attach, create, call := Attach(auth), Create(2, 1), Call(2, 3, 1, false);
    AttachCreateAndCall(n, start, auth, attach, create, call);
    assert !Benign(Broadcasting(n, [auth], []), create, 1) by {
      NoncesOfOne(auth, 1);
    }
    assert [attach, create, call][..1] == [attach];
    StaleCallIsRefused(n, start.accounts, [CreateWith(n), CallWith(auth, n + 1)]);
  }

  lemma AttachCreateAndCall(n: nat, start: State, auth: Authorization, attach: Event, create: Event, call: Event)
    requires start == Broadcasting(n, [], []) && auth == AuthorizationOf(1, n + 1)
    requires attach == Attach(auth) && create == Create(2, 1) && call == Call(2, 3, 1, false)
    ensures Run(start, [attach]) == Broadcasting(n, [auth], [])
    ensures Run(start, [attach, create, call]).queue == [CreateWith(n), CallWith(auth, n + 1)]
  {
    var s1, s2 := Broadcasting(n, [auth], []), Broadcasting(n + 1, [auth], [CreateWith(n)]);
    assert Next(start, attach) == s1 by {
      AttachHere(n, [], auth);
    }
    assert Next(s1, create) == s2 by {
      CreateHere(n, [auth], []);
      assert [] + [CreateWith(n)] == [CreateWith(n)];
    }
    assert Next(s2, call).queue == [CreateWith(n)] + [CallWith(auth, n + 1)] by {
      CallHere(n + 1, auth, [CreateWith(n)]);
    }
    ThreeSteps(start, s1, s2, attach, create, call);
  }

  lemma StaleCallIsRefused(n: nat, accounts: Accounts, queue: seq<Transaction>)
    requires accounts == map[1 := n] && queue == [CreateWith(n), CallWith(AuthorizationOf(1, n + 1), n + 1)]
    ensures !AllAccepted(accounts, queue, 1)
  {
    assert FullTrail(queue, 1) == [n, n + 1, n + 1] by {
      FullTrailOfTwo(queue[0], queue[1], 1);
      NoncesOfOne(AuthorizationOf(1, n + 1), 1);
    }
    assert Range(n, 3)[2] == n + 2;
    if AllAccepted(accounts, queue, 1) {
      AcceptedIffTrail(accounts, queue, 1);
    }
  }

  /** Two calls carry an authorization of account 5, both at its unmoved nonce: only one is taken. */
  lemma CarriedTwiceIsNotTaken(n: nat)
    ensures var start, auth, call := Broadcasting(n, [], []), AuthorizationOf(5, 0), Call(2, 3, 1, false);
            !AllAccepted(start.accounts, Run(start, [Attach(auth), call, Attach(auth), call]).queue, 5)
  {
    var start, auth, call := Broadcasting(n, [], []), AuthorizationOf(5, 0), Call(2, 3, 1, false);
    var queue := [CallWith(auth, n), CallWith(auth, n + 1)];
    AttachAndCallTwice(n, start, auth, Attach(auth), call);
    RepeatedIsNotTaken(start.accounts, queue, auth, n);
  }

  lemma RepeatedIsNotTaken(accounts: Accounts, queue: seq<Transaction>, auth: Authorization, n: nat)
    requires queue == [CallWith(auth, n), CallWith(auth, n + 1)] && auth == AuthorizationOf(5, 0)
    ensures !AllAccepted(accounts, queue, 5)
  {
    assert FullTrail(queue, 5) == [0, 0] by {
      FullTrailOfTwo(queue[0], queue[1], 5);
      NoncesOfOne(auth, 5);
    }
    assert Range(NonceOf(accounts, 5), 2)[1] == NonceOf(accounts, 5) + 1;
    assert Range(NonceOf(accounts, 5), 2)[0] == NonceOf(accounts, 5);
    if AllAccepted(accounts, queue, 5) {
      AcceptedIffTrail(accounts, queue, 5);
    }
  }

  lemma AttachAndCallTwice(n: nat, start: State, auth: Authorization, attach: Event, call: Event)
    requires start == Broadcasting(n, [], []) && auth == AuthorizationOf(5, 0)
    requires attach == Attach(auth) && call == Call(2, 3, 1, false)
    ensures Run(start, [attach, call, attach, call]).queue == [CallWith(auth, n), CallWith(auth, n + 1)]
  {
    var first := [CallWith(auth, n)];
    var s1, s2, s3 := Broadcasting(n, [auth], []), Broadcasting(n + 1, [], first), Broadcasting(n + 1, [auth], first);
    assert Next(start, attach) == s1 by {
      AttachHere(n, [], auth);
    }
    assert Next(s1, call) == s2 by {
      CallHere(n, auth, []);
      assert [] + first == first;
    }
    assert Next(s2, attach) == s3 by {
      AttachHere(n + 1, first, auth);
    }
    assert Next(s3, call).queue == first + [CallWith(auth, n + 1)] by {
      CallHere(n + 1, auth, first);
    }
    FourSteps(start, s1, s2, s3, attach, call);
  }

  lemma FourSteps(start: State, s1: State, s2: State, s3: State, a: Event, b: Event)
    requires Next(start, a) == s1 && Next(s1, b) == s2 && Next(s2, a) == s3
    ensures Run(start, [a, b, a, b]) == Next(s3, b)
  {
    ThreeSteps(start, s1, s2, a, b, a);
    assert DropLast([a, b, a, b]) == [a, b, a];
  }

  /** With nothing pending any step is benign to every account, and so is a call. */
  lemma BenignSnoc(start: State, events: seq<Event>, e: Event)
    requires AllBenign(start, events) && (Run(start, events).pending == [] || e.Call?)
    ensures AllBenign(start, events + [e]) && Run(start, events + [e]) == Next(Run(start, events), e)
  {
    var after := events + [e];
    assert after[..|events|] == events && DropLast(after) == events;
    forall a, n | 0 <= n < |after|
      ensures BenignAt(start, after, n, a)
    {
      if n < |events| {
        assert BenignThroughout(start, events, a) && BenignAt(start, events, n, a);
        assert after[..n] == events[..n];
      }
    }
  }

  function CallOf5(): Transaction {
    Transaction(5, Some(3), 0, [], false)
  }

  /** Account 1's call carries an authorization of account 5, which then broadcasts a call of its own.
      Every step is benign to every account, and yet the call of account 5 is rejected on chain: the
      authorization has used up its nonce. */
  lemma OvertakenCallIsRejected(n: nat)
    ensures var start, call := Broadcasting(n, [], []), Call(2, 3, 1, false);
            var begin := Begin(Broadcast(5, 2, 1, false, false), false);
            var events := [Attach(AuthorizationOf(5, 0)), call, Stop, begin, call];
            && IsFresh(start) && AllBenign(start, events)
            && Replayed(start.accounts, Run(start, events).queue) == None
  {
    var start, call, auth := Broadcasting(n, [], []), Call(2, 3, 1, false), AuthorizationOf(5, 0);
    var attach, begin := Attach(auth), Begin(Broadcast(5, 2, 1, false, false), false);
    OvertakenRun(n, start, attach, call, begin, auth);
    NoncesOfOne(auth, 5);
    QueueIsOvertaken(start, [attach, call, Stop, begin, call], CallWith(auth, n));
  }

  lemma OvertakenRun(n: nat, start: State, attach: Event, call: Event, begin: Event, auth: Authorization)
    requires start == Broadcasting(n, [], []) && auth == AuthorizationOf(5, 0) && attach == Attach(auth)
    requires call == Call(2, 3, 1, false) && begin == Begin(Broadcast(5, 2, 1, false, false), false)
    ensures var events := [attach, call, Stop, begin, call];
            && AllBenign(start, events)
            && Run(start, events).queue == [CallWith(auth, n), CallOf5()]
  {
    var s1, s2 := Broadcasting(n, [auth], []), Broadcasting(n + 1, [], [CallWith(auth, n)]);
    assert Next(start, attach) == s1 by {
      AttachHere(n, [], auth);
    }
    assert Next(s1, call) == s2 by {
      CallHere(n, auth, []);
      assert [] + [CallWith(auth, n)] == [CallWith(auth, n)];
    }
    var s3 := Next(s2, Stop);
    var s4 := Next(s3, begin);
    SwitchSender(n, s2, begin, call, auth);
    FiveBenignSteps(start, s1, s2, s3, s4, [attach, call, Stop, begin, call]);
  }

  lemma FiveBenignSteps(start: State, s1: State, s2: State, s3: State, s4: State, events: seq<Event>)
    requires |events| == 5 && Next(start, events[0]) == s1 && Next(s1, events[1]) == s2
    requires Next(s2, events[2]) == s3 && Next(s3, events[3]) == s4
    requires start.pending == s2.pending == s3.pending == s4.pending == [] && events[1].Call?
    ensures AllBenign(start, events) && Run(start, events) == Next(s4, events[4])
  {
    assert AllBenign(start, events[..2]) && Run(start, events[..2]) == s2 by {
      BenignStep(start, events, 0, start);
      BenignStep(start, events, 1, s1);
    }
    assert AllBenign(start, events[..4]) && Run(start, events[..4]) == s4 by {
      BenignStep(start, events, 2, s2);
      BenignStep(start, events, 3, s3);
    }
    BenignStep(start, events, 4, s4);
    assert events[..5] == events;
  }

  lemma BenignStep(start: State, events: seq<Event>, n: nat, s: State)
    requires n < |events| && (s.pending == [] || events[n].Call?)
    requires n == 0 ==> s == start
    requires n > 0 ==> AllBenign(start, events[..n]) && Run(start, events[..n]) == s
    ensures AllBenign(start, events[..n + 1]) && Run(start, events[..n + 1]) == Next(s, events[n])
  {
    assert events[..n + 1] == events[..n] + [events[n]];
    assert n == 0 ==> events[..n] == [];
    BenignSnoc(start, events[..n], events[n]);
  }

  lemma SwitchSender(n: nat, s2: State, begin: Event, call: Event, auth: Authorization)
    requires s2 == Broadcasting(n + 1, [], [CallWith(auth, n)]) && call == Call(2, 3, 1, false)
    requires begin == Begin(Broadcast(5, 2, 1, false, false), false)
    ensures var s4 := Next(Next(s2, Stop), begin);
            && Next(s2, Stop).pending == [] && s4.pending == []
            && Next(s4, call).queue == [CallWith(auth, n), CallOf5()]
  {
  }

  lemma QueueIsOvertaken(start: State, events: seq<Event>, first: Transaction)
    requires IsFresh(start) && AllBenign(start, events)
    requires Run(start, events).queue == [first, CallOf5()] && first.from != 5 && Carries(first, 5)
    ensures Replayed(start.accounts, Run(start, events).queue) == None
  {
    var queue := [first, CallOf5()];
    assert DropLast(queue) == [first] && !NoneOvertaken(queue, 5);
    assert queue[1] in queue && queue[1].from == 5;
    QueueReplaysIff(start, events);
  }
}
