/** Which calls and creates a broadcast queues, and what each cheatcode and hook does to the pending
    work, stated from their inputs. */
module BroadcastQueue {
  import opened Common
  import opened Nonces

  // ---- Broadcasts ------------------------------------------------------------------------

  /** A broadcast begins unless a prank or a broadcast is active; then nothing happens. */
  lemma BeginIff(s: State, origin: Address, caller: Address, depth: nat, singleCall: bool, pranked: bool)
    ensures var t := Next(s, Begin(Broadcast(origin, caller, depth, singleCall, false), pranked));
            && (t.broadcast == s.broadcast <==> pranked || s.broadcast.Some?)
            && (pranked || s.broadcast.Some? ==> t == s)
            && (!pranked && s.broadcast.None? ==>
                  && t.broadcast.Some? && t.broadcast.value.newOrigin == origin
                  && t.broadcast.value.originalCaller == caller && t.broadcast.value.depth == depth
                  && t.broadcast.value.singleCall == singleCall && !t.broadcast.value.deployFromCode
                  && OnlyBroadcastDiffers(s, t))
  {
  }

  ghost predicate OnlyBroadcastDiffers(s: State, t: State) {
    && t.delegates == s.delegates && t.pending == s.pending && t.blob == s.blob && t.queue == s.queue
    && t.isolate == s.isolate && t.chainId == s.chainId
    && forall a :: NonceOf(t.accounts, a) == NonceOf(s.accounts, a)
  }

  /** A broadcast is over when it is stopped, or when a call or create at its depth ends and it was for
      a single call; nothing else changes. */
  lemma EndIff(s: State, depth: nat)
    ensures Next(s, Stop).broadcast == None && OnlyBroadcastDiffers(s, Next(s, Stop))
    ensures var t := Next(s, Return(depth));
            && (s.broadcast.Some? ==>
                  (t.broadcast == None <==> depth == s.broadcast.value.depth && s.broadcast.value.singleCall))
            && (t.broadcast == None || t == s) && OnlyBroadcastDiffers(s, t)
  {
  }

  /** `deployCode` marks an active broadcast and changes nothing else. */
  lemma DeployMarks(s: State)
    ensures var t := Next(s, Deploy);
            && (s.broadcast.None? ==> t == s)
            && (s.broadcast.Some? ==> t == s.(broadcast := Some(s.broadcast.value.(deployFromCode := true))))
  {
  }

  // ---- What is queued --------------------------------------------------------------------

  /** The call or create is the broadcaster's own, at the depth of the broadcast. */
  predicate IsBroadcasters(s: State, caller: Address, depth: nat) {
    s.broadcast.Some? && caller == s.broadcast.value.originalCaller && depth == s.broadcast.value.depth
  }

  predicate Qualifies(s: State, caller: Address, depth: nat, isStatic: bool) {
    IsBroadcasters(s, caller, depth) && !isStatic && !(s.pending != [] && s.blob)
  }

  /** A call is queued exactly when it is the broadcaster's, changes state and has no blob beside pending
      authorizations. It goes from the origin, at its nonce, with all the pending work, which is then
      gone; the origin's nonce moves past the call and past the origin's authorizations it carries. */
  lemma CallIsQueuedIff(s: State, caller: Address, to: Address, depth: nat, isStatic: bool)
    ensures var t := Next(s, Call(caller, to, depth, isStatic));
            && (t.queue != s.queue <==> Qualifies(s, caller, depth, isStatic))
            && (Qualifies(s, caller, depth, isStatic) ==>
                  var origin := s.broadcast.value.newOrigin;
                  var tx := Transaction(origin, Some(to), NonceOf(s.accounts, origin), s.pending, s.blob);
                  && t.queue == s.queue + [tx]
                  && t.pending == [] && !t.blob
                  && NonceOf(t.accounts, origin) == NonceOf(s.accounts, origin)
                     + |NoncesFor(s.pending, origin)| + (if s.isolate then 0 else 1)
                  && (forall a :: a != origin ==> NonceOf(t.accounts, a) == NonceOf(s.accounts, a))
                  && t.delegates == s.delegates && t.broadcast == s.broadcast)
  {
    var t := Next(s, Call(caller, to, depth, isStatic));
    if t.queue != s.queue {
      assert t.queue == s.queue + [Last(t.queue)];
    }
  }

  /** A static call, or one by another caller, at another depth or outside a broadcast, changes nothing;
      a static one by the broadcaster is refused under a broadcast for a single call, and only it. */
  lemma OtherCallsChangeNothing(s: State, caller: Address, to: Address, depth: nat, isStatic: bool)
    requires isStatic || !IsBroadcasters(s, caller, depth)
    ensures Next(s, Call(caller, to, depth, isStatic)) == s
    ensures Called(s, caller, to, depth, isStatic).fault ==
            if isStatic && IsBroadcasters(s, caller, depth) && s.broadcast.value.singleCall then Some(StaticCall)
            else None
  {
  }

  /** A blob beside pending authorizations: the call is refused, and the pending work is lost. */
  lemma ConflictLosesWork(s: State, caller: Address, to: Address, depth: nat)
    requires IsBroadcasters(s, caller, depth) && s.pending != [] && s.blob
    ensures var answer := Called(s, caller, to, depth, false);
            && answer.fault == Some(BlobAndDelegation)
            && answer.state.queue == s.queue && answer.state.pending == [] && !answer.state.blob
            && (forall a :: NonceOf(answer.state.accounts, a) == NonceOf(s.accounts, a))
  {
  }

  /** The broadcaster's create at the depth of the broadcast, or, once `deployCode` has marked it, at any
      deeper one. */
  predicate CreateQualifies(s: State, caller: Address, depth: nat) {
    && s.broadcast.Some? && caller == s.broadcast.value.originalCaller
    && (depth == s.broadcast.value.depth ||
        (depth > s.broadcast.value.depth && s.broadcast.value.deployFromCode))
  }

  /** A create is queued exactly then, from the origin at its nonce, with none of the pending work, which
      stays pending; the mark is used up and the origin's nonce moves by one. */
  lemma CreateIsQueuedIff(s: State, caller: Address, depth: nat)
    ensures var t := Next(s, Create(caller, depth));
            && (t.queue != s.queue <==> CreateQualifies(s, caller, depth))
            && (!CreateQualifies(s, caller, depth) ==> t == s)
            && (CreateQualifies(s, caller, depth) ==>
                  var origin := s.broadcast.value.newOrigin;
                  && t.queue == s.queue + [Transaction(origin, None, NonceOf(s.accounts, origin), [], false)]
                  && t.pending == s.pending && t.blob == s.blob && t.delegates == s.delegates
                  && NonceOf(t.accounts, origin) == NonceOf(s.accounts, origin) + 1
                  && (forall a :: a != origin ==> NonceOf(t.accounts, a) == NonceOf(s.accounts, a))
                  && t.broadcast == Some(s.broadcast.value.(deployFromCode := false)))
  {
    var t := Next(s, Create(caller, depth));
    if t.queue != s.queue {
      assert t.queue == s.queue + [Last(t.queue)];
    }
  }

  /** What an event queues, from the state it meets. */
  function QueuedBy(s: State, e: Event): seq<Transaction> {
    match e
    case Call(caller, to, depth, isStatic) =>
      if !Qualifies(s, caller, depth, isStatic) then []
      else
        var origin := s.broadcast.value.newOrigin;
        [Transaction(origin, Some(to), NonceOf(s.accounts, origin), s.pending, s.blob)]
    case Create(caller, depth) =>
      if !CreateQualifies(s, caller, depth) then []
      else [Transaction(s.broadcast.value.newOrigin, None, NonceOf(s.accounts, s.broadcast.value.newOrigin), [], false)]
    case _ => []
  }

  function QueuedOver(start: State, events: seq<Event>): seq<Transaction> {
    if events == [] then []
    else QueuedOver(start, DropLast(events)) + QueuedBy(Run(start, DropLast(events)), Last(events))
  }

  /** Over every run, the queue grows by exactly the calls and creates that qualify, in order. */
  lemma {:induction false} QueueIsWhatQualified(start: State, events: seq<Event>)
    ensures Run(start, events).queue == start.queue + QueuedOver(start, events)
  {
    if events == [] {
      assert start.queue + [] == start.queue;
    } else {
      var before, e := DropLast(events), Last(events);
      QueueIsWhatQualified(start, before);
      StepQueues(Run(start, before), e);
      Associative(start.queue, QueuedOver(start, before), QueuedBy(Run(start, before), e));
    }
  }

  lemma StepQueues(s: State, e: Event)
    ensures Next(s, e).queue == s.queue + QueuedBy(s, e)
  {
    assert s.queue + [] == s.queue;
    match e
    case Call(caller, to, depth, isStatic) => CallIsQueuedIff(s, caller, to, depth, isStatic);
    case Create(caller, depth) => CreateIsQueuedIff(s, caller, depth);
    case _ =>
  }

  // ---- Authorizations --------------------------------------------------------------------

  /** An authorization is accepted exactly when its signature recovers and its nonce is the next one of
      its authority. It then delegates the authority's code, or clears it for the zero address, and
      waits behind the others; a refusal says why and changes nothing. */
  lemma AttachIff(s: State, auth: Authorization)
    ensures var answer, authority := Attached(s, auth), auth.authority;
            && (answer.fault == None <==> authority.Some? && auth.nonce == ExpectedNonce(s, authority.value))
            && (authority.None? ==> answer.fault == Some(UnrecoverableAuthority))
            && (authority.Some? && auth.nonce != ExpectedNonce(s, authority.value) ==>
                  answer.fault == Some(InvalidNonce(ExpectedNonce(s, authority.value), auth.nonce)))
            && (answer.fault.Some? ==> answer.state == s)
            && (answer.fault.None? ==>
                  var t := answer.state;
                  && t.pending == s.pending + [auth]
                  && (auth.implementation == 0 ==> authority.value !in t.delegates)
                  && (auth.implementation != 0 ==>
                        authority.value in t.delegates && t.delegates[authority.value] == auth.implementation)
                  && (forall a :: a != authority.value ==>
                        (a in t.delegates <==> a in s.delegates) &&
                        (a in s.delegates ==> t.delegates[a] == s.delegates[a]))
                  && t == s.(pending := t.pending, delegates := t.delegates))
  {
  }

  /** The next nonce of an authority: one after its last pending authorization; without any, its account
      nonce, and one more while it broadcasts. */
  lemma NextNonce(s: State, a: Address)
    ensures var nonces := NoncesFor(s.pending, a);
            ExpectedNonce(s, a) == if nonces != [] then Last(nonces) + 1
                                   else NonceOf(s.accounts, a) + if Broadcasts(s, a) then 1 else 0
  {
    LastOfNonces(s.pending, a);
  }

  /** A signed authorization is the signer's, for the given implementation, at the given or the next
      nonce, and for this chain or every chain. */
  lemma SignedIs(s: State, authority: Address, implementation: Address, nonce: Option<nat>, crossChain: bool)
    ensures var auth := Signed(s, authority, implementation, nonce, crossChain);
            && auth.authority == Some(authority) && auth.implementation == implementation
            && auth.nonce == (if nonce.Some? then nonce.value else ExpectedNonce(s, authority))
            && auth.chainId == (if crossChain then 0 else s.chainId)
  {
  }
}
