/** Broadcast and delegation nonces: transactions queued under broadcasts, and the EIP-7702
    authorizations that wait to be carried by the next of them. */
module Nonces {
  import opened Common

  type Address = nat

  /** A signed authorization; `authority` is what its signature recovers to, if anything. */
  datatype Authorization = Authorization(authority: Option<Address>, implementation: Address, nonce: nat, chainId: nat)

  datatype Transaction = Transaction(
    from: Address, to: Option<Address>, nonce: nat, authorizations: seq<Authorization>, blob: bool)

  /** `deployFromCode` lets the next create through at any depth below the broadcast's. */
  datatype Broadcast = Broadcast(
    newOrigin: Address, originalCaller: Address, depth: nat, singleCall: bool, deployFromCode: bool)

  datatype Fault = UnrecoverableAuthority | InvalidNonce(expected: nat, got: nat) | BlobAndDelegation | StaticCall

  type Accounts = map<Address, nat>

  function NonceOf(accounts: Accounts, a: Address): nat {
    if a in accounts then accounts[a] else 0
  }

  /** The journal's nonces and delegations, and the inspector's pending and queued work. */
  datatype State = State(
    accounts: Accounts, delegates: map<Address, Address>, pending: seq<Authorization>, blob: bool,
    broadcast: Option<Broadcast>, queue: seq<Transaction>, isolate: bool, chainId: nat)

  // ---- Operations ------------------------------------------------------------------------

  /** The last pending authorization of an authority. */
  function LastOf(pending: seq<Authorization>, authority: Address): Option<Authorization> {
    if pending == [] then None
    else if Last(pending).authority == Some(authority) then Some(Last(pending))
    else LastOf(DropLast(pending), authority)
  }

  function NextDelegationNonce(pending: seq<Authorization>, authority: Address, broadcast: Option<Broadcast>,
                               accountNonce: nat): nat {
    match LastOf(pending, authority)
    case Some(auth) => auth.nonce + 1
    case None =>
      if broadcast.Some? && broadcast.value.newOrigin == authority then accountNonce + 1 else accountNonce
  }

  function ExpectedNonce(s: State, authority: Address): nat {
    NextDelegationNonce(s.pending, authority, s.broadcast, NonceOf(s.accounts, authority))
  }

  datatype Answer = Answer(state: State, fault: Option<Fault>)

  /** Check an authorization, delegate the authority's code, and keep it for the next transaction. */
  function Attached(s: State, auth: Authorization): Answer {
    if auth.authority.None? then Answer(s, Some(UnrecoverableAuthority))
    else
      var a := auth.authority.value;
      if ExpectedNonce(s, a) != auth.nonce then Answer(s, Some(InvalidNonce(ExpectedNonce(s, a), auth.nonce)))
      else
        var delegates := if auth.implementation == 0 then s.delegates - {a} else s.delegates[a := auth.implementation];
        Answer(s.(delegates := delegates, pending := s.pending + [auth]), None)
  }

  function Signed(s: State, authority: Address, implementation: Address, nonce: Option<nat>, crossChain: bool)
    : Authorization {
    Authorization(Some(authority), implementation, if nonce.Some? then nonce.value else ExpectedNonce(s, authority),
                  if crossChain then 0 else s.chainId)
  }

  /** The nonces of one authority's authorizations, in order. */
  function NoncesFor(auths: seq<Authorization>, a: Address): seq<nat> {
    if auths == [] then []
    else NoncesFor(DropLast(auths), a) + (if Last(auths).authority == Some(a) then [Last(auths).nonce] else [])
  }

  function Advanced(accounts: Accounts, a: Address, n: nat): Accounts {
    accounts[a := NonceOf(accounts, a) + n]
  }

  /** A call at the broadcast's depth, from its caller, that may change state. */
  function Broadcasted(s: State, to: Address): Answer
    requires s.broadcast.Some?
  {
    var origin := s.broadcast.value.newOrigin;
    if s.pending != [] && s.blob then
      Answer(s.(accounts := Advanced(s.accounts, origin, 0), pending := [], blob := false), Some(BlobAndDelegation))
    else
      var tx := Transaction(origin, Some(to), NonceOf(s.accounts, origin), s.pending, s.blob);
      var bumps := |NoncesFor(s.pending, origin)| + (if s.isolate then 0 else 1);
      Answer(s.(accounts := Advanced(s.accounts, origin, bumps), pending := [], blob := false, queue := s.queue + [tx]),
             None)
  }

  /** The broadcast branch of the call hook. */
  function Called(s: State, caller: Address, to: Address, depth: nat, isStatic: bool): Answer {
    if s.broadcast.None? || depth != s.broadcast.value.depth || caller != s.broadcast.value.originalCaller then
      Answer(s, None)
    else if isStatic then Answer(s, if s.broadcast.value.singleCall then Some(StaticCall) else None)
    else Broadcasted(s, to)
  }

  predicate RecordsCreate(s: State, caller: Address, depth: nat) {
    && s.broadcast.Some? && depth >= s.broadcast.value.depth && caller == s.broadcast.value.originalCaller
    && (depth == s.broadcast.value.depth || s.broadcast.value.deployFromCode)
  }

  /** The broadcast branch of the create hook, and the nonce the EVM then spends on the create.
      Pending authorizations stay pending. */
  function Created(s: State, caller: Address, depth: nat): State {
    if !RecordsCreate(s, caller, depth) then s
    else
      var origin := s.broadcast.value.newOrigin;
      var tx := Transaction(origin, None, NonceOf(s.accounts, origin), [], false);
      s.(accounts := Advanced(s.accounts, origin, 1), queue := s.queue + [tx],
         broadcast := Some(s.broadcast.value.(deployFromCode := false)))
  }

  /** None if a prank or a broadcast is active. */
  function Started(s: State, b: Broadcast, pranked: bool): Option<State> {
    if pranked || s.broadcast.Some? then None
    else Some(s.(accounts := Advanced(s.accounts, b.newOrigin, 0), broadcast := Some(b.(deployFromCode := false))))
  }

  /** A call or create at the given depth has ended. */
  function Returned(s: State, depth: nat): State {
    if s.broadcast.Some? && depth == s.broadcast.value.depth && s.broadcast.value.singleCall
    then s.(broadcast := None) else s
  }

  /** Loading the account, then stepping past its authorizations, then past the transaction. */
  lemma CallAccounts(accounts: Accounts, a: Address, n: nat)
    ensures var loaded := Advanced(accounts, a, 0);
            && Advanced(loaded, a, n) == Advanced(accounts, a, n)
            && Advanced(loaded, a, n)[a := NonceOf(Advanced(loaded, a, n), a) + 1] == Advanced(accounts, a, n + 1)
  {
  }

  class Script {
    var accounts: Accounts
    var delegates: map<Address, Address>
    var activeDelegations: seq<Authorization>
    var activeBlob: bool
    var broadcast: Option<Broadcast>
    var queue: seq<Transaction>
    const isolate: bool
    const chainId: nat

    constructor (accounts: Accounts, isolate: bool, chainId: nat)
      ensures View() == State(accounts, map[], [], false, None, [], isolate, chainId)
    {
      this.accounts, this.isolate, this.chainId := accounts, isolate, chainId;
      delegates, activeDelegations, activeBlob, broadcast, queue := map[], [], false, None, [];
    }

    function View(): State
      reads this
    {
      State(accounts, delegates, activeDelegations, activeBlob, broadcast, queue, isolate, chainId)
    }

    /** `broadcast` and `startBroadcast`: refused while a prank or a broadcast is active. */
    method StartBroadcast(newOrigin: Address, caller: Address, depth: nat, singleCall: bool, pranked: bool)
      returns (ok: bool)
      modifies this
      ensures var started := Started(old(View()), Broadcast(newOrigin, caller, depth, singleCall, false), pranked);
              ok == started.Some? && View() == if ok then started.value else old(View())
    {
      if pranked {
        return false;
      }
      if broadcast.Some? {
        return false;
      }
      accounts := accounts[newOrigin := NonceOf(accounts, newOrigin)];
      broadcast := Some(Broadcast(newOrigin, caller, depth, singleCall, false));
      return true;
    }

    method StopBroadcast() returns (ok: bool)
      modifies `broadcast
      ensures ok == old(broadcast).Some? && View() == old(View()).(broadcast := None)
    {
      ok := broadcast.Some?;
      broadcast := None;
    }

    /** The clean-up at the end of a call or a create: a single-call broadcast is over. */
    method OnFrameEnd(depth: nat)
      modifies `broadcast
      ensures View() == Returned(old(View()), depth)
    {
      if broadcast.Some? && depth == broadcast.value.depth {
        if broadcast.value.singleCall {
          broadcast := None;
        }
      }
    }

    /** `deployCode`, up to the create that it goes on to run. */
    method DeployCode()
      modifies `broadcast
      ensures View() == Next(old(View()), Deploy)
    {
      if broadcast.Some? {
        broadcast := Some(broadcast.value.(deployFromCode := true));
      }
    }

    /** Refused before the Cancun hard fork. */
    method AttachBlob(cancun: bool) returns (ok: bool)
      modifies `activeBlob
      ensures ok == cancun && View() == if ok then old(View()).(blob := true) else old(View())
    {
      if cancun {
        activeBlob := true;
      }
      return cancun;
    }

    method WriteDelegation(auth: Authorization) returns (fault: Option<Fault>)
      modifies this
      ensures fault == Attached(old(View()), auth).fault
      ensures View() == if fault.Some? then old(View())
                        else Attached(old(View()), auth).state.(pending := old(activeDelegations))
    {
      if auth.authority.None? {
        return Some(UnrecoverableAuthority);
      }
      var authority := auth.authority.value;
      var expected := NextDelegationNonce(activeDelegations, authority, broadcast, NonceOf(accounts, authority));
      if expected != auth.nonce {
        return Some(InvalidNonce(expected, auth.nonce));
      }
      if auth.implementation == 0 {
        delegates := delegates - {authority};
      } else {
        delegates := delegates[authority := auth.implementation];
      }
      return None;
    }

    method AttachDelegation(auth: Authorization) returns (fault: Option<Fault>)
      modifies this
      ensures Answer(View(), fault) == Attached(old(View()), auth)
    {
      fault := WriteDelegation(auth);
      if fault.None? {
        activeDelegations := activeDelegations + [auth];
      }
    }

    method SignDelegation(authority: Address, implementation: Address, nonce: Option<nat>, crossChain: bool,
                          attach: bool)
      returns (auth: Authorization, fault: Option<Fault>)
      modifies this
      ensures auth == Signed(old(View()), authority, implementation, nonce, crossChain)
      ensures Answer(View(), fault) == if attach then Attached(old(View()), auth) else Answer(old(View()), None)
    {
      var n := if nonce.Some? then nonce.value
               else NextDelegationNonce(activeDelegations, authority, broadcast, NonceOf(accounts, authority));
      auth, fault := Authorization(Some(authority), implementation, n, if crossChain then 0 else chainId), None;
      if attach {
        fault := AttachDelegation(auth);
      }
    }

    method OnCall(caller: Address, to: Address, depth: nat, isStatic: bool) returns (fault: Option<Fault>)
      modifies this
      ensures Answer(View(), fault) == Called(old(View()), caller, to, depth, isStatic)
    {
      if broadcast.Some? {
        var b := broadcast.value;
        if depth == b.depth && caller == b.originalCaller {
          if !isStatic {
            fault := BroadcastCall(b.newOrigin, to);
            return fault;
          } else if b.singleCall {
            return Some(StaticCall);
          }
        }
      }
      return None;
    }

    /** Take the pending work, queue the call with it, and step the origin's nonce. */
    method BroadcastCall(origin: Address, to: Address) returns (fault: Option<Fault>)
      requires broadcast.Some? && broadcast.value.newOrigin == origin
      modifies this
      ensures Answer(View(), fault) == Broadcasted(old(View()), to)
    {
      // loading the account puts it in the journal
      accounts := accounts[origin := NonceOf(accounts, origin)];
      var delegations, blob := activeDelegations, activeBlob;
      activeDelegations, activeBlob := [], false;
      RecordCallTransaction(origin, to, delegations, blob);
      if delegations != [] && blob {
        return Some(BlobAndDelegation);
      }
      if !isolate {
        accounts := accounts[origin := NonceOf(accounts, origin) + 1];
      }
      ghost var n := |NoncesFor(delegations, origin)|;
      assert accounts == Advanced(old(accounts), origin, n + if isolate then 0 else 1) by {
        CallAccounts(old(accounts), origin, n);
      }
      return None;
    }

    method OnCreate(caller: Address, depth: nat)
      modifies this
      ensures View() == Created(old(View()), caller, depth)
    {
      if broadcast.Some? && depth >= broadcast.value.depth && caller == broadcast.value.originalCaller {
        var b := broadcast.value;
        if depth == b.depth || b.deployFromCode {
          broadcast := Some(b.(deployFromCode := false));
          queue := queue + [Transaction(b.newOrigin, None, NonceOf(accounts, b.newOrigin), [], false)];
          accounts := accounts[b.newOrigin := NonceOf(accounts, b.newOrigin) + 1];
        }
      }
    }

    /** Queue the call as a transaction at the account's nonce, then move the account's nonce past
        the authorizations it signed itself. */
    method RecordCallTransaction(origin: Address, to: Address, delegations: seq<Authorization>, blob: bool)
      requires origin in accounts
      modifies `accounts, `queue
      ensures delegations != [] && blob ==> accounts == old(accounts) && queue == old(queue)
      ensures !(delegations != [] && blob) ==>
        && queue == old(queue) + [Transaction(origin, Some(to), NonceOf(old(accounts), origin), delegations, blob)]
        && accounts == Advanced(old(accounts), origin, |NoncesFor(delegations, origin)|)
    {
      var tx := Transaction(origin, Some(to), NonceOf(accounts, origin), [], blob);
      if blob && delegations != [] {
        return;
      }
      for i := 0 to |delegations|
        invariant queue == old(queue)
        invariant accounts == Advanced(old(accounts), origin, |NoncesFor(delegations[..i], origin)|)
      {
        assert DropLast(delegations[..i + 1]) == delegations[..i];
        if delegations[i].authority == Some(origin) {
          accounts := accounts[origin := NonceOf(accounts, origin) + 1];
        }
      }
      assert delegations[..|delegations|] == delegations;
      queue := queue + [tx.(authorizations := delegations)];
    }
  }

  // ---- Runs ------------------------------------------------------------------------------

  datatype Event =
    | Begin(broadcast: Broadcast, pranked: bool)
    | Stop
    | Return(depth: nat)
    | Attach(auth: Authorization)
    | Sign(authority: Address, implementation: Address, nonce: Option<nat>, crossChain: bool, attach: bool)
    | Blob
    | Call(caller: Address, to: Address, depth: nat, isStatic: bool)
    | Deploy
    | Create(caller: Address, depth: nat)

  function Next(s: State, e: Event): State {
    match e
    case Begin(b, pranked) => if Started(s, b, pranked).Some? then Started(s, b, pranked).value else s
    case Stop => s.(broadcast := None)
    case Return(depth) => Returned(s, depth)
    case Attach(auth) => Attached(s, auth).state
    case Sign(authority, implementation, nonce, crossChain, attach) =>
      if attach then Attached(s, Signed(s, authority, implementation, nonce, crossChain)).state else s
    case Blob => s.(blob := true)
    case Call(caller, to, depth, isStatic) => Called(s, caller, to, depth, isStatic).state
    case Deploy =>
      if s.broadcast.Some? then s.(broadcast := Some(s.broadcast.value.(deployFromCode := true))) else s
    case Create(caller, depth) => Created(s, caller, depth)
  }

  function Run(s: State, events: seq<Event>): State {
    if events == [] then s else Next(Run(s, DropLast(events)), Last(events))
  }

  function Range(n: nat, k: nat): seq<nat> {
    seq(k, i requires 0 <= i < k => n + i)
  }

  lemma RangeSnoc(n: nat, k: nat)
    ensures Range(n, k) + [n + k] == Range(n, k + 1)
  {
  }

  lemma RangeSplit(n: nat, a: seq<nat>, x: nat, b: seq<nat>)
    requires a + ([x] + b) == Range(n, |a + ([x] + b)|)
    ensures a == Range(n, |a|) && x == n + |a| && b == Range(n + |a| + 1, |b|)
  {
    var all := a + ([x] + b);
    assert forall i :: 0 <= i < |a| ==> a[i] == all[i];
    assert x == all[|a|];
    assert forall i :: 0 <= i < |b| ==> b[i] == all[|a| + 1 + i];
  }

  lemma RangeJoin(n: nat, a: seq<nat>, x: nat, b: seq<nat>)
    requires a == Range(n, |a|) && x == n + |a| && b == Range(n + |a| + 1, |b|)
    ensures a + ([x] + b) == Range(n, |a| + 1 + |b|)
  {
  }

  /** The nonce of each transaction queued for an account, then those of its own authorizations
      that the transaction carries. */
  function Trail(queue: seq<Transaction>, a: Address): seq<nat> {
    if queue == [] then []
    else Trail(DropLast(queue), a) + TrailOf(Last(queue), a)
  }

  function TrailOf(tx: Transaction, a: Address): seq<nat> {
    if tx.from == a then [tx.nonce] + NoncesFor(tx.authorizations, a) else []
  }

  predicate Broadcasts(s: State, a: Address) {
    s.broadcast.Some? && s.broadcast.value.newOrigin == a
  }

  /** The nonce from which pending authorizations of an authority count: the broadcasting account
      leaves one for the transaction that will carry them. */
  function Base(s: State, a: Address): nat {
    NonceOf(s.accounts, a) + if Broadcasts(s, a) then 1 else 0
  }

  ghost predicate PendingConsecutive(s: State, a: Address) {
    NoncesFor(s.pending, a) == Range(Base(s, a), |NoncesFor(s.pending, a)|)
  }

  ghost predicate TrailConsecutive(s: State, a: Address, start: nat) {
    && Trail(s.queue, a) == Range(start, |Trail(s.queue, a)|)
    && NonceOf(s.accounts, a) == start + |Trail(s.queue, a)|
  }

  /** A transaction carries an authority's authorizations numbered from a given nonce on. */
  ghost predicate StartsOver(tx: Transaction, a: Address, n: nat) {
    NoncesFor(tx.authorizations, a) == Range(n, |NoncesFor(tx.authorizations, a)|)
  }

  /** Every transaction carries an account's authorizations numbered from the nonce that the account
      has in the simulation when the transaction is queued, its own ones from the next. */
  ghost predicate Simulated(queue: seq<Transaction>, a: Address, n: nat) {
    queue == [] ||
    (Simulated(DropLast(queue), a, n) && QueuedAt(Last(queue), a, n + |Trail(DropLast(queue), a)|))
  }

  ghost predicate QueuedAt(tx: Transaction, a: Address, now: nat) {
    if tx.from == a then tx.nonce == now && StartsOver(tx, a, now + 1) else StartsOver(tx, a, now)
  }

  /** What the count of one account looks like when it is kept: pending authorizations, its own
      transactions with its own authorizations, and those that others carry are numbered on from the
      account's simulated nonce. */
  ghost predicate Orderly(start: State, s: State, a: Address) {
    var n := NonceOf(start.accounts, a);
    && s.isolate == start.isolate
    && PendingConsecutive(s, a)
    && TrailConsecutive(s, a, n)
    && Simulated(s.queue, a, n)
  }

  /** The steps that keep the count of an account: while it has authorizations pending, none of its
      broadcasts begins or ends, and no create of its own is queued. */
  predicate Benign(s: State, e: Event, a: Address) {
    NoncesFor(s.pending, a) != [] ==>
      match e
      case Begin(b, pranked) => b.newOrigin != a || pranked || s.broadcast.Some?
      case Stop => !Broadcasts(s, a)
      case Return(depth) =>
        !(Broadcasts(s, a) && depth == s.broadcast.value.depth && s.broadcast.value.singleCall)
      case Create(caller, depth) => !(Broadcasts(s, a) && RecordsCreate(s, caller, depth))
      case _ => true
  }

  lemma {:induction false} LastOfNonces(pending: seq<Authorization>, a: Address)
    ensures if NoncesFor(pending, a) == [] then LastOf(pending, a) == None
            else LastOf(pending, a).Some? && LastOf(pending, a).value.nonce == Last(NoncesFor(pending, a))
  {
    if pending != [] {
      LastOfNonces(DropLast(pending), a);
    }
  }

  lemma AttachKeeps(start: State, s: State, auth: Authorization, a: Address)
    requires Orderly(start, s, a)
    ensures Orderly(start, Attached(s, auth).state, a)
  {
    var t := Attached(s, auth).state;
    if Attached(s, auth).fault.None? {
      assert t == s.(delegates := t.delegates, pending := s.pending + [auth]);
      assert PendingConsecutive(t, a) by {
        AttachPending(s, auth, a);
      }
    }
  }

  lemma AttachPending(s: State, auth: Authorization, a: Address)
    requires PendingConsecutive(s, a) && auth.authority.Some? && auth.nonce == ExpectedNonce(s, auth.authority.value)
    ensures var pending := s.pending + [auth];
            NoncesFor(pending, a) == Range(Base(s, a), |NoncesFor(pending, a)|)
  {
    NoncesSnoc(s.pending, auth, a);
    if auth.authority == Some(a) {
      LastOfNonces(s.pending, a);
      RangeSnoc(Base(s, a), |NoncesFor(s.pending, a)|);
    }
  }

  lemma NoncesSnoc(auths: seq<Authorization>, auth: Authorization, a: Address)
    ensures NoncesFor(auths + [auth], a) ==
            if auth.authority == Some(a) then NoncesFor(auths, a) + [auth.nonce] else NoncesFor(auths, a)
  {
    assert DropLast(auths + [auth]) == auths;
  }

  lemma TrailSnoc(queue: seq<Transaction>, tx: Transaction, a: Address)
    ensures Trail(queue + [tx], a) == Trail(queue, a) + TrailOf(tx, a)
  {
    assert DropLast(queue + [tx]) == queue;
  }

  /** Queueing a transaction at the account's nonce keeps the count if the nonce moves past it and
      past the account's own authorizations it carries. */
  lemma QueueKeeps(start: State, s: State, t: State, tx: Transaction, a: Address)
    requires Orderly(start, s, a) && t.queue == s.queue + [tx] && QueuedAt(tx, a, NonceOf(s.accounts, a))
    requires NonceOf(t.accounts, a) == NonceOf(s.accounts, a) + |TrailOf(tx, a)|
    ensures TrailConsecutive(t, a, NonceOf(start.accounts, a))
    ensures Simulated(t.queue, a, NonceOf(start.accounts, a))
  {
    var n := NonceOf(start.accounts, a);
    assert Simulated(s.queue + [tx], a, n) by {
      SimulatedSnoc(s.queue, tx, a, n);
    }
    TrailKeeps(s, t, tx, a, n);
  }

  lemma SimulatedSnoc(queue: seq<Transaction>, tx: Transaction, a: Address, n: nat)
    requires Simulated(queue, a, n) && QueuedAt(tx, a, n + |Trail(queue, a)|)
    ensures Simulated(queue + [tx], a, n)
  {
    assert DropLast(queue + [tx]) == queue && Last(queue + [tx]) == tx;
  }

  lemma TrailKeeps(s: State, t: State, tx: Transaction, a: Address, n: nat)
    requires TrailConsecutive(s, a, n) && t.queue == s.queue + [tx]
    requires QueuedAt(tx, a, NonceOf(s.accounts, a))
    requires NonceOf(t.accounts, a) == NonceOf(s.accounts, a) + |TrailOf(tx, a)|
    ensures TrailConsecutive(t, a, n)
  {
    var done := Trail(s.queue, a);
    assert Trail(t.queue, a) == done + TrailOf(tx, a) by {
      TrailSnoc(s.queue, tx, a);
    }
    if tx.from == a {
      var nonces := NoncesFor(tx.authorizations, a);
      assert done + ([tx.nonce] + nonces) == Range(n, |done| + 1 + |nonces|) by {
        RangeJoin(n, done, tx.nonce, nonces);
      }
    } else {
      assert done + [] == done;
    }
  }

  lemma CallKeeps(start: State, s: State, caller: Address, to: Address, depth: nat, isStatic: bool, a: Address)
    requires Orderly(start, s, a) && !s.isolate
    ensures Orderly(start, Called(s, caller, to, depth, isStatic).state, a)
  {
    var answer := Called(s, caller, to, depth, isStatic);
    if answer.state.queue == s.queue {
      CallLeaves(s, caller, to, depth, isStatic, a);
    } else {
      BroadcastKeeps(start, s, to, a);
    }
  }

  lemma CallLeaves(s: State, caller: Address, to: Address, depth: nat, isStatic: bool, a: Address)
    requires Called(s, caller, to, depth, isStatic).state.queue == s.queue
    ensures var t := Called(s, caller, to, depth, isStatic).state;
            && t.broadcast == s.broadcast && t.isolate == s.isolate
            && (t.pending == s.pending || t.pending == [])
            && NonceOf(t.accounts, a) == NonceOf(s.accounts, a)
  {
  }

  lemma BroadcastKeeps(start: State, s: State, to: Address, a: Address)
    requires Orderly(start, s, a) && !s.isolate && s.broadcast.Some? && !(s.pending != [] && s.blob)
    ensures Orderly(start, Broadcasted(s, to).state, a)
  {
    var t, origin := Broadcasted(s, to).state, s.broadcast.value.newOrigin;
    var tx := Transaction(origin, Some(to), NonceOf(s.accounts, origin), s.pending, s.blob);
    assert t.queue == s.queue + [tx] && t.pending == [] && t.isolate == s.isolate;
    assert NonceOf(t.accounts, a) == NonceOf(s.accounts, a) + |TrailOf(tx, a)|;
    assert QueuedAt(tx, a, NonceOf(s.accounts, a));
    QueueKeeps(start, s, t, tx, a);
    assert PendingConsecutive(t, a);
  }

  lemma RangeShift(n: nat, m: nat, k: nat)
    requires k > 0
    ensures Range(n, k) == Range(m, k) <==> n == m
  {
    assert Range(n, k)[0] == n && Range(m, k)[0] == m;
  }

  /** A create spends the nonce that the origin's pending authorizations were counted past. */
  lemma CreateKeepsIff(start: State, s: State, caller: Address, depth: nat, a: Address)
    requires Orderly(start, s, a)
    ensures Orderly(start, Created(s, caller, depth), a) <==> Benign(s, Create(caller, depth), a)
  {
    if RecordsCreate(s, caller, depth) {
      var t, tx := Created(s, caller, depth), CreateTransaction(s);
      CreateFacts(s, caller, depth, a);
      QueueKeeps(start, s, t, tx, a);
      CountMovesIff(s, t, a);
    }
  }

  function CreateTransaction(s: State): Transaction
    requires s.broadcast.Some?
  {
    var origin := s.broadcast.value.newOrigin;
    Transaction(origin, None, NonceOf(s.accounts, origin), [], false)
  }

  lemma CreateFacts(s: State, caller: Address, depth: nat, a: Address)
    requires RecordsCreate(s, caller, depth)
    ensures var t, tx, now := Created(s, caller, depth), CreateTransaction(s), NonceOf(s.accounts, a);
            && t.queue == s.queue + [tx] && t.pending == s.pending && t.isolate == s.isolate
            && QueuedAt(tx, a, now) && NonceOf(t.accounts, a) == now + |TrailOf(tx, a)|
            && Base(t, a) == Base(s, a) + if Broadcasts(s, a) then 1 else 0
  {
    assert NoncesFor([], a) == [];
  }

  /** Moving the nonce that pending authorizations count from breaks their count if there are any. */
  lemma CountMovesIff(s: State, t: State, a: Address)
    requires PendingConsecutive(s, a) && t.pending == s.pending
    ensures PendingConsecutive(t, a) <==> Base(t, a) == Base(s, a) || NoncesFor(s.pending, a) == []
  {
    var k := |NoncesFor(s.pending, a)|;
    if k > 0 {
      RangeShift(Base(s, a), Base(t, a), k);
    }
  }

  /** Beginning or ending a broadcast of an account moves the nonce its pending ones count from. */
  lemma SwitchKeepsIff(start: State, s: State, e: Event, a: Address)
    requires Orderly(start, s, a) && (e.Begin? || e.Stop? || e.Return? || e.Deploy?)
    ensures Orderly(start, Next(s, e), a) <==> Benign(s, e, a)
  {
    var t := Next(s, e);
    assert t.queue == s.queue && t.pending == s.pending && t.isolate == s.isolate &&
           NonceOf(t.accounts, a) == NonceOf(s.accounts, a) by {
      SwitchLeaves(s, e, a);
    }
    SwitchedKeepsIff(start, s, t, a);
    SwitchMoves(s, e, a);
  }

  lemma SwitchLeaves(s: State, e: Event, a: Address)
    requires e.Begin? || e.Stop? || e.Return? || e.Deploy?
    ensures var t := Next(s, e);
            && t.queue == s.queue && t.pending == s.pending && t.isolate == s.isolate
            && NonceOf(t.accounts, a) == NonceOf(s.accounts, a)
  {
  }

  lemma SwitchMoves(s: State, e: Event, a: Address)
    requires e.Begin? || e.Stop? || e.Return? || e.Deploy?
    ensures Benign(s, e, a) <==> (NoncesFor(s.pending, a) != [] ==> Broadcasts(Next(s, e), a) == Broadcasts(s, a))
  {
  }

  lemma SwitchedKeepsIff(start: State, s: State, t: State, a: Address)
    requires Orderly(start, s, a) && t.queue == s.queue && t.pending == s.pending && t.isolate == s.isolate
    requires NonceOf(t.accounts, a) == NonceOf(s.accounts, a)
    ensures Orderly(start, t, a) <==> (NoncesFor(s.pending, a) != [] ==> Broadcasts(t, a) == Broadcasts(s, a))
  {
    CountMovesIff(s, t, a);
  }

  /** One step keeps an account's count precisely when it is benign. */
  lemma StepKeepsIff(start: State, s: State, e: Event, a: Address)
    requires Orderly(start, s, a) && !s.isolate
    ensures Orderly(start, Next(s, e), a) <==> Benign(s, e, a)
  {
    match e
    case Attach(auth) => AttachKeeps(start, s, auth, a);
    case Sign(authority, implementation, nonce, crossChain, attach) =>
      AttachKeeps(start, s, Signed(s, authority, implementation, nonce, crossChain), a);
    case Blob =>
    case Call(caller, to, depth, isStatic) => CallKeeps(start, s, caller, to, depth, isStatic, a);
    case Create(caller, depth) => CreateKeepsIff(start, s, caller, depth, a);
    case _ => SwitchKeepsIff(start, s, e, a);
  }

  /** Nothing queued or pending yet; a broadcast may be active. */
  predicate IsFresh(s: State) {
    !s.isolate && s.pending == [] && s.queue == []
  }

  ghost predicate OrderlyAt(start: State, events: seq<Event>, n: nat, a: Address)
    requires n <= |events|
  {
    Orderly(start, Run(start, events[..n]), a)
  }

  predicate BenignAt(start: State, events: seq<Event>, n: nat, a: Address)
    requires n < |events|
  {
    Benign(Run(start, events[..n]), events[n], a)
  }

  ghost predicate BenignThroughout(start: State, events: seq<Event>, a: Address) {
    forall n :: 0 <= n < |events| ==> BenignAt(start, events, n, a)
  }

  lemma RunStep(start: State, events: seq<Event>, n: nat)
    requires n < |events|
    ensures Run(start, events[..n + 1]) == Next(Run(start, events[..n]), events[n])
  {
    assert DropLast(events[..n + 1]) == events[..n];
  }

  lemma FreshIsOrderly(start: State, a: Address)
    requires IsFresh(start)
    ensures Orderly(start, start, a)
  {
  }

  lemma OneStepOn(start: State, events: seq<Event>, n: nat, a: Address)
    requires !start.isolate && n < |events| && OrderlyAt(start, events, n, a)
    ensures OrderlyAt(start, events, n + 1, a) <==> BenignAt(start, events, n, a)
  {
    RunStep(start, events, n);
    StepKeepsIff(start, Run(start, events[..n]), events[n], a);
  }

  lemma {:induction false} OrderlyUpTo(start: State, events: seq<Event>, n: nat, a: Address)
    requires IsFresh(start) && n <= |events|
    requires forall i :: 0 <= i < n ==> BenignAt(start, events, i, a) || OrderlyAt(start, events, i + 1, a)
    ensures OrderlyAt(start, events, n, a)
  {
    if n == 0 {
      assert events[..0] == [];
      FreshIsOrderly(start, a);
    } else {
      OrderlyUpTo(start, events, n - 1, a);
      assert BenignAt(start, events, n - 1, a) || OrderlyAt(start, events, n, a);
      OneStepOn(start, events, n - 1, a);
    }
  }

  /** Over every run, with any number of broadcasts: an account's count is kept at every moment if
      and only if every step is benign to it. */
  lemma {:induction false} OrderlyThroughout(start: State, events: seq<Event>, a: Address)
    requires IsFresh(start)
    ensures (forall n :: 0 <= n <= |events| ==> OrderlyAt(start, events, n, a)) <==> BenignThroughout(start, events, a)
  {
    if forall n :: 0 <= n <= |events| ==> OrderlyAt(start, events, n, a) {
      forall n | 0 <= n < |events|
        ensures BenignAt(start, events, n, a)
      {
        assert OrderlyAt(start, events, n, a) && OrderlyAt(start, events, n + 1, a);
        OneStepOn(start, events, n, a);
      }
    } else if BenignThroughout(start, events, a) {
      forall n | 0 <= n <= |events|
        ensures OrderlyAt(start, events, n, a)
      {
        OrderlyUpTo(start, events, n, a);
      }
    }
  }

  lemma BenignIsOrderly(start: State, events: seq<Event>, a: Address)
    requires IsFresh(start) && BenignThroughout(start, events, a)
    ensures Orderly(start, Run(start, events), a)
  {
    OrderlyUpTo(start, events, |events|, a);
    assert events[..|events|] == events;
  }

  /** Every queued transaction's nonce, followed by those of its origin's authorizations it carries,
      continues the count of the one before it, from the origin's starting nonce; and the origin's
      pending authorizations are numbered consecutively. */
  lemma {:induction false} QueueIsConsecutive(start: State, events: seq<Event>, a: Address)
    requires IsFresh(start) && BenignThroughout(start, events, a)
    ensures var s := Run(start, events);
            TrailConsecutive(s, a, NonceOf(start.accounts, a)) && PendingConsecutive(s, a)
  {
    BenignIsOrderly(start, events, a);
  }

  /** Without creates, and with no broadcast beginning or ending, every step is benign. */
  lemma OneBroadcastIsBenign(start: State, events: seq<Event>, a: Address)
    requires forall e :: e in events ==> e.Attach? || e.Sign? || e.Blob? || e.Call? || e.Deploy?
    ensures BenignThroughout(start, events, a)
  {
    forall n | 0 <= n < |events|
      ensures BenignAt(start, events, n, a)
    {
      assert events[n] in events;
    }
  }
}
