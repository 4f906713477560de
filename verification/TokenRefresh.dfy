/** Refreshing an expired access token once for all the requests that met it, and retrying
    those requests. */
module TokenRefresh {

  // ---------------------------------------------------------------- state

  type Request = nat

  /** A request waiting to be retried; tickets number the waiting requests as they come. */
  datatype Entry = Entry(ticket: nat, req: Request)

  /** The promise chain of a request that started a refresh: it awaits the refresh, then the
      replay of its request, and last clears the flag, in a step of its own. A replay that expires
      is queued like any other request, and its chain then awaits that queue entry. */
  datatype Chain =
    | AwaitRefresh(req: Request)
    | AwaitReplay(req: Request)
    | Parked(req: Request, ticket: nat)
    | Finishing(req: Request)

  /** The module's two variables, the chains in flight, and the retries sent so far. */
  datatype State = State(
    isRefreshing: bool, queue: seq<Entry>, chains: seq<Chain>, issued: nat, sent: seq<Entry>)

  const START := State(false, [], [], 0, [])

  datatype Event =
    | Expired(req: Request)        // a response says the token has expired
    | Refreshed(chain: nat)        // the refresh brings a token
    | RefreshEmpty(chain: nat)     // the refresh brings none
    | RefreshFailed(chain: nat)
    | ReplaySettled(chain: nat)    // the initiator's replay succeeds or fails otherwise
    | ReplayExpired(chain: nat)    // the initiator's replay says the token has expired
    | Finally(chain: nat)          // the chain ends and the flag is cleared

  predicate Enabled(s: State, e: Event) {
    match e
    case Expired(_) => true
    case Refreshed(i) => i < |s.chains| && s.chains[i].AwaitRefresh?
    case RefreshEmpty(i) => i < |s.chains| && s.chains[i].AwaitRefresh?
    case RefreshFailed(i) => i < |s.chains| && s.chains[i].AwaitRefresh?
    case ReplaySettled(i) => i < |s.chains| && s.chains[i].AwaitReplay?
    case ReplayExpired(i) => i < |s.chains| && s.chains[i].AwaitReplay?
    case Finally(i) => i < |s.chains| && s.chains[i].Finishing?
  }

  /** A queue entry's chain goes on once the entry is retried. */
  function Resumed(c: Chain, retried: seq<Entry>): Chain {
    if c.Parked? && exists r :: r in retried && r.ticket == c.ticket then AwaitReplay(c.req) else c
  }

  function ResumedAll(chains: seq<Chain>, retried: seq<Entry>): (r: seq<Chain>)
    ensures |r| == |chains|
    ensures forall i :: 0 <= i < |r| ==> r[i] == Resumed(chains[i], retried)
  {
    if chains == [] then [] else [Resumed(chains[0], retried)] + ResumedAll(chains[1..], retried)
  }

  function Without(chains: seq<Chain>, i: nat): seq<Chain>
    requires i < |chains|
  {
    chains[..i] + chains[i + 1..]
  }

  /** The interceptor on an expired token: start a refresh, or wait for the one in flight. */
  function Intercept(s: State, req: Request): State {
    if !s.isRefreshing then s.(isRefreshing := true, chains := s.chains + [AwaitRefresh(req)])
    else s.(queue := s.queue + [Entry(s.issued, req)], issued := s.issued + 1)
  }

  function Settle(s: State, i: nat): State
    requires i < |s.chains|
  {
    s.(chains := s.chains[i := Finishing(s.chains[i].req)])
  }

  function Next(s: State, e: Event): State
    requires Enabled(s, e)
  {
    match e
    case Expired(req) => Intercept(s, req)
    case Refreshed(i) =>
      s.(sent := s.sent + s.queue, queue := [],
         chains := ResumedAll(s.chains, s.queue)[i := AwaitReplay(s.chains[i].req)])
    case RefreshEmpty(i) => Settle(s, i)
    case RefreshFailed(i) => Settle(s, i)
    case ReplaySettled(i) => Settle(s, i)
    case ReplayExpired(i) =>
      var s' := Intercept(s, s.chains[i].req);
      if s.isRefreshing then s'.(chains := s'.chains[i := Parked(s.chains[i].req, s.issued)]) else s'
    case Finally(i) => s.(isRefreshing := false, chains := Without(s.chains, i))
  }

  // ---------------------------------------------------------------- the interceptor

  class Interceptor {
    var isRefreshing: bool
    var retryRequests: seq<Entry>
    var chains: seq<Chain>
    var issued: nat
    var sent: seq<Entry>

    constructor ()
      ensures View() == START
    {
      isRefreshing, retryRequests, chains, issued, sent := false, [], [], 0, [];
    }

    ghost function View(): State
      reads this
    {
      State(isRefreshing, retryRequests, chains, issued, sent)
    }

    method OnExpired(req: Request)
      modifies this
      ensures View() == Next(old(View()), Expired(req))
      ensures isRefreshing && sent == old(sent)
      ensures if old(isRefreshing) then retryRequests == old(retryRequests) + [Entry(old(issued), req)] && chains == old(chains)
              else chains == old(chains) + [AwaitRefresh(req)] && retryRequests == old(retryRequests)
    {
      if !isRefreshing {
        isRefreshing := true;
        chains := chains + [AwaitRefresh(req)];
      } else {
        retryRequests := retryRequests + [Entry(issued, req)];
        issued := issued + 1;
      }
    }

    method OnRefreshed(i: nat)
      requires Enabled(View(), Refreshed(i))
      modifies this
      ensures View() == Next(old(View()), Refreshed(i))
      ensures sent == old(sent) + old(retryRequests) && retryRequests == []
      ensures isRefreshing == old(isRefreshing) && i < |chains| && chains[i] == AwaitReplay(old(chains[i].req))
    {
      for k := 0 to |retryRequests|
        invariant retryRequests == old(retryRequests) && isRefreshing == old(isRefreshing)
        invariant chains == old(chains) && issued == old(issued)
        invariant sent == old(sent) + retryRequests[..k]
      {
        sent := sent + [retryRequests[k]];
      }
      assert retryRequests[..|retryRequests|] == retryRequests;
      chains := ResumedAll(chains, retryRequests)[i := AwaitReplay(chains[i].req)];
      retryRequests := [];
    }

    /** The refresh ends without a token, or fails: the queue is left as it is. */
    method OnRefreshLost(i: nat, failed: bool)
      requires Enabled(View(), RefreshEmpty(i))
      modifies this
      ensures View() == Next(old(View()), if failed then RefreshFailed(i) else RefreshEmpty(i))
      ensures retryRequests == old(retryRequests) && sent == old(sent) && isRefreshing == old(isRefreshing)
      ensures chains == old(chains)[i := Finishing(old(chains[i].req))]
    {
      chains := chains[i := Finishing(chains[i].req)];
    }

    method OnReplaySettled(i: nat)
      requires Enabled(View(), ReplaySettled(i))
      modifies this
      ensures View() == Next(old(View()), ReplaySettled(i))
      ensures retryRequests == old(retryRequests) && sent == old(sent) && isRefreshing == old(isRefreshing)
      ensures chains == old(chains)[i := Finishing(old(chains[i].req))]
    {
      chains := chains[i := Finishing(chains[i].req)];
    }

    method OnFinally(i: nat)
      requires Enabled(View(), Finally(i))
      modifies this
      ensures View() == Next(old(View()), Finally(i))
      ensures !isRefreshing && retryRequests == old(retryRequests) && sent == old(sent)
      ensures chains == old(chains)[..i] + old(chains)[i + 1..]
    {
      chains := Without(chains, i);
      isRefreshing := false;
    }

    method OnReplayExpired(i: nat)
      requires Enabled(View(), ReplayExpired(i))
      modifies this
      ensures View() == Next(old(View()), ReplayExpired(i))
      ensures isRefreshing && sent == old(sent)
      ensures old(isRefreshing) ==>
                && retryRequests == old(retryRequests) + [Entry(old(issued), old(chains[i].req))]
                && chains == old(chains)[i := Parked(old(chains[i].req), old(issued))]
    {
      var req := chains[i].req;
      if !isRefreshing {
        isRefreshing := true;
        chains := chains + [AwaitRefresh(req)];
      } else {
        retryRequests := retryRequests + [Entry(issued, req)];
        chains := chains[i := Parked(req, issued)];
        issued := issued + 1;
      }
    }
  }

  // ---------------------------------------------------------------- runs

  ghost predicate Steps(states: seq<State>, events: seq<Event>) {
    && |states| == |events| + 1
    && forall i :: 0 <= i < |events| ==> Enabled(states[i], events[i]) && states[i + 1] == Next(states[i], events[i])
  }

  ghost predicate Run(states: seq<State>, events: seq<Event>) {
    Steps(states, events) && states[0] == START
  }

  /** Every entry ever queued, in the order queued: first those retried, then those waiting. */
  ghost function History(s: State): seq<Entry> {
    s.sent + s.queue
  }

  ghost predicate Inv(s: State) {
    && |s.chains| == (if s.isRefreshing then 1 else 0)
    && |History(s)| == s.issued
    && (forall i :: 0 <= i < s.issued ==> History(s)[i].ticket == i)
    && (s.isRefreshing && s.chains[0].Parked? ==> |s.sent| <= s.chains[0].ticket < s.issued)
  }

  lemma StepKeepsInv(s: State, e: Event)
    requires Inv(s) && Enabled(s, e)
    ensures Inv(Next(s, e))
    ensures History(s) <= History(Next(s, e)) && s.sent <= Next(s, e).sent
  {
    var s' := Next(s, e);
    match e
    case Expired(req) =>
      assert s.isRefreshing ==> History(s') == History(s) + [Entry(s.issued, req)];
    case Refreshed(i) =>
      assert History(s') == History(s);
    case ReplayExpired(i) =>
      assert History(s') == History(s) + [Entry(s.issued, s.chains[i].req)];
      assert s'.chains == [Parked(s.chains[i].req, s.issued)];
    case Finally(i) =>
      assert s'.chains == [];
    case _ =>
  }

  /** In every interleaving, at most one refresh chain is in flight, exactly while isRefreshing
      holds, and the requests retried so far followed by those waiting are all the requests ever
      queued, in order, each once. */
  lemma {:induction false} RunsKeepInv(states: seq<State>, events: seq<Event>, k: nat)
    requires Run(states, events) && k < |states|
    ensures Inv(states[k])
  {
    if k > 0 {
      RunsKeepInv(states, events, k - 1);
      StepKeepsInv(states[k - 1], events[k - 1]);
    }
  }

  // ---------------------------------------------------------------- what sends

  /** Only a token sends what waits, and then all of it in order; nothing else empties the queue. */
  lemma OnlyTokenSends(s: State, e: Event)
    requires Enabled(s, e)
    ensures e.Refreshed? ==> Next(s, e).sent == s.sent + s.queue && Next(s, e).queue == []
    ensures !e.Refreshed? ==> Next(s, e).sent == s.sent && s.queue <= Next(s, e).queue
    ensures e.RefreshEmpty? || e.RefreshFailed? ==>
              && Next(s, e).queue == s.queue && Next(s, e).issued == s.issued && Next(s, e).isRefreshing == s.isRefreshing
              && Next(s, e).chains == s.chains[e.chain := Finishing(s.chains[e.chain].req)]
  {
  }

  /** A request is queued by an expired token while a refresh is in flight, and by nothing else. */
  lemma OnlyExpiryQueues(s: State, e: Event)
    requires Enabled(s, e)
    ensures (exists x :: x in Next(s, e).queue && x !in s.queue) ==> (e.Expired? || e.ReplayExpired?) && s.isRefreshing
    ensures e.Expired? && s.isRefreshing ==> Next(s, e).queue == s.queue + [Entry(s.issued, e.req)]
    ensures e.Expired? && !s.isRefreshing ==> Next(s, e).queue == s.queue && Next(s, e).chains == s.chains + [AwaitRefresh(e.req)]
  {
  }

  /** Over a run, whatever was sent was waiting when a token came. */
  lemma {:induction false} SentByToken(states: seq<State>, events: seq<Event>, k: nat, x: Entry) returns (i: nat)
    requires Run(states, events) && k < |states| && x in states[k].sent
    ensures i < k && events[i].Refreshed? && x in states[i].queue
  {
    assert k > 0;
    assert Enabled(states[k - 1], events[k - 1]) && states[k] == Next(states[k - 1], events[k - 1]);
    OnlyTokenSends(states[k - 1], events[k - 1]);
    if x in states[k - 1].sent {
      i := SentByToken(states, events, k - 1, x);
    } else {
      i := k - 1;
    }
  }

  /** Every request queued at some point is, from then on, waiting or retried, and never both. */
  lemma {:induction false} QueuedOnceRetriedOnce(states: seq<State>, events: seq<Event>, j: nat, k: nat, e: Entry)
    requires Run(states, events) && j <= k < |states| && e in History(states[j])
    ensures multiset(states[k].sent)[e] + multiset(states[k].queue)[e] == 1
    decreases k - j
  {
    RunsKeepInv(states, events, j);
    if j == k {
      OnceInHistory(states[k], e);
    } else {
      StepKeepsInv(states[j], events[j]);
      QueuedOnceRetriedOnce(states, events, j + 1, k, e);
    }
  }

  lemma OnceInHistory(s: State, e: Entry)
    requires Inv(s) && e in History(s)
    ensures multiset(s.sent)[e] + multiset(s.queue)[e] == 1
  {
    var h := History(s);
    var i :| 0 <= i < |h| && h[i] == e;
    assert h == h[..i] + [e] + h[i + 1..];
    CountedOnce(h[..i], e, h[i + 1..]);
    assert multiset(h) == multiset(s.sent) + multiset(s.queue);
  }

  lemma CountedOnce(a: seq<Entry>, e: Entry, b: seq<Entry>)
    requires e !in a && e !in b
    ensures multiset(a + [e] + b)[e] == 1
  {
    assert multiset(a + [e] + b) == multiset(a) + multiset{e} + multiset(b);
    assert e !in multiset(a) && e !in multiset(b);
  }

  // ---------------------------------------------------------------- when waiting is in vain

  /** The refresh in flight waits for a request that waits for a refresh. */
  ghost predicate Deadlocked(s: State) {
    s.isRefreshing && |s.chains| == 1 && s.chains[0].Parked?
  }

  lemma {:induction false} DeadlockedForGood(states: seq<State>, events: seq<Event>, k: nat)
    requires Steps(states, events) && k < |states| && Inv(states[0]) && Deadlocked(states[0])
    ensures Deadlocked(states[k]) && states[k].sent == states[0].sent && states[0].queue <= states[k].queue
  {
    if k > 0 {
      DeadlockedForGood(states, events, k - 1);
      assert Enabled(states[k - 1], events[k - 1]);
    }
  }

  ghost predicate CanReach(s: State, s': State) {
    exists states, events :: Steps(states, events) && states[0] == s && states[|events|] == s'
  }

  lemma ReachBy(s: State, states: seq<State>, events: seq<Event>)
    requires Steps(states, events) && states[0] == s
    ensures CanReach(s, states[|events|])
  {
  }

  /** A waiting request can still be retried in some continuation exactly when the initiator's own
      replay is not itself waiting in the queue. */
  lemma RetryPossibleIff(s: State, e: Entry)
    requires Inv(s) && e in s.queue
    ensures (exists s' :: CanReach(s, s') && e in s'.sent) <==> !Deadlocked(s)
  {
    if Deadlocked(s) {
      forall s' | CanReach(s, s')
        ensures e !in s'.sent
      {
        var states, events :| Steps(states, events) && states[0] == s && states[|events|] == s';
        DeadlockedForGood(states, events, |events|);
        NotYetSent(s, e);
      }
    } else {
      var s1 := RefreshFrom(s);
      var s2 := Next(s1, Refreshed(0));
      assert e in s2.sent;
      ReachThenStep(s, s1, Refreshed(0));
    }
  }

  lemma NotYetSent(s: State, e: Entry)
    requires Inv(s) && e in s.queue
    ensures e !in s.sent
  {
    assert e in History(s);
    OnceInHistory(s, e);
    assert e in multiset(s.queue);
  }

  lemma OneMoreStep(states: seq<State>, events: seq<Event>, e: Event)
    requires Steps(states, events) && Enabled(states[|events|], e)
    ensures Steps(states + [Next(states[|events|], e)], events + [e])
  {
    var more, done := states + [Next(states[|events|], e)], events + [e];
    forall i | 0 <= i < |done|
      ensures Enabled(more[i], done[i]) && more[i + 1] == Next(more[i], done[i])
    {
      assert more[i] == states[i];
      if i < |events| {
        assert done[i] == events[i] && more[i + 1] == states[i + 1];
      }
    }
  }

  lemma ReachThenStep(s: State, s1: State, e: Event)
    requires CanReach(s, s1) && Enabled(s1, e)
    ensures CanReach(s, Next(s1, e))
  {
    var states, events :| Steps(states, events) && states[0] == s && states[|events|] == s1;
    OneMoreStep(states, events, e);
    ReachBy(s, states + [Next(s1, e)], events + [e]);
  }

  /** From any state that is not deadlocked a refresh can come into flight, with the queue intact. */
  lemma RefreshFrom(s: State) returns (s1: State)
    requires Inv(s) && !Deadlocked(s)
    ensures CanReach(s, s1) && Enabled(s1, Refreshed(0)) && s1.queue == s.queue
  {
    assert Steps([s], []);
    ReachBy(s, [s], []);
    if s.isRefreshing && s.chains[0].AwaitRefresh? {
      s1 := s;
      return;
    }
    var t := s;
    if s.isRefreshing && s.chains[0].AwaitReplay? {
      ReachThenStep(s, t, ReplaySettled(0));
      t := Next(t, ReplaySettled(0));
    }
    if t.isRefreshing {
      ReachThenStep(s, t, Finally(0));
      t := Next(t, Finally(0));
    }
    ReachThenStep(s, t, Expired(0));
    s1 := Next(t, Expired(0));
  }

  /** The deadlock is reachable: the token obtained by the refresh is refused at once. */
  lemma DeadlockReachable() returns (states: seq<State>, events: seq<Event>)
    ensures Run(states, events) && Deadlocked(states[|events|])
  {
    var s1 := Next(START, Expired(7));
    var s2 := Next(s1, Refreshed(0));
    var s3 := Next(s2, ReplayExpired(0));
    states, events := [START, s1, s2, s3], [Expired(7), Refreshed(0), ReplayExpired(0)];
  }
}
