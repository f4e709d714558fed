/** Whole runs of the service, from the empty state on, and what holds along every one of them. */
module Runs {
  import opened Domain
  import opened Expiration
  import opened Tickets
  import opened Protocol
  import opened Steps

  datatype Call = Call(env: Env, req: Request)

  /** Call `i` takes state `i` to state `i + 1` and gets answer `i`. */
  datatype Run = Run(cfg: Config, calls: seq<Call>, states: seq<State>, answers: seq<Outcome>)
  {
    ghost predicate WellSized() {
      |states| == |calls| + 1 && |answers| == |calls|
    }

    ghost predicate Happens(i: nat)
      requires WellSized() && i < |calls|
    {
      Step(cfg, calls[i].env, states[i], calls[i].req) == Reply(states[i + 1], answers[i])
    }

    /** The run starts empty, and its calls are `Legal`. */
    ghost predicate Valid() {
      && WellSized()
      && states[0] == INITIAL
      && Legal(calls)
      && forall i {:trigger Happens(i)} :: 0 <= i < |calls| ==> Happens(i)
    }
  }

  /** The clock never goes back, and no identifier is handed out twice. */
  predicate Follows(first: Call, later: Call) {
    && first.env.now <= later.env.now
    && (NewId(first.req).Some? ==> NewId(first.req) != NewId(later.req))
  }

  /** The generators use the prefix they are given. */
  predicate WellPrefixed(req: Request) {
    NewId(req).Some? ==> (IsTgtId(NewId(req).value) <==> !req.Grant?)
  }

  ghost predicate Legal(calls: seq<Call>) {
    && (forall i, j {:trigger Follows(calls[i], calls[j])} :: 0 <= i < j < |calls| ==> Follows(calls[i], calls[j]))
    && (forall i {:trigger WellPrefixed(calls[i].req)} :: 0 <= i < |calls| ==> WellPrefixed(calls[i].req))
  }

  /** The service objects that the calls bring along. */
  function ServicesOf(calls: seq<Call>): set<WebApplicationService> {
    set i | 0 <= i < |calls| && calls[i].req.Grant? :: calls[i].req.service
  }

  /** Every sequence of legal calls is a run, in exactly one way. */
  function Execute(cfg: Config, calls: seq<Call>): (r: Run)
    ensures r.cfg == cfg && r.calls == calls && r.WellSized()
    ensures r.states[0] == INITIAL
    ensures forall i {:trigger r.Happens(i)} :: 0 <= i < |calls| ==> r.Happens(i)
  {
    if calls == [] then Run(cfg, calls, [INITIAL], [])
    else
      var n := |calls| - 1;
      var r := Execute(cfg, calls[..n]);
      var reply := Step(cfg, calls[n].env, r.states[n], calls[n].req);
      var next := Run(cfg, calls, r.states + [reply.state], r.answers + [reply.outcome]);
      assert forall i {:trigger next.Happens(i)} :: 0 <= i < n ==> r.Happens(i) && next.Happens(i);
      next
  }

  lemma {:induction false} RunsAreExecutions(r: Run, k: nat)
    requires r.WellSized() && r.states[0] == INITIAL && k <= |r.calls|
    requires forall i {:trigger r.Happens(i)} :: 0 <= i < |r.calls| ==> r.Happens(i)
    ensures r.states[k] == Execute(r.cfg, r.calls).states[k]
    ensures k < |r.calls| ==> r.answers[k] == Execute(r.cfg, r.calls).answers[k]
  {
    var e := Execute(r.cfg, r.calls);
    if k > 0 {
      RunsAreExecutions(r, k - 1);
    }
    if k < |r.calls| {
      assert r.Happens(k) && e.Happens(k);
    }
    if k > 0 {
      assert r.Happens(k - 1) && e.Happens(k - 1);
    }
  }

  // ---- Reachable states ------------------------------------------------------------

  ghost predicate IssuedBefore(calls: seq<Call>, k: nat, id: TicketId)
    requires k <= |calls|
  {
    exists i :: 0 <= i < k && NewId(calls[i].req) == Some(id)
  }

  lemma OnlyNewIds(cfg: Config, env: Env, st: State, req: Request, id: TicketId)
    requires id in Step(cfg, env, st, req).state.heap && id !in st.heap
    ensures NewId(req) == Some(id) && Step(cfg, env, st, req).outcome == Issued(id)
  {
  }

  lemma {:induction false} Reachable(r: Run, k: nat)
    requires r.Valid() && k <= |r.calls|
    ensures Inv(r.cfg, r.states[k])
    ensures forall id :: id in r.states[k].heap ==> IssuedBefore(r.calls, k, id)
    ensures k < |r.calls| ==> Admissible(r.states[k].heap, r.calls[k].req)
  {
    if k > 0 {
      var c := r.calls[k - 1];
      Reachable(r, k - 1);
      assert r.Happens(k - 1);
      StepKeeps(r.cfg, c.env, r.states[k - 1], c.req);
      forall id | id in r.states[k].heap ensures IssuedBefore(r.calls, k, id) {
        if id in r.states[k - 1].heap {
          assert IssuedBefore(r.calls, k - 1, id);
        } else {
          OnlyNewIds(r.cfg, c.env, r.states[k - 1], c.req, id);
        }
      }
    }
    if k < |r.calls| {
      assert WellPrefixed(r.calls[k].req);
      forall i | 0 <= i < k ensures Follows(r.calls[i], r.calls[k]) {}
    }
  }

  lemma NextEvolves(r: Run, k: nat)
    requires r.Valid() && k < |r.calls|
    ensures Forest(r.states[k].heap) && Evolves(r.states[k].heap, r.states[k + 1].heap, r.calls[k].env.now)
  {
    Reachable(r, k);
    assert r.Happens(k);
    StepKeeps(r.cfg, r.calls[k].env, r.states[k], r.calls[k].req);
  }

  /** Between two points of a run, a ticket keeps everything but its usage, its services map and its flags. */
  ghost predicate SameTicket(o: Ticket, t: Ticket) {
    && t.policy == o.policy && t.parent == o.parent && t.depth == o.depth && t.created == o.created
    && o.usage.uses <= t.usage.uses
    && match o.kind
       case Granting(a, expired, services) =>
         t.kind.Granting? && t.kind.authentication == a && (expired ==> t.kind.expired)
         && services.Keys <= t.kind.services.Keys
       case OneService(service, fromNewLogin, granted) =>
         t.kind.OneService? && t.kind.service == service && t.kind.fromNewLogin == fromNewLogin
         && (granted ==> t.kind.grantedAlready)
  }

  lemma {:induction false} TicketsPersist(r: Run, i: nat, j: nat, id: TicketId)
    requires r.Valid() && i <= j <= |r.calls| && id in r.states[i].heap
    ensures id in r.states[j].heap && SameTicket(r.states[i].heap[id], r.states[j].heap[id])
    decreases j
  {
    if i < j {
      TicketsPersist(r, i, j - 1, id);
      NextEvolves(r, j - 1);
      assert Advances(r.states[j - 1].heap, r.calls[j - 1].env.now, id, r.states[j].heap[id]);
    }
  }

  lemma {:induction false} LinksPersist(r: Run, i: nat, j: nat, top: TicketId, id: TicketId)
    requires r.Valid() && i <= j <= |r.calls| && id in r.states[i].heap
    ensures Under(r.states[j].heap, top, id) == Under(r.states[i].heap, top, id)
    ensures Chain(r.states[j].heap, id) == Chain(r.states[i].heap, id)
    ensures Root(r.states[j].heap, id) == Root(r.states[i].heap, id)
    decreases j
  {
    if i < j {
      LinksPersist(r, i, j - 1, top, id);
      TicketsPersist(r, i, j - 1, id);
      NextEvolves(r, j - 1);
      var h, k, now := r.states[j - 1].heap, r.states[j].heap, r.calls[j - 1].env.now;
      EvolvesUnder(h, k, now, top, id);
      EvolvesChain(h, k, now, id);
      EvolvesRoot(h, k, now, id);
    }
  }

  // ---- Expiry is permanent -------------------------------------------------------------

  /** The clock at which somebody can look at the k-th state. */
  predicate ReadAt(r: Run, k: nat, t: int)
    requires k <= |r.calls|
  {
    (k > 0 ==> r.calls[k - 1].env.now <= t) && (k < |r.calls| ==> t <= r.calls[k].env.now)
  }

  lemma {:induction false} NothingUsedLater(r: Run, k: nat, t: int)
    requires r.Valid() && k <= |r.calls| && (k > 0 ==> r.calls[k - 1].env.now <= t)
    ensures Recent(r.states[k].heap, t)
  {
    if k > 0 {
      var c := r.calls[k - 1];
      if k > 1 {
        assert Follows(r.calls[k - 2], c);
      }
      NothingUsedLater(r, k - 1, c.env.now);
      Reachable(r, k - 1);
      assert r.Happens(k - 1);
      StepIsRecent(r.cfg, c.env, r.states[k - 1], c.req);
    }
  }

  /** Granting tickets may be remembered or not; service tickets carry no authentication. */
  predicate Lasting(cfg: Config) {
    cfg.tgtPolicy.Lasting() && cfg.stPolicy.LastsFor(false)
  }

  /** A ticket that is expired by itself is never used again, and stays expired by itself. */
  lemma {:induction false} AloneForGood(r: Run, i: nat, j: nat, id: TicketId, t0: int)
    requires r.Valid() && i <= j <= |r.calls| && ReadAt(r, i, t0)
    requires id in r.states[i].heap && Lasts(r.states[i].heap[id]) && r.states[i].heap[id].ExpiredAlone(t0)
    ensures id in r.states[j].heap && Lasts(r.states[j].heap[id]) && r.states[j].heap[id].ExpiredAlone(t0)
    ensures r.states[j].heap[id].usage == r.states[i].heap[id].usage && r.states[j].heap[id].usage.lastUsed <= t0
    decreases j
  {
    NothingUsedLater(r, i, t0);
    if i < j {
      AloneForGood(r, i, j - 1, id, t0);
      NextEvolves(r, j - 1);
      var h, now := r.states[j - 1].heap, r.calls[j - 1].env.now;
      if i < j - 1 {
        assert Follows(r.calls[i], r.calls[j - 1]);
      }
      AloneLater(h[id], t0, now);
      AloneStays(h, r.states[j].heap, now, id, t0);
    }
  }

  /** What is expired at one time, in one state, is expired at all later times in all later states. */
  lemma ExpiryIsPermanent(r: Run, i: nat, j: nat, id: TicketId, t0: int, t1: int)
    requires r.Valid() && Lasting(r.cfg) && i <= j <= |r.calls| && ReadAt(r, i, t0) && t0 <= t1
    requires Expired(r.states[i].heap, id, t0)
    ensures Expired(r.states[j].heap, id, t1)
  {
    var above := ExpiryCulprit(r.states[i].heap, id, t0);
    Reachable(r, i);
    AloneForGood(r, i, j, above, t0);
    AloneLater(r.states[j].heap[above], t0, t1);
    LinksPersist(r, i, j, above, id);
    ExpiryIsInherited(r.states[j].heap, above, id, t1);
  }

  // ---- Destroying is final ----------------------------------------------------------------

  function Target(req: Request): Option<TicketId> {
    match req
    case Create(_, _) => None
    case Grant(tgt, _, _, _) => Some(tgt)
    case Delegate(st, _, _) => Some(st)
    case Validate(st, _) => Some(st)
    case Destroy(tgt) => Some(tgt)
  }

  /**
   * Once a stored granting ticket is destroyed, everything that ever hangs below it is
   * expired for good, whatever the policies, and no call on any of it succeeds.
   */
  lemma DestroyIsFinal(r: Run, i: nat, j: nat, top: TicketId, id: TicketId)
    requires r.Valid() && i < j <= |r.calls|
    requires r.calls[i].req == Destroy(top) && Find(r.cfg, r.states[i], top, true).Found?
    requires id in r.states[j].heap && Under(r.states[j].heap, top, id)
    ensures forall now :: Expired(r.states[j].heap, id, now)
    ensures j < |r.calls| && Target(r.calls[j].req) == Some(id) && !r.calls[j].req.Destroy? ==> r.answers[j].Failed?
  {
    assert r.Happens(i);
    TicketsPersist(r, i + 1, j, top);
    var h := r.states[j].heap;
    forall now ensures Expired(h, id, now) {
      ExpiryIsInherited(h, top, id, now);
    }
    if j < |r.calls| && Target(r.calls[j].req) == Some(id) && !r.calls[j].req.Destroy? {
      assert r.Happens(j);
    }
  }

  // ---- At most n validations ---------------------------------------------------------------

  /** A validation of `id` that got past the expiry check, for the right service or not. */
  predicate Passed(req: Request, answer: Outcome, id: TicketId) {
    && req.Validate? && req.st == id
    && match answer
       case Asserted(_) => true
       case Failed(e) => e.WrongService? || e.NullPointer?
       case _ => false
  }

  function Passes(r: Run, k: nat, id: TicketId): nat
    requires k <= |r.calls| && k <= |r.answers|
  {
    if k == 0 then 0
    else Passes(r, k - 1, id) + if Passed(r.calls[k - 1].req, r.answers[k - 1], id) then 1 else 0
  }

  function UsesOf(h: Heap, id: TicketId): nat {
    if id in h then h[id].usage.uses else 0
  }

  lemma StepCountsPasses(cfg: Config, env: Env, st: State, req: Request, id: TicketId)
    requires HeapInv(cfg, st.heap) && Admissible(st.heap, req) && !IsTgtId(id)
    ensures var reply := Step(cfg, env, st, req);
      UsesOf(reply.state.heap, id) == UsesOf(st.heap, id) + if Passed(req, reply.outcome, id) then 1 else 0
  {
  }

  /** The use count of a service ticket is the number of validations that got past its expiry check. */
  lemma {:induction false} UsesCountPasses(r: Run, k: nat, id: TicketId)
    requires r.Valid() && k <= |r.calls| && !IsTgtId(id)
    ensures Passes(r, k, id) == UsesOf(r.states[k].heap, id)
  {
    if k > 0 {
      UsesCountPasses(r, k - 1, id);
      Reachable(r, k - 1);
      assert r.Happens(k - 1);
      StepCountsPasses(r.cfg, r.calls[k - 1].env, r.states[k - 1], r.calls[k - 1].req, id);
    }
  }

  ghost predicate UsedUp(cfg: Config, st: State, id: TicketId) {
    cfg.stPolicy.MultiUseOrTimeout? && id in st.heap && UsesOf(st.heap, id) >= cfg.stPolicy.maxUses
  }

  /** The n-th use takes the ticket out of the registry, and there is no use after it. */
  lemma StepLimitsUses(cfg: Config, env: Env, st: State, req: Request, id: TicketId)
    requires Inv(cfg, st) && Admissible(st.heap, req) && !IsTgtId(id)
    requires cfg.stPolicy.MultiUseOrTimeout? && cfg.stPolicy.maxUses > 0
    requires UsesOf(st.heap, id) <= cfg.stPolicy.maxUses && (UsedUp(cfg, st, id) ==> id !in st.registry)
    ensures var next := Step(cfg, env, st, req).state;
      UsesOf(next.heap, id) <= cfg.stPolicy.maxUses && (UsedUp(cfg, next, id) ==> id !in next.registry)
  {
    StepCountsPasses(cfg, env, st, req, id);
  }

  /** With the n-use policy a service ticket passes at most n times, and is gone after the n-th. */
  lemma {:induction false} AtMostNValidations(r: Run, k: nat, id: TicketId)
    requires r.Valid() && k <= |r.calls| && !IsTgtId(id)
    requires r.cfg.stPolicy.MultiUseOrTimeout? && r.cfg.stPolicy.maxUses > 0
    ensures Passes(r, k, id) <= r.cfg.stPolicy.maxUses
    ensures Passes(r, k, id) == r.cfg.stPolicy.maxUses ==> id !in r.states[k].registry
  {
    UsesCountPasses(r, k, id);
    if k > 0 {
      AtMostNValidations(r, k - 1, id);
      UsesCountPasses(r, k - 1, id);
      Reachable(r, k - 1);
      assert r.Happens(k - 1);
      StepLimitsUses(r.cfg, r.calls[k - 1].env, r.states[k - 1], r.calls[k - 1].req, id);
    }
  }

  lemma {:induction false} PassesGrow(r: Run, i: nat, j: nat, id: TicketId)
    requires i <= j <= |r.calls| && j <= |r.answers|
    ensures Passes(r, i, id) <= Passes(r, j, id)
    decreases j
  {
    if i < j {
      PassesGrow(r, i, j - 1, id);
    }
  }

  /**
   * With the one-use policy no ticket gets past the expiry check twice, so none is validated twice.
   * Attempts that are refused before that check do not count; `Validation.AttemptSpendsIff` and
   * `Validation.RequestSpendsIff` say exactly which attempts use a ticket up.
   */
  lemma NeverValidatedTwice(r: Run, i: nat, j: nat, id: TicketId)
    requires r.Valid() && i < j < |r.calls| && !IsTgtId(id)
    requires r.cfg.stPolicy.MultiUseOrTimeout? && r.cfg.stPolicy.maxUses == 1
    requires Passed(r.calls[i].req, r.answers[i], id)
    ensures !Passed(r.calls[j].req, r.answers[j], id)
  {
    PassesGrow(r, i + 1, j, id);
    AtMostNValidations(r, j + 1, id);
  }
}
