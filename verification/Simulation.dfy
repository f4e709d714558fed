/** The map registry, which deletes one ticket, and the cascading registry answer alike. */
module Simulation {
  import opened Domain
  import opened Expiration
  import opened Tickets
  import opened Protocol
  import opened Steps
  import opened Runs

  /** Some granting ticket above says of itself that it is expired. */
  ghost predicate SessionOver(h: Heap, id: TicketId, now: int) {
    exists above :: above in h && h[above].kind.Granting? && Under(h, above, id) && h[above].ExpiredAlone(now)
  }

  /** Some ticket above is not stored any more. */
  ghost predicate Orphaned(st: State, id: TicketId) {
    exists above :: above in st.heap && Under(st.heap, above, id) && above !in st.registry
  }

  /** `l` keeps every ticket of `c` as it is; what it keeps beyond them is orphaned, and its session is over. */
  ghost predicate Simulates(l: State, c: State, now: int) {
    && l.heap.Keys == c.heap.Keys
    && c.registry <= l.registry
    && (forall id :: id in c.registry ==> id in l.heap && l.heap[id] == c.heap[id])
    && ExtrasOver(l, c, now)
  }

  ghost predicate ExtrasOver(l: State, c: State, now: int) {
    forall id :: id in l.registry && id !in c.registry ==> SessionOver(l.heap, id, now) && Orphaned(l, id)
  }

  lemma OverIsExpired(h: Heap, id: TicketId, now: int)
    requires SessionOver(h, id, now)
    ensures Expired(h, id, now)
  {
    var above :| above in h && h[above].kind.Granting? && Under(h, above, id) && h[above].ExpiredAlone(now);
    ExpiryIsInherited(h, above, id, now);
  }

  /** Below an expired granting ticket the session is over. */
  lemma ExpiredIsOver(h: Heap, top: TicketId, id: TicketId, now: int)
    requires Forest(h) && top in h && h[top].kind.Granting? && Expired(h, top, now) && Under(h, top, id)
    ensures SessionOver(h, id, now)
  {
    var above := ExpiryCulprit(h, top, now);
    AboveIsGranting(h, above, top);
    UnderIsTransitive(h, above, top, id);
  }

  lemma {:induction false} AboveIsGranting(h: Heap, above: TicketId, id: TicketId)
    requires Forest(h) && id in h && h[id].kind.Granting? && Under(h, above, id)
    ensures above in h && h[above].kind.Granting?
    decreases DepthOf(h, id)
  {
    ForestLinks(h, id);
    assert Rooted(h, id);
    if above != id {
      AboveIsGranting(h, above, Up(h, id).value);
    }
  }

  lemma OverStaysOver(h: Heap, k: Heap, id: TicketId, now: int)
    requires Evolves(h, k, now) && Forest(h) && id in h && SessionOver(h, id, now)
    ensures SessionOver(k, id, now)
  {
    var above :| above in h && h[above].kind.Granting? && Under(h, above, id) && h[above].ExpiredAlone(now);
    AloneStays(h, k, now, above, now);
    EvolvesUnder(h, k, now, above, id);
  }

  /** Tickets that left the registry do not come back to it. */
  lemma OrphanStays(l: State, l': State, id: TicketId, now: int)
    requires Evolves(l.heap, l'.heap, now) && Forest(l.heap) && id in l.heap && Orphaned(l, id)
    requires forall x :: x in l.heap && x in l'.registry ==> x in l.registry
    ensures Orphaned(l', id)
  {
    var above :| above in l.heap && Under(l.heap, above, id) && above !in l.registry;
    EvolvesUnder(l.heap, l'.heap, now, above, id);
  }

  lemma OverLater(cfg: Config, h: Heap, id: TicketId, t0: int, t1: int)
    requires Governed(cfg, h) && cfg.tgtPolicy.Lasting() && Recent(h, t0) && t0 <= t1 && SessionOver(h, id, t0)
    ensures SessionOver(h, id, t1)
  {
    var above :| above in h && h[above].kind.Granting? && Under(h, above, id) && h[above].ExpiredAlone(t0);
    AloneLater(h[above], t0, t1);
  }

  // ---- What a stored ticket sees of the tickets above it ---------------------------------

  /** `h` and `k` agree on `live`, which is closed under parents in `h`. */
  ghost predicate AgreeOn(h: Heap, k: Heap, live: set<TicketId>) {
    && Forest(h) && Forest(k) && live <= h.Keys && live <= k.Keys
    && (forall id :: id in live ==> h[id] == k[id])
    && ParentClosed(h, live)
  }

  lemma {:induction false} AgreeingExpiry(h: Heap, k: Heap, live: set<TicketId>, id: TicketId, now: int)
    requires AgreeOn(h, k, live) && id in live
    ensures Expired(h, id, now) == Expired(k, id, now)
    decreases DepthOf(h, id)
  {
    if Up(h, id).Some? {
      AgreeingExpiry(h, k, live, Up(h, id).value, now);
    }
  }

  lemma {:induction false} AgreeingChain(h: Heap, k: Heap, live: set<TicketId>, id: TicketId)
    requires AgreeOn(h, k, live) && id in live
    ensures Chain(h, id) == Chain(k, id)
    decreases DepthOf(h, id)
  {
    if Up(h, id).Some? {
      AgreeingChain(h, k, live, Up(h, id).value);
    }
  }

  lemma {:induction false} AgreeingUnder(h: Heap, k: Heap, live: set<TicketId>, top: TicketId, id: TicketId)
    requires AgreeOn(h, k, live) && id in live
    ensures Under(h, top, id) == Under(k, top, id)
    decreases DepthOf(h, id)
  {
    if Up(h, id).Some? {
      AgreeingUnder(h, k, live, top, Up(h, id).value);
    }
  }

  // ---- Pairs of states ----------------------------------------------------------------------

  /** The same service over the two registries, in simulating states. */
  ghost predicate Paired(lc: Config, cc: Config, l: State, c: State, now: int) {
    && lc.mode.Lazy? && cc == lc.(mode := Cascade)
    && Inv(lc, l) && Inv(cc, c)
    && Simulates(l, c, now)
  }

  lemma DeleteTogether(lc: Config, cc: Config, l: State, c: State, now: int, id: TicketId)
    requires Paired(lc, cc, l, c, now) && (id in c.registry ==> Expired(l.heap, id, now))
    ensures Simulates(Delete(lc, l, id), Delete(cc, c, id), now)
  {
    var l', c' := Delete(lc, l, id), Delete(cc, c, id);
    StoredIffRegistered(lc, l, id);
    StoredIffRegistered(cc, c, id);
    forall x | x in l'.registry && x !in c'.registry ensures SessionOver(l'.heap, x, now) && Orphaned(l', x) {
      if x in c.registry {
        AgreeingUnder(c.heap, l.heap, c.registry, id, x);
        ExpiredIsOver(l.heap, id, x, now);
      } else {
        UnchangedEvolves(l.heap, now);
        OrphanStays(l, l', x, now);
      }
    }
  }

  /** Both heaps change the same stored ticket alike, and perhaps gain the same new one. */
  lemma ChangeTogether(l: State, c: State, l': State, c': State, now: int)
    requires Simulates(l, c, now)
    requires Evolves(l.heap, l'.heap, now) && Forest(l.heap) && l.registry <= l.heap.Keys
    requires l'.heap.Keys == c'.heap.Keys && c'.registry <= l'.registry
    requires forall id :: id in c'.registry ==> id in l'.heap && l'.heap[id] == c'.heap[id]
    requires forall id :: id in l'.registry && id !in c'.registry ==> id in l.registry && id !in c.registry
    requires forall id :: id in l.heap && id in l'.registry ==> id in l.registry
    ensures Simulates(l', c', now)
  {
    forall id | id in l'.registry && id !in c'.registry ensures SessionOver(l'.heap, id, now) && Orphaned(l', id) {
      OverStaysOver(l.heap, l'.heap, id, now);
      OrphanStays(l, l', id, now);
    }
  }

  /** Both services issue the same ticket from the same stored ticket. */
  lemma IssueTogether(lc: Config, cc: Config, l: State, c: State, now: int, id: TicketId, t: Ticket,
                      newId: TicketId, n: Ticket)
    requires Paired(lc, cc, l, c, now) && id in c.registry && newId !in l.heap
    requires Evolves(l.heap, l.heap[id := t][newId := n], now)
    ensures Simulates(Put(l.(heap := l.heap[id := t]), newId, n), Put(c.(heap := c.heap[id := t]), newId, n), now)
  {
    ChangeTogether(l, c, Put(l.(heap := l.heap[id := t]), newId, n), Put(c.(heap := c.heap[id := t]), newId, n), now);
  }

  // ---- Calls ------------------------------------------------------------------------------

  predicate WantsGranting(req: Request) {
    req.Grant? || req.Destroy?
  }

  /** The identifier is of the kind that the call is for. */
  predicate Typed(req: Request) {
    Target(req).Some? ==> (IsTgtId(Target(req).value) <==> WantsGranting(req))
  }

  /** The ticket of a mistyped call is only in the map registry; a delegation looks it up if it authenticates. */
  predicate Misplaced(env: Env, l: State, c: State, req: Request) {
    && !Typed(req)
    && Target(req).value in l.registry && Target(req).value !in c.registry
    && (req.Delegate? ==> env.authenticate(req.credentials).Some?)
  }

  lemma CreateTogether(lc: Config, cc: Config, env: Env, l: State, c: State, req: Request)
    requires Paired(lc, cc, l, c, env.now) && Admissible(l.heap, req) && req.Create?
    ensures var lr, cr := Step(lc, env, l, req), Step(cc, env, c, req);
      Simulates(lr.state, cr.state, env.now) && lr.outcome == cr.outcome
  {
    var lr, cr := Step(lc, env, l, req), Step(cc, env, c, req);
    StepKeeps(lc, env, l, req);
    ChangeTogether(l, c, lr.state, cr.state, env.now);
  }

  lemma SameRefusal(env: Env, h: Heap, k: Heap, live: set<TicketId>, tgt: TicketId, service: WebApplicationService,
                    credentials: Option<Credentials>)
    requires AgreeOn(h, k, live) && tgt in live && h[tgt].kind.Granting?
    ensures GrantRefusal(env, h, tgt, service, credentials) == GrantRefusal(env, k, tgt, service, credentials)
  {
    AgreeingChain(h, k, live, tgt);
  }

  lemma GrantAlike(lc: Config, cc: Config, env: Env, l: State, c: State, req: Request)
    requires Paired(lc, cc, l, c, env.now) && req.Grant?
    ensures var lr, cr := Step(lc, env, l, req), Step(cc, env, c, req);
      && (lr.outcome == cr.outcome <==> !Misplaced(env, l, c, req))
      && (lr.outcome.Issued? ==> req.tgt in c.registry)
      && (lr.outcome.Issued? <==> cr.outcome.Issued?)
  {
    StoredIffRegistered(lc, l, req.tgt);
    StoredIffRegistered(cc, c, req.tgt);
    if req.tgt in c.registry {
      AgreeingExpiry(c.heap, l.heap, c.registry, req.tgt, env.now);
    } else if req.tgt in l.registry {
      OverIsExpired(l.heap, req.tgt, env.now);
    }
    if Find(cc, c, req.tgt, true).Found? {
      SameRefusal(env, c.heap, l.heap, c.registry, req.tgt, req.service, req.optional);
    }
  }

  lemma GrantTogether(lc: Config, cc: Config, env: Env, l: State, c: State, req: Request)
    requires Paired(lc, cc, l, c, env.now) && Admissible(l.heap, req) && req.Grant?
    ensures var lr, cr := Step(lc, env, l, req), Step(cc, env, c, req);
      Simulates(lr.state, cr.state, env.now) && (lr.outcome == cr.outcome <==> !Misplaced(env, l, c, req))
  {
    GrantAlike(lc, cc, env, l, c, req);
    if Step(lc, env, l, req).outcome.Issued? {
      var t := l.heap[req.tgt];
      StepKeeps(lc, env, l, req);
      IssueTogether(lc, cc, l, c, env.now, req.tgt, WithService(t.Touched(env.now), req.newId, req.service),
                    req.newId, NewServiceTicket(lc, env.now, req.tgt, t, req.service, req.optional.Some?));
    } else {
      GrantRefusedTogether(lc, cc, env, l, c, req);
    }
  }

  /** A refused call only ever drops an expired ticket. */
  lemma {:induction false} GrantRefusedTogether(lc: Config, cc: Config, env: Env, l: State, c: State, req: Request)
    requires Paired(lc, cc, l, c, env.now) && req.Grant? && !Step(lc, env, l, req).outcome.Issued?
    ensures Simulates(Step(lc, env, l, req).state, Step(cc, env, c, req).state, env.now)
  {
    GrantAlike(lc, cc, env, l, c, req);
    StoredIffRegistered(lc, l, req.tgt);
    StoredIffRegistered(cc, c, req.tgt);
    if req.tgt in c.registry {
      AgreeingExpiry(c.heap, l.heap, c.registry, req.tgt, env.now);
    }
    if Find(lc, l, req.tgt, true).Found? && Expired(l.heap, req.tgt, env.now) {
      DeleteTogether(lc, cc, l, c, env.now, req.tgt);
    }
  }

  lemma DelegateAlike(lc: Config, cc: Config, env: Env, l: State, c: State, req: Request)
    requires Paired(lc, cc, l, c, env.now) && req.Delegate?
    ensures var lr, cr := Step(lc, env, l, req), Step(cc, env, c, req);
      && (lr.outcome == cr.outcome <==> !Misplaced(env, l, c, req))
      && (lr.outcome.Issued? <==> cr.outcome.Issued?)
      && (lr.outcome.Issued? ==> req.st in c.registry)
      && (!lr.outcome.Issued? ==> lr.state == l && cr.state == c)
  {
    StoredIffRegistered(lc, l, req.st);
    StoredIffRegistered(cc, c, req.st);
    if req.st in c.registry {
      AgreeingExpiry(c.heap, l.heap, c.registry, req.st, env.now);
    } else if req.st in l.registry {
      OverIsExpired(l.heap, req.st, env.now);
    }
  }

  /** The state after a delegation that issues. */
  function AfterDelegate(cfg: Config, env: Env, st: State, req: Request, a: Authentication): State
    requires req.Delegate? && req.st in st.heap && st.heap[req.st].kind.OneService?
  {
    var t := st.heap[req.st];
    Put(st.(heap := st.heap[req.st := t.(kind := t.kind.(grantedAlready := true))]), req.newId,
        NewProxyGranting(cfg, env.now, t, a))
  }

  lemma DelegateIssues(cfg: Config, env: Env, st: State, req: Request)
    requires req.Delegate? && Step(cfg, env, st, req).outcome.Issued?
    ensures req.st in st.heap && st.heap[req.st].kind.OneService? && env.authenticate(req.credentials).Some?
    ensures Step(cfg, env, st, req).state == AfterDelegate(cfg, env, st, req, env.authenticate(req.credentials).value)
  {
  }

  lemma DelegateTogether(lc: Config, cc: Config, env: Env, l: State, c: State, req: Request)
    requires Paired(lc, cc, l, c, env.now) && Admissible(l.heap, req) && req.Delegate?
    ensures var lr, cr := Step(lc, env, l, req), Step(cc, env, c, req);
      Simulates(lr.state, cr.state, env.now) && (lr.outcome == cr.outcome <==> !Misplaced(env, l, c, req))
  {
    DelegateAlike(lc, cc, env, l, c, req);
    if Step(lc, env, l, req).outcome.Issued? {
      DelegateIssues(lc, env, l, req);
      DelegateIssues(cc, env, c, req);
      StepKeeps(lc, env, l, req);
      var t := l.heap[req.st];
      IssueTogether(lc, cc, l, c, env.now, req.st, t.(kind := t.kind.(grantedAlready := true)),
                    req.newId, NewProxyGranting(lc, env.now, t, env.authenticate(req.credentials).value));
    }
  }

  lemma SameAssertion(env: Env, h: Heap, k: Heap, live: set<TicketId>, id: TicketId, rs: RegisteredService)
    requires AgreeOn(h, k, live) && id in live && h[id].kind.OneService?
    ensures AssertionFor(env, h, h[id], rs) == AssertionFor(env, k, k[id], rs)
  {
    assert Rooted(h, id);
    AgreeingChain(h, k, live, h[id].parent.value);
  }

  /** An attempt on a live ticket: same outcome, and the ticket is dropped in both or in neither. */
  lemma AttemptTogether(lc: Config, cc: Config, env: Env, l: State, c: State, id: TicketId,
                        service: WebApplicationService, rs: RegisteredService)
    requires Paired(lc, cc, l, c, env.now)
    requires id in l.registry && l.heap[id].kind.OneService? && !Expired(l.heap, id, env.now)
    ensures id in c.registry
    ensures var used := l.heap[id].Touched(env.now);
      var l1, c1 := l.(heap := l.heap[id := used]), c.(heap := c.heap[id := used]);
      && Simulates(Sweep(lc, env.now, l1, id), Sweep(cc, env.now, c1, id), env.now)
      && ValidateOutcome(env, l1.heap, used, service, rs) == ValidateOutcome(env, c1.heap, used, service, rs)
  {
    UseTogether(lc, cc, env, l, c, id);
    var used := l.heap[id].Touched(env.now);
    var l1, c1 := l.(heap := l.heap[id := used]), c.(heap := c.heap[id := used]);
    AgreeingExpiry(c1.heap, l1.heap, c1.registry, id, env.now);
    SameAssertion(env, c1.heap, l1.heap, c1.registry, id, rs);
    if Expired(l1.heap, id, env.now) {
      DeleteTogether(lc, cc, l1, c1, env.now, id);
    }
  }

  lemma ServedTogether(lc: Config, cc: Config, env: Env, l: State, c: State, req: Request)
    requires Paired(lc, cc, l, c, env.now) && req.Validate?
    requires Find(lc, l, req.st, false).Found? && FindsEnabled(env, req.service)
    ensures var lr, cr := Step(lc, env, l, req), Step(cc, env, c, req);
      Simulates(lr.state, cr.state, env.now) && lr.outcome == cr.outcome
  {
    var id := req.st;
    StoredIffRegistered(cc, c, id);
    if Expired(l.heap, id, env.now) {
      if id in c.registry {
        AgreeingExpiry(c.heap, l.heap, c.registry, id, env.now);
      }
      DeleteTogether(lc, cc, l, c, env.now, id);
    } else {
      AttemptTogether(lc, cc, env, l, c, id, req.service, env.find(req.service).value);
      AgreeingExpiry(c.heap, l.heap, c.registry, id, env.now);
    }
  }

  lemma ValidateTogether(lc: Config, cc: Config, env: Env, l: State, c: State, req: Request)
    requires Paired(lc, cc, l, c, env.now) && req.Validate?
    ensures var lr, cr := Step(lc, env, l, req), Step(cc, env, c, req);
      Simulates(lr.state, cr.state, env.now) && (lr.outcome == cr.outcome <==> !Misplaced(env, l, c, req))
  {
    StoredIffRegistered(lc, l, req.st);
    if Find(lc, l, req.st, false).Found? && FindsEnabled(env, req.service) {
      ServedTogether(lc, cc, env, l, c, req);
    } else {
      StoredIffRegistered(cc, c, req.st);
    }
  }

  lemma UseTogether(lc: Config, cc: Config, env: Env, l: State, c: State, id: TicketId)
    requires Paired(lc, cc, l, c, env.now)
    requires id in l.registry && l.heap[id].kind.OneService? && !Expired(l.heap, id, env.now)
    ensures id in c.registry
    ensures var used := l.heap[id].Touched(env.now);
      Paired(lc, cc, l.(heap := l.heap[id := used]), c.(heap := c.heap[id := used]), env.now)
  {
    if id !in c.registry {
      OverIsExpired(l.heap, id, env.now);
    }
    AgreeingExpiry(c.heap, l.heap, c.registry, id, env.now);
    var used := l.heap[id].Touched(env.now);
    UseKeeps(lc, l, id, env.now);
    UseKeeps(cc, c, id, env.now);
    ChangeTogether(l, c, l.(heap := l.heap[id := used]), c.(heap := c.heap[id := used]), env.now);
  }

  lemma {:induction false} DestroyTogether(lc: Config, cc: Config, env: Env, l: State, c: State, req: Request)
    requires Paired(lc, cc, l, c, env.now) && req.Destroy?
    ensures var lr, cr := Step(lc, env, l, req), Step(cc, env, c, req);
      Simulates(lr.state, cr.state, env.now) && (lr.outcome == cr.outcome <==> !Misplaced(env, l, c, req))
  {
    var id := req.tgt;
    StoredIffRegistered(lc, l, id);
    StoredIffRegistered(cc, c, id);
    if Find(lc, l, id, true).Found? {
      var l1 := Expire(l, id);
      var c1 := if id in c.registry then Expire(c, id) else c;
      ExpireKeeps(lc, l, id, env.now);
      if id in c.registry {
        ExpireKeeps(cc, c, id, env.now);
      }
      ChangeTogether(l, c, l1, c1, env.now);
      assert Expired(l1.heap, id, env.now);
      DeleteTogether(lc, cc, l1, c1, env.now, id);
    }
  }

  /** One call on both services: the states stay paired, and the answers differ exactly for misplaced calls. */
  lemma StepTogether(lc: Config, cc: Config, env: Env, l: State, c: State, req: Request)
    requires Paired(lc, cc, l, c, env.now) && Admissible(l.heap, req)
    ensures var lr, cr := Step(lc, env, l, req), Step(cc, env, c, req);
      Simulates(lr.state, cr.state, env.now) && (lr.outcome == cr.outcome <==> !Misplaced(env, l, c, req))
  {
    match req
    case Create(_, _) => CreateTogether(lc, cc, env, l, c, req);
    case Grant(_, _, _, _) => GrantTogether(lc, cc, env, l, c, req);
    case Delegate(_, _, _) => DelegateTogether(lc, cc, env, l, c, req);
    case Validate(_, _) => ValidateTogether(lc, cc, env, l, c, req);
    case Destroy(_) => DestroyTogether(lc, cc, env, l, c, req);
  }

  // ---- Runs --------------------------------------------------------------------------------

  /** The same calls, made over the map registry and over the cascading registry. */
  ghost predicate Twins(l: Run, c: Run) {
    && l.Valid() && c.Valid() && l.calls == c.calls
    && l.cfg.mode.Lazy? && c.cfg == l.cfg.(mode := Cascade)
    && l.cfg.tgtPolicy.Lasting()
  }

  lemma SimulationAges(cfg: Config, l: State, c: State, t0: int, t1: int)
    requires Simulates(l, c, t0) && t0 <= t1 && Recent(l.heap, t0) && Governed(cfg, l.heap) && cfg.tgtPolicy.Lasting()
    ensures Simulates(l, c, t1)
  {
    forall id | id in l.registry && id !in c.registry ensures SessionOver(l.heap, id, t1) && Orphaned(l, id) {
      OverLater(cfg, l.heap, id, t0, t1);
    }
  }

  lemma NextPaired(lc: Config, cc: Config, env: Env, l: State, c: State, req: Request, later: int)
    requires Paired(lc, cc, l, c, env.now) && Admissible(l.heap, req) && env.now <= later
    requires lc.tgtPolicy.Lasting() && Recent(l.heap, env.now)
    ensures Paired(lc, cc, Step(lc, env, l, req).state, Step(cc, env, c, req).state, later)
  {
    StepTogether(lc, cc, env, l, c, req);
    StepKeeps(lc, env, l, req);
    StepKeeps(cc, env, c, req);
    StepIsRecent(lc, env, l, req);
    SimulationAges(lc, Step(lc, env, l, req).state, Step(cc, env, c, req).state, env.now, later);
  }

  lemma {:induction false} TwinsStayPaired(l: Run, c: Run, k: nat)
    requires Twins(l, c) && k < |l.calls|
    ensures Paired(l.cfg, c.cfg, l.states[k], c.states[k], l.calls[k].env.now)
  {
    if k == 0 {
      Reachable(l, 0);
      Reachable(c, 0);
    } else {
      var call := l.calls[k - 1];
      TwinsStayPaired(l, c, k - 1);
      Reachable(l, k - 1);
      if k > 1 {
        assert Follows(l.calls[k - 2], call);
      }
      NothingUsedLater(l, k - 1, call.env.now);
      assert l.Happens(k - 1) && c.Happens(k - 1);
      assert Follows(l.calls[k - 1], l.calls[k]);
      NextPaired(l.cfg, c.cfg, call.env, l.states[k - 1], c.states[k - 1], call.req, l.calls[k].env.now);
    }
  }

  lemma {:induction false} AboveIsStored(h: Heap, k: Heap, live: set<TicketId>, above: TicketId, id: TicketId)
    requires AgreeOn(h, k, live) && id in live && Under(k, above, id)
    ensures above in live
    decreases DepthOf(k, id)
  {
    if above != id {
      AboveIsStored(h, k, live, above, Up(k, id).value);
    }
  }

  /** The cascading registry holds exactly the tickets of the map registry that are not orphaned there. */
  lemma StoredIffNotOrphaned(l: Run, c: Run, k: nat, id: TicketId)
    requires Twins(l, c) && k < |l.calls|
    ensures id in c.states[k].registry <==> id in l.states[k].registry && !Orphaned(l.states[k], id)
  {
    TwinsStayPaired(l, c, k);
    if id in c.states[k].registry {
      forall above | Under(l.states[k].heap, above, id) ensures above in l.states[k].registry {
        AboveIsStored(c.states[k].heap, l.states[k].heap, c.states[k].registry, above, id);
      }
    }
  }

  /** A mistyped call on an orphaned ticket; a delegation looks it up only if it authenticates. */
  ghost predicate Confused(env: Env, st: State, req: Request) {
    && !Typed(req)
    && Target(req).value in st.registry && Orphaned(st, Target(req).value)
    && (req.Delegate? ==> env.authenticate(req.credentials).Some?)
  }

  /**
   * In every run the two services give the same answer to a call, unless the call is confused,
   * which the map registry alone tells; then, and only then, the answers differ.
   */
  lemma AnswersDifferIffConfused(l: Run, c: Run, k: nat)
    requires Twins(l, c) && k < |l.calls|
    ensures l.answers[k] == c.answers[k] <==> !Confused(l.calls[k].env, l.states[k], l.calls[k].req)
  {
    var call := l.calls[k];
    TwinsStayPaired(l, c, k);
    Reachable(l, k);
    assert l.Happens(k) && c.Happens(k);
    StepTogether(l.cfg, c.cfg, call.env, l.states[k], c.states[k], call.req);
    if Target(call.req).Some? {
      StoredIffNotOrphaned(l, c, k, Target(call.req).value);
    }
  }

  /** With well-typed identifiers no client can tell the two registries apart. */
  lemma RegistriesAreIndistinguishable(l: Run, c: Run)
    requires Twins(l, c)
    requires forall k :: 0 <= k < |l.calls| ==> Typed(l.calls[k].req)
    ensures l.answers == c.answers
  {
    forall k | 0 <= k < |l.calls| ensures l.answers[k] == c.answers[k] {
      AnswersDifferIffConfused(l, c, k);
    }
  }
}
