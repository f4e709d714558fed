/** Where tickets come from: session bounds, proxy chains, new logins, proxy authorization, logout. */
module Provenance {
  import opened Domain
  import opened Expiration
  import opened Tickets
  import opened Protocol
  import opened Steps
  import opened Runs

  // ---- The call that made a ticket --------------------------------------------------

  /** What the tickets before a call, and the call, say about the ticket `t` that it makes. */
  ghost predicate MadeBy(env: Env, h: Heap, req: Request, t: Ticket) {
    && t.created == env.now && t.usage == Usage(env.now, 0, 0)
    && (if t.kind.Granting? then !t.kind.expired && t.kind.services == map[] else !t.kind.grantedAlready)
    && match req
       case Create(credentials, _) =>
         t.parent == None && t.kind.Granting? && env.authenticate(credentials) == Some(t.kind.authentication)
       case Grant(tgt, service, credentials, _) =>
         && tgt in h && h[tgt].kind.Granting? && !Expired(h, tgt, env.now)
         && t.parent == Some(tgt) && t.kind.OneService? && t.kind.service == service
         && FindsEnabled(env, service)
         && (t.kind.fromNewLogin <==> credentials.Some? || h[tgt].usage.uses == 0)
         && (!env.find(service).value.ssoEnabled ==> t.kind.fromNewLogin)
         && (|Chain(h, tgt)| > 1 ==> env.find(service).value.allowedToProxy)
       case Delegate(st, credentials, _) =>
         && st in h && h[st].kind.OneService? && !Expired(h, st, env.now) && !h[st].kind.grantedAlready
         && t.parent == h[st].parent && t.kind.Granting?
         && env.authenticate(credentials) == Some(t.kind.authentication)
         && MayProxy(env, h[st].kind.service)
       case _ => false
  }

  lemma StepMakes(cfg: Config, env: Env, st: State, req: Request, id: TicketId)
    requires id !in st.heap && id in Step(cfg, env, st, req).state.heap
    ensures NewId(req) == Some(id) && Step(cfg, env, st, req).outcome == Issued(id)
    ensures MadeBy(env, st.heap, req, Step(cfg, env, st, req).state.heap[id])
  {
  }

  /** Call `i` of the run made the ticket `id`. */
  ghost predicate Made(r: Run, i: nat, id: TicketId)
    requires r.Valid() && i < |r.calls|
  {
    && NewId(r.calls[i].req) == Some(id) && r.answers[i] == Issued(id)
    && id !in r.states[i].heap && id in r.states[i + 1].heap
    && MadeBy(r.calls[i].env, r.states[i].heap, r.calls[i].req, r.states[i + 1].heap[id])
  }

  /** Every ticket was made by one call of the run, and still is what that call made of it. */
  lemma {:induction false} Origin(r: Run, k: nat, id: TicketId) returns (i: nat)
    requires r.Valid() && k <= |r.calls| && id in r.states[k].heap
    ensures i < k && Made(r, i, id) && SameTicket(r.states[i + 1].heap[id], r.states[k].heap[id])
  {
    assert k > 0;
    if id in r.states[k - 1].heap {
      i := Origin(r, k - 1, id);
    } else {
      assert r.Happens(k - 1);
      StepMakes(r.cfg, r.calls[k - 1].env, r.states[k - 1], r.calls[k - 1].req, id);
      i := k - 1;
    }
    TicketsPersist(r, i + 1, k, id);
  }

  lemma DelegatedHasParent(r: Run, i: nat, id: TicketId)
    requires r.Valid() && i < |r.calls| && Made(r, i, id) && r.calls[i].req.Delegate?
    ensures r.states[i + 1].heap[id].parent.Some?
  {
    Reachable(r, i);
    assert Rooted(r.states[i].heap, r.calls[i].req.st);
  }

  // ---- Absolute session bound ----------------------------------------------------------

  /**
   * Under the two-window policy the session that a login opened is over, with all its
   * proxy tickets, `maxTimeToLive` after the login, whatever happened in between.
   */
  lemma SessionBound(r: Run, k: nat, id: TicketId, now: int) returns (login: nat)
    requires r.Valid() && k <= |r.calls| && id in r.states[k].heap && r.cfg.tgtPolicy.TwoWindows?
    ensures login < k && r.calls[login].req.Create? && r.answers[login] == Issued(Root(r.states[k].heap, id))
    ensures now >= r.calls[login].env.now + r.cfg.tgtPolicy.maxTimeToLive ==> Expired(r.states[k].heap, id, now)
  {
    var h := r.states[k].heap;
    Reachable(r, k);
    RootIsAbove(h, id);
    var root := Root(h, id);
    login := Origin(r, k, root);
    if r.calls[login].req.Delegate? {
      DelegatedHasParent(r, login, root);
    }
    if now >= r.calls[login].env.now + r.cfg.tgtPolicy.maxTimeToLive {
      assert h[root].policy == r.cfg.tgtPolicy;
      ExpiryIsInherited(h, root, id, now);
    }
  }

  // ---- Chains and assertions -----------------------------------------------------------

  /**
   * A validated assertion has the chain of the granting ticket: same length, same order,
   * all but the last entry untouched. The last is the root login, as disclosed to the service.
   */
  lemma AssertedChain(cfg: Config, env: Env, st: State, req: Request)
    requires Inv(cfg, st) && req.Validate? && Step(cfg, env, st, req).outcome.Asserted?
    ensures req.st in st.heap && st.heap[req.st].kind.OneService? && st.heap[req.st].parent.Some?
    ensures var h, t := st.heap, st.heap[req.st];
      var p := t.parent.value;
      var a := Step(cfg, env, st, req).outcome.assertion;
      && p in h && h[p].kind.Granting? && Root(h, p) in h && h[Root(h, p)].kind.Granting?
      && |a.chain| == |Chain(h, p)| == h[p].depth + 1
      && a.chain[..h[p].depth] == Chain(h, p)[..h[p].depth]
      && FindsEnabled(env, req.service)
      && (var user, rs := h[Root(h, p)].kind.authentication, env.find(req.service).value;
          var id := ReleasedId(env, user.principal, rs, t.kind.service);
          id.Some? && a.chain[h[p].depth] == Disclosed(user, rs, id.value))
      && (|a.chain| == 1 <==> h[p].parent == None)
      && a.service == t.kind.service && env.matches(req.service, t.kind.service)
      && a.fromNewLogin == t.kind.fromNewLogin
  {
    var h, t := st.heap, st.heap[req.st];
    assert Rooted(h, req.st);
    var p := t.parent.value;
    var used := t.Touched(env.now);
    var k := h[req.st := used];
    UpdateKeeps(cfg, h, req.st, used);
    UnchangedEvolves(h, env.now);
    assert Advances(h, env.now, req.st, used);
    assert Evolves(h, k, env.now);
    EvolvesChain(h, k, env.now, p);
    ChainShape(h, p);
  }

  // ---- New logins ----------------------------------------------------------------------

  /** Use count, services map and service tickets of a granting ticket agree in every reachable state. */
  lemma GrantsAreCounted(r: Run, k: nat, tgt: TicketId)
    requires r.Valid() && k <= |r.calls| && tgt in r.states[k].heap && r.states[k].heap[tgt].kind.Granting?
    ensures var h := r.states[k].heap;
      && h[tgt].usage.uses == |GrantedBy(h, tgt)|
      && h[tgt].kind.services.Keys == GrantedBy(h, tgt)
      && forall id :: id in GrantedBy(h, tgt) ==> h[tgt].kind.services[id] == h[id].kind.service
  {
    Reachable(r, k);
    assert Accounted(r.states[k].heap, tgt);
  }

  /**
   * A service ticket is from a new login exactly when credentials came with the request or
   * its granting ticket had granted nothing before; so it always is for a service without SSO.
   */
  lemma NewLoginIffFirst(r: Run, k: nat, id: TicketId) returns (i: nat)
    requires r.Valid() && k <= |r.calls| && id in r.states[k].heap && r.states[k].heap[id].kind.OneService?
    ensures i < k && r.calls[i].req.Grant? && r.calls[i].req.newId == id && r.answers[i] == Issued(id)
    ensures var t, req, env := r.states[k].heap[id], r.calls[i].req, r.calls[i].env;
      && t.parent == Some(req.tgt) && t.kind.service == req.service
      && (t.kind.fromNewLogin <==> req.optional.Some? || GrantedBy(r.states[i].heap, req.tgt) == {})
      && FindsEnabled(env, req.service)
      && (!env.find(req.service).value.ssoEnabled ==> t.kind.fromNewLogin)
  {
    i := Origin(r, k, id);
    if r.calls[i].req.Grant? {
      GrantsAreCounted(r, i, r.calls[i].req.tgt);
    }
  }

  // ---- Proxy authorization -----------------------------------------------------------------

  /** Every proxy-granting ticket came from a service ticket of its parent, for a service that might proxy then. */
  lemma ProxyGrantingOrigin(r: Run, k: nat, id: TicketId) returns (i: nat)
    requires r.Valid() && k <= |r.calls| && id in r.states[k].heap
    requires r.states[k].heap[id].kind.Granting? && r.states[k].heap[id].parent.Some?
    ensures i < k && r.calls[i].req.Delegate? && r.answers[i] == Issued(id)
    ensures var st := r.calls[i].req.st;
      && st in r.states[i].heap && r.states[i].heap[st].kind.OneService?
      && r.states[k].heap[id].parent == r.states[i].heap[st].parent
      && MayProxy(r.calls[i].env, r.states[i].heap[st].kind.service)
  {
    i := Origin(r, k, id);
  }

  /** A service ticket yields at most one proxy-granting ticket. */
  lemma DelegatesOnce(r: Run, i: nat, j: nat)
    requires r.Valid() && i < j < |r.calls|
    requires r.calls[i].req.Delegate? && r.calls[j].req.Delegate? && r.calls[i].req.st == r.calls[j].req.st
    requires r.answers[i].Issued?
    ensures !r.answers[j].Issued?
  {
    var st := r.calls[i].req.st;
    assert r.Happens(i) && r.Happens(j);
    Reachable(r, i);
    Reachable(r, j);
    if r.answers[j].Issued? {
      TicketsPersist(r, i + 1, j, st);
    }
  }

  /** A service ticket below a proxy-granting ticket was granted to a service that might proxy then. */
  lemma ProxyTicketsAreAuthorized(r: Run, k: nat, id: TicketId) returns (i: nat)
    requires r.Valid() && k <= |r.calls| && id in r.states[k].heap && r.states[k].heap[id].kind.OneService?
    requires r.states[k].heap[id].depth > 1
    ensures i < k && r.calls[i].req.Grant? && r.answers[i] == Issued(id)
    ensures r.calls[i].req.service == r.states[k].heap[id].kind.service
    ensures MayProxy(r.calls[i].env, r.states[k].heap[id].kind.service)
  {
    i := Origin(r, k, id);
    Reachable(r, k);
    Reachable(r, i);
    var tgt := r.calls[i].req.tgt;
    TicketsPersist(r, i, k, tgt);
    assert Rooted(r.states[k].heap, id);
    ChainShape(r.states[i].heap, tgt);
  }

  // ---- Single logout -------------------------------------------------------------------------

  /** No service object is sent more than one logout message, in any run. */
  lemma AtMostOneLogoutMessage(r: Run, k: nat, s: WebApplicationService)
    requires r.Valid() && k <= |r.calls|
    ensures r.states[k].sent[s] == if s in r.states[k].loggedOut && s.hasHttpClient then 1 else 0
  {
    Reachable(r, k);
    if s in r.states[k].sent {
      assert r.states[k].sent[s] == 1;
    }
  }

  lemma {:induction false} LogoutsPersist(r: Run, i: nat, j: nat)
    requires r.Valid() && i <= j <= |r.calls|
    ensures r.states[i].loggedOut <= r.states[j].loggedOut
    decreases j
  {
    if i < j {
      LogoutsPersist(r, i, j - 1);
      assert r.Happens(j - 1);
    }
  }

  /** Destroying a stored granting ticket logs out, for good, the service of every ticket it granted. */
  lemma DestroyLogsOut(r: Run, i: nat, j: nat, tgt: TicketId, id: TicketId)
    requires r.Valid() && i < j <= |r.calls|
    requires r.calls[i].req == Destroy(tgt) && Find(r.cfg, r.states[i], tgt, true).Found?
    requires id in GrantedBy(r.states[i].heap, tgt)
    ensures var s := r.states[i].heap[id].kind.service;
      s in r.states[j].loggedOut && r.states[j].sent[s] == if s.hasHttpClient then 1 else 0
  {
    var s := r.states[i].heap[id].kind.service;
    GrantsAreCounted(r, i, tgt);
    assert s == r.states[i].heap[tgt].kind.services[id];
    assert r.Happens(i);
    LogoutsPersist(r, i + 1, j);
    AtMostOneLogoutMessage(r, j, s);
  }
}
