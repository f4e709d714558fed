/** What a service learns from a validation, and the validation request that a browserless service sends. */
module Validation {
  import opened Domain
  import opened Expiration
  import opened Tickets
  import opened Protocol
  import opened Steps
  import opened Runs
  import opened Provenance
  import opened Answers

  // ---- Attribute release ---------------------------------------------------------------

  /** The login at the root of a granting ticket. */
  function LoginOf(h: Heap, tgt: TicketId): Authentication
    requires Root(h, tgt) in h && h[Root(h, tgt)].kind.Granting?
  {
    h[Root(h, tgt)].kind.authentication
  }

  /** Attributes that the service may see and the user has, null values aside. */
  predicate Visible(user: Principal, rs: RegisteredService, name: string) {
    name in user.attributes
    && (rs.ignoreAttributes || (name in rs.allowedAttributes && user.attributes[name] != NullValue))
  }

  /**
   * A validated assertion shows the service exactly its visible attributes of the root
   * user, and a user name that comes from an attribute only if that attribute is visible.
   */
  lemma AttributeRelease(cfg: Config, env: Env, st: State, req: Request)
    requires Inv(cfg, st) && req.Validate? && Step(cfg, env, st, req).outcome.Asserted?
    ensures req.st in st.heap && st.heap[req.st].parent.Some? && env.find(req.service).Some?
    ensures var p := st.heap[req.st].parent.value;
      Root(st.heap, p) in st.heap && st.heap[Root(st.heap, p)].kind.Granting?
    ensures var a := Step(cfg, env, st, req).outcome.assertion;
      var login, rs := LoginOf(st.heap, st.heap[req.st].parent.value), env.find(req.service).value;
      |a.chain| > 0 &&
      var last := a.chain[|a.chain| - 1];
      var user, seen := login.principal, last.principal;
      && last.date == login.date && last.attributes == (if rs.ignoreAttributes then map[] else login.attributes)
      && (forall name :: name in seen.attributes <==> Visible(user, rs, name))
      && (forall name :: name in seen.attributes ==> seen.attributes[name] == user.attributes[name])
      && NamedFor(env, user, rs, st.heap[req.st].kind.service, seen.id)
  {
    AssertedChain(cfg, env, st, req);
    var login, rs := LoginOf(st.heap, st.heap[req.st].parent.value), env.find(req.service).value;
    ReleasedIdIs(env, login.principal, rs, st.heap[req.st].kind.service);
  }

  /** Disclosure works on a copy: no stored authentication changes. */
  lemma AuthenticationsAreKept(cfg: Config, env: Env, st: State, req: Request, id: TicketId)
    requires Inv(cfg, st) && Admissible(st.heap, req) && id in st.heap && st.heap[id].kind.Granting?
    ensures var next := Step(cfg, env, st, req).state.heap;
      id in next && next[id].kind.Granting? && next[id].kind.authentication == st.heap[id].kind.authentication
  {
    StepKeeps(cfg, env, st, req);
    assert Advances(st.heap, env.now, id, Step(cfg, env, st, req).state.heap[id]);
  }

  // ---- Validation specifications ----------------------------------------------------------

  datatype Specification =
    | Cas10(renew: bool)
    | Cas20(renew: bool)
    | Cas20WithoutProxying(renew: bool)
  {
    predicate SatisfiedBy(a: Assertion) {
      && (Cas20? || |a.chain| == 1)
      && (!renew || a.fromNewLogin)
    }
  }

  /** A ticket granted to a service without SSO satisfies every later check that asks for a new login. */
  lemma WithoutSsoAlwaysRenewed(r: Run, k: nat, grant: nat)
    requires r.Valid() && grant < k < |r.calls|
    requires r.calls[grant].req.Grant? && r.answers[grant].Issued?
    requires FindsEnabled(r.calls[grant].env, r.calls[grant].req.service)
      && !r.calls[grant].env.find(r.calls[grant].req.service).value.ssoEnabled
    requires r.calls[k].req.Validate? && r.calls[k].req.st == r.answers[grant].id && r.answers[k].Asserted?
    ensures r.answers[k].assertion.fromNewLogin
  {
    var id := r.answers[grant].id;
    assert r.Happens(grant) && r.Happens(k);
    TicketsPersist(r, grant + 1, k, id);
    var i := NewLoginIffFirst(r, k, id);
    if i < grant {
      assert Follows(r.calls[i], r.calls[grant]);
    } else if grant < i {
      assert Follows(r.calls[grant], r.calls[i]);
    }
    Reachable(r, k);
    AssertedChain(r.cfg, r.calls[k].env, r.states[k], r.calls[k].req);
  }

  // ---- The validation request ---------------------------------------------------------------

  /** What the validation controller shows, and what it lets escape. */
  datatype View =
    | Success(assertion: Assertion, pgt: Option<TicketId>)
    | Failure(error: Error)
    | FailureSpec
    | InvalidRequest
    | Escapes(error: Error)

  predicate IsTicketException(e: Error) {
    e.InvalidTicket? || e.WrongService? || e.TicketCreation?
  }

  predicate IsUnauthorizedService(e: Error) {
    e.UnauthorizedService? || e.UnauthorizedSso? || e.UnauthorizedProxying?
  }

  /** A failed delegation is only logged if it is a ticket exception; any other one ends the request. */
  function AfterDelegation(outcome: Outcome): Option<View> {
    match outcome
    case Failed(e) =>
      if IsTicketException(e) then None
      else if IsUnauthorizedService(e) then Some(Failure(e))
      else Some(Escapes(e))
    case _ => None
  }

  function AfterValidation(outcome: Outcome, spec: Specification, pgt: Option<TicketId>): View {
    match outcome
    case Asserted(a) => if spec.SatisfiedBy(a) then Success(a, pgt) else FailureSpec
    case Failed(e) => if IsTicketException(e) || IsUnauthorizedService(e) then Failure(e) else Escapes(e)
    case _ => FailureSpec
  }

  datatype Response = Response(state: State, view: View)

  /** Delegate first if a callback URL came along, then validate, then check the specification. */
  function HandleRequest(cfg: Config, first: Env, second: Env, st: State, id: TicketId, service: WebApplicationService,
                         callback: Option<Credentials>, newId: TicketId, spec: Specification): Response {
    if callback.None? then
      var reply := Step(cfg, second, st, Validate(id, service));
      Response(reply.state, AfterValidation(reply.outcome, spec, None))
    else
      var delegated := Step(cfg, first, st, Delegate(id, callback.value, newId));
      match AfterDelegation(delegated.outcome)
      case Some(view) => Response(delegated.state, view)
      case None =>
        var reply := Step(cfg, second, delegated.state, Validate(id, service));
        var pgt := if delegated.outcome.Issued? then Some(delegated.outcome.id) else None;
        Response(reply.state, AfterValidation(reply.outcome, spec, pgt))
  }

  // ---- Which view comes out --------------------------------------------------------------------

  /** The state that the validation finds. */
  function AfterCallback(cfg: Config, env: Env, st: State, id: TicketId, callback: Option<Credentials>, newId: TicketId): State {
    if callback.None? then st else Step(cfg, env, st, Delegate(id, callback.value, newId)).state
  }

  /** The delegation failed, and not because of a ticket. */
  predicate CallbackEnds(cfg: Config, env: Env, st: State, id: TicketId, callback: Option<Credentials>, newId: TicketId) {
    callback.Some? &&
    match Step(cfg, env, st, Delegate(id, callback.value, newId)).outcome
    case Failed(e) => !(e.InvalidTicket? || e.WrongService? || e.TicketCreation?)
    case _ => false
  }

  predicate CallbackServed(cfg: Config, env: Env, st: State, id: TicketId, callback: Option<Credentials>, newId: TicketId) {
    callback.Some? && Step(cfg, env, st, Delegate(id, callback.value, newId)).outcome == Issued(newId)
  }

  /**
   * Success exactly if no callback ended the request, the validation answered an assertion, its chain has
   * length one unless proxies are welcome, and it is from a new login where that was asked for. The
   * proxy-granting ticket is handed over exactly if the delegation issued it. The state is that of the
   * delegation if it ended the request, and that of the validation after it otherwise.
   */
  lemma SuccessIff(cfg: Config, first: Env, second: Env, st: State, id: TicketId, service: WebApplicationService,
                   callback: Option<Credentials>, newId: TicketId, spec: Specification)
    ensures var view := HandleRequest(cfg, first, second, st, id, service, callback, newId, spec).view;
      var answer := Step(cfg, second, AfterCallback(cfg, first, st, id, callback, newId), Validate(id, service)).outcome;
      && (view.Success? <==>
            && !CallbackEnds(cfg, first, st, id, callback, newId) && answer.Asserted?
            && (|answer.assertion.chain| == 1 || spec.Cas20?)
            && (spec.renew ==> answer.assertion.fromNewLogin))
      && (view == FailureSpec <==>
            && !CallbackEnds(cfg, first, st, id, callback, newId) && answer.Asserted?
            && ((|answer.assertion.chain| != 1 && !spec.Cas20?) || (spec.renew && !answer.assertion.fromNewLogin)))
      && (view.Success? ==>
            && view.assertion == answer.assertion
            && view.pgt == if CallbackServed(cfg, first, st, id, callback, newId) then Some(newId) else None)
    ensures var next := AfterCallback(cfg, first, st, id, callback, newId);
      HandleRequest(cfg, first, second, st, id, service, callback, newId, spec).state
      == if CallbackEnds(cfg, first, st, id, callback, newId) then next else Step(cfg, second, next, Validate(id, service)).state
  {
  }

  /** What else can be seen: a failure view names the error, and the other errors escape. */
  lemma FailureIff(cfg: Config, first: Env, second: Env, st: State, id: TicketId, service: WebApplicationService,
                   callback: Option<Credentials>, newId: TicketId, spec: Specification, e: Error)
    ensures var view := HandleRequest(cfg, first, second, st, id, service, callback, newId, spec).view;
      var ends := CallbackEnds(cfg, first, st, id, callback, newId);
      var failed :=
        if ends then Step(cfg, first, st, Delegate(id, callback.value, newId)).outcome == Failed(e)
        else Step(cfg, second, AfterCallback(cfg, first, st, id, callback, newId), Validate(id, service)).outcome == Failed(e);
      && (view == Failure(e) <==> failed && !e.AlreadyGranted? && !e.ClassCast? && !e.NullPointer?)
      && (view == Escapes(e) <==> failed && (e.AlreadyGranted? || e.ClassCast? || e.NullPointer?))
  {
  }

  lemma DelegationLeavesTicket(cfg: Config, env: Env, st: State, id: TicketId, credentials: Credentials, newId: TicketId)
    requires Inv(cfg, st) && newId !in st.heap && IsTgtId(newId)
    ensures var next := Step(cfg, env, st, Delegate(id, credentials, newId)).state;
      && Inv(cfg, next) && Evolves(st.heap, next.heap, env.now)
      && (Step(cfg, env, st, Delegate(id, credentials, newId)).outcome.Issued? ==>
            && id in st.heap && st.heap[id].parent.Some?
            && newId in next.registry && newId in next.heap && newId != id
            && next.heap[newId].parent == st.heap[id].parent && next.heap[newId].kind.Granting?
            && MayProxy(env, st.heap[id].kind.service))
  {
    StepKeeps(cfg, env, st, Delegate(id, credentials, newId));
    if id in st.heap {
      assert Rooted(st.heap, id);
    }
  }

  /**
   * Section 2.4 of the CAS protocol: a success view under the version 1 rules means that the
   * ticket came straight from a login, and under `renew` that it came from a new one.
   */
  lemma SuccessMeansRoot(cfg: Config, first: Env, second: Env, st: State, id: TicketId, service: WebApplicationService,
                         callback: Option<Credentials>, newId: TicketId, spec: Specification)
    requires Inv(cfg, st) && newId !in st.heap && IsTgtId(newId)
    requires HandleRequest(cfg, first, second, st, id, service, callback, newId, spec).view.Success?
    ensures id in st.heap && st.heap[id].kind.OneService? && st.heap[id].parent.Some?
    ensures var h, p := st.heap, st.heap[id].parent.value;
      && p in h
      && (spec.Cas10? || spec.Cas20WithoutProxying? ==> h[p].parent == None)
      && (spec.renew ==> h[id].kind.fromNewLogin)
  {
    var req := Validate(id, service);
    if callback.None? {
      AssertedChain(cfg, second, st, req);
    } else {
      DelegationLeavesTicket(cfg, first, st, id, callback.value, newId);
      var next := Step(cfg, first, st, Delegate(id, callback.value, newId)).state;
      AssertedChain(cfg, second, next, req);
      DelegationOnlyAdds(cfg, first, st, id, callback.value, newId);
    }
  }

  /** A delegation makes no service ticket, so one that validates after it was there before, with the same parent. */
  lemma DelegationOnlyAdds(cfg: Config, env: Env, st: State, id: TicketId, credentials: Credentials, newId: TicketId)
    requires Inv(cfg, st) && newId !in st.heap && IsTgtId(newId)
    ensures var h, k := st.heap, Step(cfg, env, st, Delegate(id, credentials, newId)).state.heap;
      id in k && k[id].kind.OneService? ==>
        && id in h && h[id].kind.OneService? && h[id].parent == k[id].parent && h[id].parent.Some?
        && h[id].kind.fromNewLogin == k[id].kind.fromNewLogin
        && h[id].parent.value in h && h[id].parent.value in k
        && h[h[id].parent.value].parent == k[h[id].parent.value].parent
  {
    DelegationLeavesTicket(cfg, env, st, id, credentials, newId);
    var h, k := st.heap, Step(cfg, env, st, Delegate(id, credentials, newId)).state.heap;
    if id in h && k[id].kind.OneService? {
      assert Advances(h, env.now, id, k[id]);
      assert Rooted(h, id);
      assert Advances(h, env.now, h[id].parent.value, k[h[id].parent.value]);
    }
  }

  /** A proxy-granting ticket handed over with a success view hangs below the ticket that granted the validated one. */
  lemma SuccessHandsOverSibling(cfg: Config, first: Env, second: Env, st: State, id: TicketId, service: WebApplicationService,
                                callback: Option<Credentials>, newId: TicketId, spec: Specification)
    requires Inv(cfg, st) && newId !in st.heap && IsTgtId(newId)
    ensures var response := HandleRequest(cfg, first, second, st, id, service, callback, newId, spec);
      response.view.Success? && response.view.pgt.Some? ==>
        && response.view.pgt == Some(newId) && newId in response.state.registry && newId in response.state.heap
        && id in st.heap && st.heap[id].kind.OneService? && response.state.heap[newId].kind.Granting?
        && response.state.heap[newId].parent == st.heap[id].parent
        && MayProxy(first, st.heap[id].kind.service)
  {
    if callback.Some? {
      DelegationLeavesTicket(cfg, first, st, id, callback.value, newId);
      var delegated := Step(cfg, first, st, Delegate(id, callback.value, newId));
      if delegated.outcome.Issued? {
        IssuedTicketSurvives(cfg, second, delegated.state, id, service, newId);
      }
    }
  }

  lemma IssuedTicketSurvives(cfg: Config, env: Env, st: State, id: TicketId, service: WebApplicationService, newId: TicketId)
    requires Inv(cfg, st) && newId in st.registry && newId in st.heap && st.heap[newId].kind.Granting?
    ensures var next := Step(cfg, env, st, Validate(id, service)).state;
      newId in next.registry && newId in next.heap && next.heap[newId] == st.heap[newId]
  {
  }

  /**
   * Delegation comes before validation: the proxy-granting ticket is issued and stays in the
   * registry whatever becomes of the validation, even if the view reports a failure.
   */
  lemma DelegationOutlivesFailure(cfg: Config, first: Env, second: Env, st: State, id: TicketId, service: WebApplicationService,
                                  callback: Credentials, newId: TicketId, spec: Specification)
    requires Inv(cfg, st) && newId !in st.heap && IsTgtId(newId)
    ensures var response := HandleRequest(cfg, first, second, st, id, service, Some(callback), newId, spec);
      newId in response.state.registry <==> Step(cfg, first, st, Delegate(id, callback, newId)).outcome.Issued?
  {
    DelegationLeavesTicket(cfg, first, st, id, callback, newId);
    var delegated := Step(cfg, first, st, Delegate(id, callback, newId));
    if delegated.outcome.Issued? {
      IssuedTicketSurvives(cfg, second, delegated.state, id, service, newId);
    }
  }

  /** A delegation that issued, then a validation by a service that is not registered: the ticket stays, the view fails. */
  lemma FailureKeepsProxyTicket(cfg: Config, first: Env, second: Env, st: State, id: TicketId, service: WebApplicationService,
                                callback: Credentials, newId: TicketId, spec: Specification)
    requires Inv(cfg, st) && newId !in st.heap && IsTgtId(newId) && !FindsEnabled(second, service)
    requires Step(cfg, first, st, Delegate(id, callback, newId)).outcome.Issued?
    ensures var response := HandleRequest(cfg, first, second, st, id, service, Some(callback), newId, spec);
      response.view == Failure(UnauthorizedService) && newId in response.state.registry
  {
    DelegationOutlivesFailure(cfg, first, second, st, id, service, callback, newId, spec);
    DelegationLeavesTicket(cfg, first, st, id, callback, newId);
    var next := Step(cfg, first, st, Delegate(id, callback, newId)).state;
    assert Advances(st.heap, first.now, id, next.heap[id]);
    StoredIffRegistered(cfg, next, id);
  }

  // ---- When an attempt uses the ticket up -----------------------------------------------------

  predicate OneUse(cfg: Config) {
    cfg.stPolicy.MultiUseOrTimeout? && cfg.stPolicy.maxUses == 1
  }

  /**
   * Section 3.1.1 of the CAS protocol wants every attempt to use the ticket up. Under the
   * one-use policy an attempt does exactly if the calling service is registered and enabled.
   */
  lemma AttemptSpendsIff(cfg: Config, env: Env, st: State, id: TicketId, service: WebApplicationService)
    requires Inv(cfg, st) && OneUse(cfg) && Find(cfg, st, id, false).Found?
    ensures var next := Step(cfg, env, st, Validate(id, service)).state;
      (id !in next.registry <==> FindsEnabled(env, service)) && (!FindsEnabled(env, service) ==> next == st)
  {
    if FindsEnabled(env, service) && !Expired(st.heap, id, env.now) {
      UseKeeps(cfg, st, id, env.now);
      var used := st.(heap := st.heap[id := st.heap[id].Touched(env.now)]);
      assert used.heap[id].ExpiredAlone(env.now);
      StoredIffRegistered(cfg, used, id);
    }
  }

  /** The same for whole runs: an attempt that uses the ticket up does so for good, any other changes nothing. */
  lemma AttemptSpendsForGood(r: Run, i: nat, id: TicketId, service: WebApplicationService)
    requires r.Valid() && OneUse(r.cfg) && i < |r.calls|
    requires r.calls[i].req == Validate(id, service) && Find(r.cfg, r.states[i], id, false).Found?
    ensures FindsEnabled(r.calls[i].env, service) ==> forall j :: i < j <= |r.calls| ==> id !in r.states[j].registry
    ensures !FindsEnabled(r.calls[i].env, service) ==> r.states[i + 1] == r.states[i]
  {
    Reachable(r, i);
    assert r.Happens(i);
    AttemptSpendsIff(r.cfg, r.calls[i].env, r.states[i], id, service);
    if FindsEnabled(r.calls[i].env, service) {
      TicketsPersist(r, i, i + 1, id);
      forall j | i < j <= |r.calls| ensures id !in r.states[j].registry {
        GoneForGood(r, i + 1, j, id);
      }
    }
  }

  lemma OnlyNewIdsAreStored(cfg: Config, env: Env, st: State, req: Request)
    ensures Step(cfg, env, st, req).state.registry <= st.registry + (if NewId(req).Some? then {NewId(req).value} else {})
  {
  }

  /** A ticket that left the registry never comes back. */
  lemma {:induction false} GoneForGood(r: Run, i: nat, j: nat, id: TicketId)
    requires r.Valid() && i <= j <= |r.calls| && id in r.states[i].heap && id !in r.states[i].registry
    ensures id !in r.states[j].registry
    decreases j
  {
    if i < j {
      GoneForGood(r, i, j - 1, id);
      TicketsPersist(r, i, j - 1, id);
      Reachable(r, j - 1);
      assert r.Happens(j - 1);
      OnlyNewIdsAreStored(r.cfg, r.calls[j - 1].env, r.states[j - 1], r.calls[j - 1].req);
    }
  }

  /** A delegation on a live ticket that its service may not ask for, or that was granted before. */
  predicate EndsRequest(env: Env, st: State, id: TicketId, callback: Credentials)
    requires id in st.heap && st.heap[id].kind.OneService?
  {
    var found := env.find(st.heap[id].kind.service);
    && env.authenticate(callback).Some? && !Expired(st.heap, id, env.now)
    && (found.None? || !found.value.enabled || !found.value.allowedToProxy || st.heap[id].kind.grantedAlready)
  }

  /** A request with a callback that the service may not ask for ends before the validation. */
  lemma UnauthorizedCallbackSparesTicket(cfg: Config, first: Env, second: Env, st: State, id: TicketId,
                                         service: WebApplicationService, callback: Credentials, newId: TicketId,
                                         spec: Specification)
    requires Inv(cfg, st) && Find(cfg, st, id, false).Found? && !Expired(st.heap, id, first.now)
    requires first.authenticate(callback).Some? && !MayProxy(first, st.heap[id].kind.service)
    ensures HandleRequest(cfg, first, second, st, id, service, Some(callback), newId, spec)
      == Response(st, Failure(UnauthorizedProxying))
  {
  }

  /**
   * Under the one-use policy a request uses the ticket up exactly if the calling service is
   * registered and enabled, and no callback came along that ends the request.
   */
  lemma RequestSpendsIff(cfg: Config, first: Env, second: Env, st: State, id: TicketId, service: WebApplicationService,
                         callback: Option<Credentials>, newId: TicketId, spec: Specification)
    requires Inv(cfg, st) && OneUse(cfg) && Find(cfg, st, id, false).Found? && newId !in st.heap && IsTgtId(newId)
    ensures id !in HandleRequest(cfg, first, second, st, id, service, callback, newId, spec).state.registry
      <==> FindsEnabled(second, service) && (callback.None? || !EndsRequest(first, st, id, callback.value))
  {
    if callback.None? {
      AttemptSpendsIff(cfg, second, st, id, service);
    } else {
      if !EndsRequest(first, st, id, callback.value) {
        DelegationKeepsTicket(cfg, first, st, id, callback.value, newId);
        var next := Step(cfg, first, st, Delegate(id, callback.value, newId)).state;
        AttemptSpendsIff(cfg, second, next, id, service);
      }
    }
  }

  /** A delegation leaves the service ticket where it was found. */
  lemma DelegationKeepsTicket(cfg: Config, env: Env, st: State, id: TicketId, callback: Credentials, newId: TicketId)
    requires Inv(cfg, st) && Find(cfg, st, id, false).Found? && newId !in st.heap && IsTgtId(newId)
    ensures var next := Step(cfg, env, st, Delegate(id, callback, newId)).state;
      Inv(cfg, next) && Find(cfg, next, id, false).Found?
  {
    DelegationLeavesTicket(cfg, env, st, id, callback, newId);
    var next := Step(cfg, env, st, Delegate(id, callback, newId)).state;
    assert Advances(st.heap, env.now, id, next.heap[id]);
    StoredIffRegistered(cfg, next, id);
  }

  // ---- Exactly the requests that succeed --------------------------------------------------------

  /** The delegation that a callback asks for is served. */
  predicate ServesCallback(env: Env, st: State, id: TicketId, callback: Credentials)
    requires id in st.heap && st.heap[id].kind.OneService?
  {
    env.authenticate(callback).Some? && !Expired(st.heap, id, env.now) && !EndsRequest(env, st, id, callback)
  }

  lemma {:induction false} SameAloneSameExpiry(h: Heap, k: Heap, id: TicketId, now: int)
    requires Forest(h) && id in h && h.Keys <= k.Keys
    requires forall x :: x in h ==> k[x].parent == h[x].parent && k[x].depth == h[x].depth
    requires forall x :: x in h ==> k[x].ExpiredAlone(now) == h[x].ExpiredAlone(now)
    ensures Expired(k, id, now) == Expired(h, id, now) && Root(k, id) == Root(h, id)
    decreases DepthOf(h, id)
  {
    ForestLinks(h, id);
    assert Rooted(h, id);
    if Up(h, id).Some? {
      SameAloneSameExpiry(h, k, Up(h, id).value, now);
    }
  }

  /** What the validation finds after a callback that did not end the request. */
  lemma CallbackKeeps(cfg: Config, env: Env, st: State, id: TicketId, callback: Credentials, newId: TicketId, now: int)
    requires Inv(cfg, st) && newId !in st.heap && IsTgtId(newId) && Holds(st, id, false)
    ensures var reply := Step(cfg, env, st, Delegate(id, callback, newId));
      var next := reply.state;
      && (reply.outcome == Issued(newId) <==> ServesCallback(env, st, id, callback))
      && Inv(cfg, next) && Holds(next, id, false)
      && next.heap[id].depth == st.heap[id].depth && next.heap[id].kind.service == st.heap[id].kind.service
      && next.heap[id].kind.fromNewLogin == st.heap[id].kind.fromNewLogin
      && Expired(next.heap, id, now) == Expired(st.heap, id, now)
      && SessionLogin(next.heap, id) == SessionLogin(st.heap, id)
  {
    var next := Step(cfg, env, st, Delegate(id, callback, newId)).state;
    DelegateAnswer(cfg, env, st, id, callback, newId);
    DelegationLeavesTicket(cfg, env, st, id, callback, newId);
    SameAloneSameExpiry(st.heap, next.heap, id, now);
    RootIsAbove(st.heap, id);
  }

  /**
   * A request succeeds exactly if no callback ends it, the ticket is stored and live, the calling
   * service is enabled and the one it was granted to, the user name is not null, and the ticket is
   * straight from a login or from a new one where that is asked for.
   */
  lemma RequestSucceedsIff(cfg: Config, first: Env, second: Env, st: State, id: TicketId, service: WebApplicationService,
                           callback: Option<Credentials>, newId: TicketId, spec: Specification)
    requires Inv(cfg, st) && newId !in st.heap && IsTgtId(newId)
    ensures var view := HandleRequest(cfg, first, second, st, id, service, callback, newId, spec).view;
      && (view.Success? <==>
            && Holds(st, id, false) && SessionLogin(st.heap, id).Some?
            && (var t, found, user := st.heap[id], second.find(service), SessionLogin(st.heap, id).value.principal;
                && (callback.None? || !EndsRequest(first, st, id, callback.value))
                && !Expired(st.heap, id, second.now) && found.Some? && found.value.enabled
                && second.matches(service, t.kind.service) && !NameIsNull(user, found.value)
                && (t.depth == 1 || spec.Cas20?) && (spec.renew ==> t.kind.fromNewLogin)))
      && (view.Success? ==>
            view.pgt == if callback.Some? && ServesCallback(first, st, id, callback.value) then Some(newId) else None)
  {
    var next := AfterCallback(cfg, first, st, id, callback, newId);
    var answer := Step(cfg, second, next, Validate(id, service)).outcome;
    SuccessIff(cfg, first, second, st, id, service, callback, newId, spec);
    if callback.Some? {
      DelegationLeavesTicket(cfg, first, st, id, callback.value, newId);
      DelegateAnswer(cfg, first, st, id, callback.value, newId);
    }
    ValidateAssertsIff(cfg, second, next, id, service);
    if Holds(st, id, false) {
      if callback.Some? {
        CallbackKeeps(cfg, first, st, id, callback.value, newId, second.now);
      }
      RootIsAbove(st.heap, id);
      if answer.Asserted? {
        LiveValidateAnswer(cfg, second, next, id, service);
      }
    }
  }
}
