/** The answer to every call, and all that it changes, told by the tickets, the request and the outside alone. */
module Answers {
  import opened Domain
  import opened Expiration
  import opened Tickets
  import opened Protocol
  import opened Steps
  import opened Provenance

  // ---- What the answers depend on --------------------------------------------------------

  /** A stored ticket of that kind. */
  predicate Holds(st: State, id: TicketId, granting: bool) {
    id in st.registry && id in st.heap && st.heap[id].kind.Granting? == granting
  }

  /** The credentials belong to the user of the given login, and authenticate in the same way. */
  ghost predicate Vouched(env: Env, credentials: Credentials, login: Authentication) {
    exists a :: env.authenticate(credentials) == Some(a)
                && a.principal.id == login.principal.id && a.attributes == login.attributes
  }

  /** Nothing has changed but the registry, which lost that ticket, or that ticket and what hangs below it. */
  ghost predicate Dropped(cfg: Config, st: State, next: State, id: TicketId) {
    && next.heap == st.heap && next.loggedOut == st.loggedOut && next.sent == st.sent
    && forall x :: x in next.registry <==>
         x in st.registry && x != id && (cfg.mode.Cascade? ==> !Under(st.heap, id, x))
  }

  /** The state has one more stored ticket, and otherwise differs at `changed` only. */
  ghost predicate Adds(st: State, next: State, changed: TicketId, newId: TicketId) {
    && next.loggedOut == st.loggedOut && next.sent == st.sent
    && next.registry == st.registry + {newId} && next.heap.Keys == st.heap.Keys + {newId}
    && forall id :: id in st.heap && id != changed && id != newId ==> next.heap[id] == st.heap[id]
  }

  lemma FindIs(cfg: Config, st: State, id: TicketId, granting: bool)
    requires Inv(cfg, st)
    ensures Find(cfg, st, id, granting).Found? <==> Holds(st, id, granting)
    ensures Find(cfg, st, id, granting).Missing? <==> id !in st.registry
  {
  }

  lemma DeleteDrops(cfg: Config, st: State, id: TicketId)
    requires Inv(cfg, st) && id in st.registry
    ensures Dropped(cfg, st, Delete(cfg, st, id), id)
  {
    if st.heap[id].kind.OneService? {
      forall x | x in st.registry && Under(st.heap, id, x) ensures x == id {
        ServiceIsLeaf(st.heap, id, x);
      }
    }
  }

  // ---- Logging in --------------------------------------------------------------------------

  /** A login makes a root with the user's authentication, and fails only if the credentials do. */
  lemma CreateAnswer(cfg: Config, env: Env, st: State, credentials: Credentials, newId: TicketId)
    requires newId !in st.heap
    ensures var reply := Step(cfg, env, st, Create(credentials, newId));
      match env.authenticate(credentials)
      case None => reply.outcome == Failed(TicketCreation) && reply.state == st
      case Some(a) =>
        && reply.outcome == Issued(newId) && Adds(st, reply.state, newId, newId)
        && reply.state.heap[newId] ==
             Ticket(cfg.tgtPolicy, None, 0, env.now, Usage(env.now, 0, 0), Granting(a, false, map[]))
  {
  }

  // ---- Granting ------------------------------------------------------------------------------

  lemma ConfirmedIffVouched(env: Env, credentials: Credentials, login: Authentication)
    ensures Confirmed(env, credentials, login) <==> Vouched(env, credentials, login)
  {
    if Confirmed(env, credentials, login) {
      var a := env.authenticate(credentials).value;
      assert env.authenticate(credentials) == Some(a);
    }
  }

  /** What a live granting ticket answers: the first check that fails decides. */
  lemma LiveGrantAnswer(cfg: Config, env: Env, st: State, tgt: TicketId, service: WebApplicationService,
                        credentials: Option<Credentials>, newId: TicketId)
    requires Inv(cfg, st) && Holds(st, tgt, true) && !Expired(st.heap, tgt, env.now)
    ensures var answer := Step(cfg, env, st, Grant(tgt, service, credentials, newId)).outcome;
      var found, t := env.find(service), st.heap[tgt];
      if found.None? || !found.value.enabled then answer == Failed(UnauthorizedService)
      else if !found.value.ssoEnabled && credentials.None? && GrantedBy(st.heap, tgt) != {}
      then answer == Failed(UnauthorizedSso)
      else if t.parent.Some? && !found.value.allowedToProxy then answer == Failed(UnauthorizedProxying)
      else if credentials.Some? && !Vouched(env, credentials.value, t.kind.authentication)
      then answer == Failed(TicketCreation)
      else answer == Issued(newId)
  {
    FindIs(cfg, st, tgt, true);
    ChainShape(st.heap, tgt);
    assert Accounted(st.heap, tgt);
    if credentials.Some? {
      ConfirmedIffVouched(env, credentials.value, st.heap[tgt].kind.authentication);
    }
  }

  /** Exactly when a grant issues a ticket. */
  lemma GrantIssuesIff(cfg: Config, env: Env, st: State, tgt: TicketId, service: WebApplicationService,
                       credentials: Option<Credentials>, newId: TicketId)
    requires Inv(cfg, st)
    ensures Step(cfg, env, st, Grant(tgt, service, credentials, newId)).outcome == Issued(newId) <==>
      && Holds(st, tgt, true) && !Expired(st.heap, tgt, env.now)
      && env.find(service).Some? && env.find(service).value.enabled
      && (env.find(service).value.ssoEnabled || credentials.Some? || GrantedBy(st.heap, tgt) == {})
      && (st.heap[tgt].parent == None || env.find(service).value.allowedToProxy)
      && (credentials.Some? ==> Vouched(env, credentials.value, st.heap[tgt].kind.authentication))
  {
    FindIs(cfg, st, tgt, true);
    if Holds(st, tgt, true) && !Expired(st.heap, tgt, env.now) {
      LiveGrantAnswer(cfg, env, st, tgt, service, credentials, newId);
    }
  }

  /** A grant that is not served changes nothing, except that an expired granting ticket is dropped. */
  lemma GrantEffect(cfg: Config, env: Env, st: State, tgt: TicketId, service: WebApplicationService,
                    credentials: Option<Credentials>, newId: TicketId)
    requires Inv(cfg, st) && newId !in st.heap
    ensures var reply := Step(cfg, env, st, Grant(tgt, service, credentials, newId));
      var next := reply.state;
      if tgt !in st.registry then reply.outcome == Failed(InvalidTicket) && next == st
      else if st.heap[tgt].kind.OneService? then reply.outcome == Failed(ClassCast) && next == st
      else if Expired(st.heap, tgt, env.now) then reply.outcome == Failed(InvalidTicket) && Dropped(cfg, st, next, tgt)
      else if !reply.outcome.Issued? then next == st
      else
        var t := st.heap[tgt];
        && Adds(st, next, tgt, newId)
        && next.heap[tgt] == Ticket(t.policy, t.parent, t.depth, t.created,
             Usage(env.now, t.usage.lastUsed, t.usage.uses + 1), t.kind.(services := t.kind.services[newId := service]))
        && next.heap[newId] == Ticket(cfg.stPolicy, Some(tgt), t.depth + 1, env.now, Usage(env.now, 0, 0),
             OneService(service, credentials.Some? || GrantedBy(st.heap, tgt) == {}, false))
  {
    FindIs(cfg, st, tgt, true);
    if tgt in st.registry {
      assert Accounted(st.heap, tgt);
      DeleteDrops(cfg, st, tgt);
    }
  }

  // ---- Delegating ----------------------------------------------------------------------------

  /** The checks of a delegation in their order; one that is served spends the ticket and adds a sibling of it. */
  lemma DelegateAnswer(cfg: Config, env: Env, st: State, id: TicketId, credentials: Credentials, newId: TicketId)
    requires Inv(cfg, st) && newId !in st.heap
    ensures var reply := Step(cfg, env, st, Delegate(id, credentials, newId));
      var login := env.authenticate(credentials);
      if login.None? then reply == Reply(st, Failed(TicketCreation))
      else if id !in st.registry then reply == Reply(st, Failed(InvalidTicket))
      else if st.heap[id].kind.Granting? then reply == Reply(st, Failed(ClassCast))
      else if Expired(st.heap, id, env.now) then reply == Reply(st, Failed(InvalidTicket))
      else
        var t := st.heap[id];
        var found := env.find(t.kind.service);
        if found.None? || !found.value.enabled || !found.value.allowedToProxy
        then reply == Reply(st, Failed(UnauthorizedProxying))
        else if t.kind.grantedAlready then reply == Reply(st, Failed(AlreadyGranted))
        else
          && reply.outcome == Issued(newId) && Adds(st, reply.state, id, newId)
          && reply.state.heap[id] == t.(kind := t.kind.(grantedAlready := true))
          && reply.state.heap[newId] == Ticket(cfg.tgtPolicy, t.parent, t.depth, env.now, Usage(env.now, 0, 0),
                                               Granting(login.value, false, map[]))
  {
    FindIs(cfg, st, id, false);
  }

  // ---- Validating ------------------------------------------------------------------------------

  /** The user name that the service gets; None where an attribute value is null. */
  ghost predicate NamedFor(env: Env, user: Principal, rs: RegisteredService, service: WebApplicationService, name: string) {
    if rs.anonymousAccess then name == env.persistentId(user, service)
    else if ShowsAttribute(user, rs)
    then
      match user.attributes[rs.usernameAttribute.value]
      case Text(text) => name == text
      case Flag(on) => name == if on then "true" else "false"
      case NullValue => false
    else name == user.id
  }

  /** A user name attribute is configured, the service may see it, and the user has it. */
  predicate ShowsAttribute(user: Principal, rs: RegisteredService) {
    && !rs.anonymousAccess && rs.usernameAttribute.Some?
    && (rs.ignoreAttributes || rs.usernameAttribute.value in rs.allowedAttributes)
    && rs.usernameAttribute.value in user.attributes
  }

  predicate NameIsNull(user: Principal, rs: RegisteredService) {
    ShowsAttribute(user, rs) && user.attributes[rs.usernameAttribute.value] == NullValue
  }

  lemma ReleasedIdIs(env: Env, user: Principal, rs: RegisteredService, service: WebApplicationService)
    ensures ReleasedId(env, user, rs, service) == None <==> NameIsNull(user, rs)
    ensures ReleasedId(env, user, rs, service).Some? ==>
      NamedFor(env, user, rs, service, ReleasedId(env, user, rs, service).value)
  {
  }

  /** The login at the root of the session of a service ticket. */
  function SessionLogin(h: Heap, id: TicketId): Option<Authentication> {
    if Root(h, id) in h && h[Root(h, id)].kind.Granting? then Some(h[Root(h, id)].kind.authentication) else None
  }

  lemma LiveAssertion(cfg: Config, env: Env, st: State, id: TicketId, rs: RegisteredService)
    requires Inv(cfg, st) && id in st.heap && st.heap[id].kind.OneService?
    ensures var login, t := SessionLogin(st.heap, id), st.heap[id];
      && login.Some?
      && AssertionFor(env, st.heap[id := t.Touched(env.now)], t.Touched(env.now), rs).None?
           == ReleasedId(env, login.value.principal, rs, t.kind.service).None?
  {
    var h, t := st.heap, st.heap[id];
    assert Rooted(h, id);
    ForestLinks(h, id);
    UpdateKeeps(cfg, h, id, t.Touched(env.now));
    UnchangedEvolves(h, env.now);
    SameKindSameChain(h, h[id := t.Touched(env.now)], t.parent.value);
    ChainShape(h, t.parent.value);
  }

  /** What a live ticket answers to a service that may validate: only a null user name keeps a match from success. */
  lemma LiveValidateAnswer(cfg: Config, env: Env, st: State, id: TicketId, service: WebApplicationService)
    requires Inv(cfg, st) && Holds(st, id, false) && !Expired(st.heap, id, env.now)
    requires env.find(service).Some? && env.find(service).value.enabled
    ensures SessionLogin(st.heap, id).Some?
    ensures var answer := Step(cfg, env, st, Validate(id, service)).outcome;
      var user, rs, t := SessionLogin(st.heap, id).value.principal, env.find(service).value, st.heap[id];
      if !env.matches(service, t.kind.service) then answer == Failed(WrongService(t.kind.service))
      else if NameIsNull(user, rs) then answer == Failed(NullPointer)
      else
        && answer.Asserted? && answer.assertion.service == t.kind.service
        && answer.assertion.fromNewLogin == t.kind.fromNewLogin
        && |answer.assertion.chain| == t.depth
        && NamedFor(env, user, rs, t.kind.service, answer.assertion.chain[t.depth - 1].principal.id)
  {
    var rs := env.find(service).value;
    FindIs(cfg, st, id, false);
    LiveAssertion(cfg, env, st, id, rs);
    var user := SessionLogin(st.heap, id).value.principal;
    ReleasedIdIs(env, user, rs, st.heap[id].kind.service);
    if env.matches(service, st.heap[id].kind.service) && !NameIsNull(user, rs) {
      AssertedChain(cfg, env, st, Validate(id, service));
      assert Rooted(st.heap, id);
      ForestLinks(st.heap, id);
    }
  }

  /** Exactly when a validation answers an assertion. */
  lemma ValidateAssertsIff(cfg: Config, env: Env, st: State, id: TicketId, service: WebApplicationService)
    requires Inv(cfg, st)
    ensures Step(cfg, env, st, Validate(id, service)).outcome.Asserted? <==>
      && Holds(st, id, false) && !Expired(st.heap, id, env.now)
      && env.find(service).Some? && env.find(service).value.enabled
      && env.matches(service, st.heap[id].kind.service)
      && SessionLogin(st.heap, id).Some? && !NameIsNull(SessionLogin(st.heap, id).value.principal, env.find(service).value)
  {
    FindIs(cfg, st, id, false);
    if Holds(st, id, false) && !Expired(st.heap, id, env.now) && env.find(service).Some? && env.find(service).value.enabled {
      LiveValidateAnswer(cfg, env, st, id, service);
    }
  }

  /** Refusals before the use leave the state, except that an expired ticket goes; a use counts, and may end the ticket. */
  lemma ValidateEffect(cfg: Config, env: Env, st: State, id: TicketId, service: WebApplicationService)
    requires Inv(cfg, st)
    ensures var reply := Step(cfg, env, st, Validate(id, service));
      var found := env.find(service);
      if id in st.registry && st.heap[id].kind.Granting? then reply == Reply(st, Failed(ClassCast))
      else if found.None? || !found.value.enabled then reply == Reply(st, Failed(UnauthorizedService))
      else if id !in st.registry then reply == Reply(st, Failed(InvalidTicket))
      else if Expired(st.heap, id, env.now) then reply.outcome == Failed(InvalidTicket) && Dropped(cfg, st, reply.state, id)
      else
        var t := st.heap[id];
        var used := st.(heap := st.heap[id := t.(usage := Usage(env.now, t.usage.lastUsed, t.usage.uses + 1))]);
        if Expired(used.heap, id, env.now) then Dropped(cfg, used, reply.state, id) else reply.state == used
  {
    FindIs(cfg, st, id, false);
    if Holds(st, id, false) {
      DeleteDrops(cfg, st, id);
      if !Expired(st.heap, id, env.now) {
        UseKeeps(cfg, st, id, env.now);
        DeleteDrops(cfg, st.(heap := st.heap[id := st.heap[id].Touched(env.now)]), id);
      }
    }
  }

  // ---- Destroying --------------------------------------------------------------------------------

  /** The services of the tickets that a granting ticket granted. */
  function ServicesGranted(h: Heap, tgt: TicketId): set<WebApplicationService> {
    set id | id in GrantedBy(h, tgt) :: h[id].kind.service
  }

  /** A stored granting ticket is marked and dropped, and exactly the services that it granted are logged out. */
  lemma DestroyAnswer(cfg: Config, env: Env, st: State, tgt: TicketId)
    requires Inv(cfg, st)
    ensures var reply := Step(cfg, env, st, Destroy(tgt));
      if tgt !in st.registry then reply == Reply(st, Destroyed)
      else if st.heap[tgt].kind.OneService? then reply == Reply(st, Failed(ClassCast))
      else
        var t, next := st.heap[tgt], reply.state;
        && reply.outcome == Destroyed
        && next.heap == st.heap[tgt := t.(kind := t.kind.(expired := true))]
        && next.loggedOut == st.loggedOut + ServicesGranted(st.heap, tgt)
        && (forall s :: next.sent[s] == st.sent[s] +
              if s in ServicesGranted(st.heap, tgt) && s !in st.loggedOut && s.hasHttpClient then 1 else 0)
        && forall x :: x in next.registry <==> x in st.registry && x != tgt && (cfg.mode.Cascade? ==> !Under(st.heap, tgt, x))
  {
    FindIs(cfg, st, tgt, true);
    if Holds(st, tgt, true) {
      assert Accounted(st.heap, tgt);
      ServicesAreGranted(st.heap, tgt);
      var expired := Expire(st, tgt);
      ExpireKeeps(cfg, st, tgt, env.now);
      DeleteDrops(cfg, expired, tgt);
      forall x | x in st.heap ensures Under(expired.heap, tgt, x) == Under(st.heap, tgt, x) {
        EvolvesUnder(st.heap, expired.heap, env.now, tgt, x);
      }
    }
  }

  lemma ServicesAreGranted(h: Heap, tgt: TicketId)
    requires tgt in h && h[tgt].kind.Granting? && Accounted(h, tgt)
    ensures h[tgt].kind.services.Values == ServicesGranted(h, tgt)
  {
    forall s | s in h[tgt].kind.services.Values ensures s in ServicesGranted(h, tgt) {
      var id :| id in h[tgt].kind.services && h[tgt].kind.services[id] == s;
      assert id in GrantedBy(h, tgt);
    }
    forall s | s in ServicesGranted(h, tgt) ensures s in h[tgt].kind.services.Values {
      var id :| id in GrantedBy(h, tgt) && h[id].kind.service == s;
      assert id in h[tgt].kind.services;
    }
  }
}
