/** The central authentication service over the database registry, working on rows. */
module JpaService {
  import opened Domain
  import opened Expiration
  import opened Tickets
  import opened Protocol
  import opened Steps
  import opened Runs
  import opened Simulation
  import opened JpaRegistry
  import opened DistributedTickets
  import MapService = CentralAuthenticationService

  datatype RowLookup = NoRow | OtherClass | TheRow(ticket: TicketDelegator)

  // ---- Rows and states ------------------------------------------------------------------------

  /** A stored ticket looks the same from its row and from the state. */
  lemma RowIsTicket(cfg: Config, st: State, id: TicketId, now: int)
    requires cfg.mode.Cascade? && Inv(cfg, st) && id in Live(st)
    ensures Forest(Live(st)) && id in st.heap && Live(st)[id] == st.heap[id]
    ensures Expired(Live(st), id, now) == Expired(st.heap, id, now)
    ensures Chain(Live(st), id) == Chain(st.heap, id)
  {
    LiveIsForest(cfg, st);
    assert AgreeOn(Live(st), st.heap, st.registry);
    AgreeingExpiry(Live(st), st.heap, st.registry, id, now);
    AgreeingChain(Live(st), st.heap, st.registry, id);
  }

  lemma LiveAfterPut(cfg: Config, st: State, newId: TicketId, n: Ticket)
    requires Inv(cfg, st)
    ensures Live(Put(st, newId, n)) == Live(st)[newId := n]
  {
  }

  lemma LiveAfterUpdate(cfg: Config, st: State, id: TicketId, t: Ticket, newId: TicketId, n: Ticket)
    requires Inv(cfg, st) && id in st.registry
    ensures Live(st.(heap := st.heap[id := t])) == Live(st)[id := t]
    ensures Live(Put(st.(heap := st.heap[id := t]), newId, n)) == Live(st)[id := t][newId := n]
  {
  }

  /** The state after a granting ticket was used and the ticket it granted was stored. */
  function AfterGrant(cfg: Config, st: State, now: int, id: TicketId, service: WebApplicationService,
                      credentialsProvided: bool, newId: TicketId): State
    requires id in st.heap && st.heap[id].kind.Granting?
  {
    var t := st.heap[id];
    Put(st.(heap := st.heap[id := WithService(t.Touched(now), newId, service)]), newId,
        NewServiceTicket(cfg, now, id, t, service, credentialsProvided))
  }

  lemma AfterGrantRows(cfg: Config, st: State, now: int, id: TicketId, service: WebApplicationService,
                       credentialsProvided: bool, newId: TicketId)
    requires Inv(cfg, st) && id in st.registry && id in st.heap && st.heap[id].kind.Granting?
    requires newId !in st.heap && !IsTgtId(newId) && !Expired(st.heap, id, now)
    ensures var next := AfterGrant(cfg, st, now, id, service, credentialsProvided, newId);
      Inv(cfg, next)
      && Live(next) == Live(st)[id := WithService(st.heap[id].Touched(now), newId, service)]
                               [newId := NewServiceTicket(cfg, now, id, st.heap[id], service, credentialsProvided)]
  {
    var g := WithService(st.heap[id].Touched(now), newId, service);
    var n := NewServiceTicket(cfg, now, id, st.heap[id], service, credentialsProvided);
    GrantedKeeps(cfg, now, st, id, g, newId, n);
    LiveAfterUpdate(cfg, st, id, g, newId, n);
  }

  class CentralAuthenticationServiceImpl {
    const ticketRegistry: JpaTicketRegistry
    const ticketGrantingTicketExpirationPolicy: Policy
    const serviceTicketExpirationPolicy: Policy
    ghost var st: State

    ghost function Settings(): Config {
      Config(Cascade, ticketGrantingTicketExpirationPolicy, serviceTicketExpirationPolicy)
    }

    /** The rows are those of the protocol state. */
    ghost predicate Valid()
      reads this, ticketRegistry
    {
      ticketRegistry.Valid() && Inv(Settings(), st) && ticketRegistry.Rows() == Live(st)
    }

    constructor (tgtPolicy: Policy, stPolicy: Policy)
      ensures Valid() && st == INITIAL && Settings() == Config(Cascade, tgtPolicy, stPolicy)
      ensures fresh(ticketRegistry)
    {
      ticketRegistry := new JpaTicketRegistry();
      ticketGrantingTicketExpirationPolicy := tgtPolicy;
      serviceTicketExpirationPolicy := stPolicy;
      st := INITIAL;
    }

    method GetTicket(id: TicketId, granting: bool) returns (r: RowLookup)
      requires Valid()
      ensures match r
        case NoRow => Find(Settings(), st, id, granting).Missing?
        case OtherClass => Find(Settings(), st, id, granting).WrongClass?
        case TheRow(t) =>
          && Find(Settings(), st, id, granting).Found?
          && fresh(t) && t.Valid() && t.ticketRegistry == ticketRegistry && t.id == id
          && id in st.heap && t.ticket == st.heap[id] && t.ticket.kind.Granting? == granting
    {
      LiveIsForest(Settings(), st);
      StoredIffRegistered(Settings(), st, id);
      var row := ticketRegistry.GetRawTicket(id);
      if row.None? {
        return NoRow;
      }
      if row.value.kind.Granting? != granting {
        return OtherClass;
      }
      var ticket := new TicketDelegator(ticketRegistry, id, row.value);
      return TheRow(ticket);
    }

    method IsExpired(ticket: TicketDelegator, now: int) returns (expired: bool)
      requires Valid() && ticket.Valid() && ticket.ticketRegistry == ticketRegistry
      ensures ticket.id in st.heap && expired == Expired(st.heap, ticket.id, now)
    {
      RowIsTicket(Settings(), st, ticket.id, now);
      expired := ticket.IsExpired(now);
    }

    method DeleteTicket(id: TicketId)
      requires Valid()
      modifies this`st, ticketRegistry
      ensures Valid() && st == Delete(Settings(), old(st), id)
    {
      CascadeDeletesSubtree(Settings(), st, id);
      DeleteKeeps(Settings(), st, id);
      var found := ticketRegistry.DeleteTicket(id);
      st := Delete(Settings(), st, id);
    }

    method CreateTicketGrantingTicket(env: Env, credentials: Credentials, newId: TicketId) returns (r: Outcome)
      requires Valid() && Admissible(st.heap, Create(credentials, newId))
      modifies this`st, ticketRegistry
      ensures Valid() && Reply(st, r) == CreateStep(Settings(), env, old(st), credentials, newId)
    {
      var authentication := env.authenticate(credentials);
      if authentication.None? {
        return Failed(TicketCreation);
      }
      CreateKeeps(Settings(), env, st, credentials, newId);
      LiveAfterPut(Settings(), st, newId, NewRoot(Settings(), env.now, authentication.value));
      var ticket := Ticket(ticketGrantingTicketExpirationPolicy, None, 0, env.now, Usage(env.now, 0, 0),
                           Granting(authentication.value, false, map[]));
      ticketRegistry.Write(newId, ticket);
      st := Put(st, newId, ticket);
      return Issued(newId);
    }

    /** The checks between the lookup of a granting ticket and the grant. */
    method CheckGrant(env: Env, ticket: TicketDelegator, service: WebApplicationService, credentials: Option<Credentials>)
      returns (refusal: Option<Error>)
      requires Valid() && ticket.Valid() && ticket.ticketRegistry == ticketRegistry
      requires ticket.id in st.heap && ticket.ticket == st.heap[ticket.id] && ticket.ticket.kind.Granting?
      ensures refusal == GrantRefusal(env, st.heap, ticket.id, service, credentials)
    {
      var registered := env.find(service);
      if registered.None? || !registered.value.enabled {
        return Some(UnauthorizedService);
      }
      if !registered.value.ssoEnabled && credentials.None? && ticket.ticket.usage.uses > 0 {
        return Some(UnauthorizedSso);
      }
      RowIsTicket(Settings(), st, ticket.id, env.now);
      var authns := ticket.GetChainedAuthentications();
      if |authns| > 1 && !registered.value.allowedToProxy {
        return Some(UnauthorizedProxying);
      }
      if credentials.Some? {
        var authentication := env.authenticate(credentials.value);
        if authentication.None?
           || !SamePrincipal(authentication.value.principal, ticket.ticket.kind.authentication.principal)
           || authentication.value.attributes != ticket.ticket.kind.authentication.attributes {
          return Some(TicketCreation);
        }
      }
      return None;
    }

    /** The granting ticket and the ticket it granted are both written. */
    method Serve(env: Env, ticket: TicketDelegator, service: WebApplicationService, credentialsProvided: bool, newId: TicketId)
      requires Valid() && ticket.Valid() && ticket.ticketRegistry == ticketRegistry
      requires ticket.id in st.registry && ticket.ticket == st.heap[ticket.id] && ticket.ticket.kind.Granting?
      requires newId !in st.heap && !IsTgtId(newId) && !Expired(st.heap, ticket.id, env.now)
      modifies this`st, ticketRegistry, ticket, service`principal
      ensures Valid()
      ensures st == AfterGrant(Settings(), old(st), env.now, ticket.id, service, credentialsProvided, newId)
      ensures KnowsUser(old(st).heap, ticket.id, service)
    {
      ghost var t := ticket.ticket;
      RowIsTicket(Settings(), st, ticket.id, env.now);
      AfterGrantRows(Settings(), st, env.now, ticket.id, service, credentialsProvided, newId);
      var granted := ticket.GrantServiceTicket(newId, service, serviceTicketExpirationPolicy, credentialsProvided, env.now);
      assert granted == NewServiceTicket(Settings(), env.now, ticket.id, t, service, credentialsProvided);
      ticketRegistry.Write(newId, granted);
      st := AfterGrant(Settings(), st, env.now, ticket.id, service, credentialsProvided, newId);
    }

    method GrantServiceTicket(env: Env, id: TicketId, service: WebApplicationService, credentials: Option<Credentials>,
                              newId: TicketId) returns (r: Outcome)
      requires Valid() && Admissible(st.heap, Grant(id, service, credentials, newId))
      modifies this`st, ticketRegistry, service`principal
      ensures Valid() && Reply(st, r) == GrantStep(Settings(), env, old(st), id, service, credentials, newId)
      ensures r.Issued? ==> KnowsUser(old(st).heap, id, service)
    {
      var lookup := GetTicket(id, true);
      match lookup
      case NoRow => return Failed(InvalidTicket);
      case OtherClass => return Failed(ClassCast);
      case TheRow(ticket) =>
        var expired := IsExpired(ticket, env.now);
        if expired {
          DeleteTicket(id);
          return Failed(InvalidTicket);
        }
        var refusal := CheckGrant(env, ticket, service, credentials);
        if refusal.Some? {
          return Failed(refusal.value);
        }
        Serve(env, ticket, service, credentials.Some?, newId);
        return Issued(newId);
    }

    method DelegateTicketGrantingTicket(env: Env, id: TicketId, credentials: Credentials, newId: TicketId)
      returns (r: Outcome)
      requires Valid() && Admissible(st.heap, Delegate(id, credentials, newId))
      modifies this`st, ticketRegistry
      ensures Valid() && Reply(st, r) == DelegateStep(Settings(), env, old(st), id, credentials, newId)
    {
      var authentication := env.authenticate(credentials);
      if authentication.None? {
        return Failed(TicketCreation);
      }
      var lookup := GetTicket(id, false);
      match lookup
      case NoRow => return Failed(InvalidTicket);
      case OtherClass => return Failed(ClassCast);
      case TheRow(ticket) =>
        var expired := IsExpired(ticket, env.now);
        if expired {
          return Failed(InvalidTicket);
        }
        if !MayProxy(env, ticket.ticket.kind.service) {
          return Failed(UnauthorizedProxying);
        }
        var done := ServeProxy(env, ticket, credentials, newId);
        return if done then Issued(newId) else Failed(AlreadyGranted);
    }

    /** The last steps of a delegation; a second grant is an illegal state. */
    method ServeProxy(env: Env, ticket: TicketDelegator, credentials: Credentials, newId: TicketId) returns (done: bool)
      requires Valid() && ticket.Valid() && ticket.ticketRegistry == ticketRegistry
      requires ticket.id in st.registry && ticket.ticket == st.heap[ticket.id] && ticket.ticket.kind.OneService?
      requires Admissible(st.heap, Delegate(ticket.id, credentials, newId)) && env.authenticate(credentials).Some?
      requires !Expired(st.heap, ticket.id, env.now) && MayProxy(env, ticket.ticket.kind.service)
      requires Find(Settings(), st, ticket.id, false).Found?
      modifies this`st, ticketRegistry, ticket
      ensures Valid()
      ensures Reply(st, if done then Issued(newId) else Failed(AlreadyGranted))
        == DelegateStep(Settings(), env, old(st), ticket.id, credentials, newId)
    {
      ghost var t := ticket.ticket;
      ghost var used := t.(kind := t.kind.(grantedAlready := true));
      var authentication := env.authenticate(credentials).value;
      ghost var n := NewProxyGranting(Settings(), env.now, t, authentication);
      DelegateKeeps(Settings(), env, st, ticket.id, credentials, newId);
      LiveAfterUpdate(Settings(), st, ticket.id, used, newId, n);
      var granted := ticket.GrantTicketGrantingTicket(authentication, ticketGrantingTicketExpirationPolicy, env.now);
      if granted.None? {
        return false;
      }
      ticketRegistry.Write(newId, granted.value);
      st := Put(st.(heap := st.heap[ticket.id := used]), newId, n);
      return true;
    }

    /** The chain, with the last authentication replaced by what the service may see of it. */
    method BuildAssertion(env: Env, ticket: TicketDelegator, registered: RegisteredService) returns (r: Option<Assertion>)
      requires Valid() && ticket.Valid() && ticket.ticketRegistry == ticketRegistry
      requires ticket.id in st.heap && ticket.ticket == st.heap[ticket.id] && ticket.ticket.kind.OneService?
      ensures r == AssertionFor(env, st.heap, ticket.ticket, registered)
    {
      assert Rooted(ticketRegistry.Rows(), ticket.id);
      var granting := ticket.GetGrantingTicket();
      RowIsTicket(Settings(), st, granting.value.id, env.now);
      var chained := granting.value.GetChainedAuthentications();
      var user := chained[|chained| - 1];
      var principalId := ReleasedId(env, user.principal, registered, ticket.ticket.kind.service);
      if principalId.None? {
        return None;
      }
      var authToUse := Disclosed(user, registered, principalId.value);
      return Some(Assertion(chained[..|chained| - 1] + [authToUse], ticket.ticket.kind.service,
                            ticket.ticket.kind.fromNewLogin));
    }

    method Use(env: Env, ticket: TicketDelegator, service: WebApplicationService) returns (valid: bool)
      requires Valid() && ticket.Valid() && ticket.ticketRegistry == ticketRegistry
      requires ticket.id in st.registry && ticket.ticket == st.heap[ticket.id] && ticket.ticket.kind.OneService?
      requires !Expired(st.heap, ticket.id, env.now)
      modifies this`st, ticketRegistry, ticket
      ensures Valid() && ticket.Valid() && ticket.ticket == old(ticket.ticket).Touched(env.now)
      ensures st == old(st).(heap := old(st).heap[ticket.id := ticket.ticket])
      ensures valid == env.matches(service, ticket.ticket.kind.service)
    {
      ghost var used := ticket.ticket.Touched(env.now);
      UseKeeps(Settings(), st, ticket.id, env.now);
      LiveAfterUpdate(Settings(), st, ticket.id, used, ticket.id, used);
      valid := ticket.IsValidFor(service, env.matches, env.now);
      st := st.(heap := st.heap[ticket.id := used]);
    }

    method ValidateServiceTicket(env: Env, id: TicketId, service: WebApplicationService) returns (r: Outcome)
      requires Valid()
      modifies this`st, ticketRegistry
      ensures Valid() && Reply(st, r) == ValidateStep(Settings(), env, old(st), id, service)
    {
      var lookup := GetTicket(id, false);
      if lookup.OtherClass? {
        return Failed(ClassCast);
      }
      var registered := env.find(service);
      if registered.None? || !registered.value.enabled {
        return Failed(UnauthorizedService);
      }
      if lookup.NoRow? {
        return Failed(InvalidTicket);
      }
      var ticket := lookup.ticket;
      var expired := IsExpired(ticket, env.now);
      if expired {
        DeleteTicket(id);
        return Failed(InvalidTicket);
      }
      var valid := Use(env, ticket, service);
      if valid {
        var assertion := BuildAssertion(env, ticket, registered.value);
        r := if assertion.None? then Failed(NullPointer) else Asserted(assertion.value);
      } else {
        r := Failed(WrongService(ticket.ticket.kind.service));
      }
      expired := IsExpired(ticket, env.now);
      if expired {
        DeleteTicket(id);
      }
    }

    method DestroyTicketGrantingTicket(id: TicketId) returns (r: Outcome)
      requires Valid()
      modifies this`st, ticketRegistry
      ensures Valid() && Reply(st, r) == DestroyStep(Settings(), old(st), id)
    {
      var lookup := GetTicket(id, true);
      match lookup
      case NoRow => return Destroyed;
      case OtherClass => return Failed(ClassCast);
      case TheRow(ticket) =>
        ghost var t := ticket.ticket;
        ghost var marked := t.(kind := t.kind.(expired := true));
        ExpireKeeps(Settings(), st, id, 0);
        LiveAfterUpdate(Settings(), st, id, marked, id, marked);
        ticket.Expire();
        st := Protocol.Expire(st, id);
        DeleteTicket(id);
        return Destroyed;
    }

    /** One call: the rows do what the protocol step says. */
    method Handle(env: Env, req: Request) returns (r: Outcome)
      requires Valid() && Admissible(st.heap, req)
      modifies this`st, ticketRegistry, (if req.Grant? then {req.service} else {})`principal
      ensures Valid() && Reply(st, r) == Step(Settings(), env, old(st), req)
      ensures req.Grant? && r.Issued? ==> KnowsUser(old(st).heap, req.tgt, req.service)
    {
      match req
      case Create(credentials, newId) => r := CreateTicketGrantingTicket(env, credentials, newId);
      case Grant(tgt, service, credentials, newId) => r := GrantServiceTicket(env, tgt, service, credentials, newId);
      case Delegate(id, credentials, newId) => r := DelegateTicketGrantingTicket(env, id, credentials, newId);
      case Validate(id, service) => r := ValidateServiceTicket(env, id, service);
      case Destroy(tgt) => r := DestroyTicketGrantingTicket(tgt);
    }

    /** The next call of a run. */
    method Advance(ghost run: Run, call: Call, ghost i: nat) returns (r: Outcome)
      requires run.Valid() && run.cfg == Settings() && i < |run.calls| && call == run.calls[i]
      requires Valid() && st == run.states[i]
      modifies this`st, ticketRegistry, ServicesOf(run.calls)`principal
      ensures Valid() && st == run.states[i + 1] && r == run.answers[i]
    {
      Reachable(run, i);
      assert run.Happens(i);
      assert call.req.Grant? ==> call.req.service in ServicesOf(run.calls);
      r := Handle(call.env, call.req);
    }

    /** A whole run over the database gives the answers of the cascading protocol. */
    method Process(calls: seq<Call>) returns (answers: seq<Outcome>)
      requires Valid() && st == INITIAL && Legal(calls)
      modifies this`st, ticketRegistry, ServicesOf(calls)`principal
      ensures Valid() && st == Execute(Settings(), calls).states[|calls|]
      ensures answers == Execute(Settings(), calls).answers
    {
      ghost var run := Execute(Settings(), calls);
      answers := [];
      for i := 0 to |calls|
        invariant Valid() && st == run.states[i] && answers == run.answers[..i]
      {
        var answer := Advance(run, calls[i], i);
        answers := answers + [answer];
      }
    }
  }

  /** The same calls on both services, over ticket objects and over rows: no client can tell which is which. */
  method ProcessOnBoth(objects: MapService.CentralAuthenticationServiceImpl, rows: CentralAuthenticationServiceImpl,
                       calls: seq<Call>, delivered: WebApplicationService -> bool)
    returns (overObjects: seq<Outcome>, overRows: seq<Outcome>)
    requires objects.Ready() && objects.Abs() == INITIAL && objects.objects == map[]
    requires rows.Valid() && rows.st == INITIAL && rows.Settings() == objects.Settings().(mode := Cascade)
    requires objects.Eligible(ServicesOf(calls)) && Legal(calls)
    requires objects.Settings().tgtPolicy.Lasting() && forall k :: 0 <= k < |calls| ==> Typed(calls[k].req)
    modifies objects`objects, objects`known, objects`sent, objects.ticketRegistry
    modifies rows`st, rows.ticketRegistry, ServicesOf(calls)
    ensures overObjects == overRows
  {
    overObjects := objects.Process(calls, delivered);
    overRows := rows.Process(calls);
    RegistriesAreIndistinguishable(Execute(objects.Settings(), calls), Execute(rows.Settings(), calls));
  }
}
