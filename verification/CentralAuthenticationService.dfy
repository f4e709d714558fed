/** The central authentication service over the map registry, working on ticket objects. */
module CentralAuthenticationService {
  import opened Domain
  import opened Expiration
  import opened Tickets
  import opened Protocol
  import opened Steps
  import opened Runs
  import opened TicketObjects

  datatype TicketLookup = NoTicket | OtherClass | TheTicket(ticket: TicketObject)

  ghost function LoggedOutOf(services: set<WebApplicationService>): set<WebApplicationService>
    reads services
  {
    set s | s in services && s.loggedOutAlready
  }

  class DefaultTicketRegistry {
    var cache: map<TicketId, TicketObject>

    constructor ()
      ensures cache == map[]
    {
      cache := map[];
    }

    method AddTicket(ticket: TicketObject)
      modifies this
      ensures cache == old(cache)[ticket.id := ticket]
    {
      cache := cache[ticket.id := ticket];
    }

    method GetTicket(id: TicketId, granting: bool) returns (r: TicketLookup)
      ensures r.NoTicket? <==> id !in cache
      ensures r.TheTicket? <==> id in cache && cache[id].kind.Granting? == granting
      ensures r.TheTicket? ==> r.ticket == cache[id]
    {
      if id !in cache {
        return NoTicket;
      }
      var ticket := cache[id];
      if ticket.kind.Granting? != granting {
        return OtherClass;
      }
      return TheTicket(ticket);
    }

    method DeleteTicket(id: TicketId) returns (removed: bool)
      modifies this
      ensures cache == old(cache) - {id} && (removed <==> id in old(cache))
    {
      removed := id in cache;
      cache := cache - {id};
    }
  }

  class CentralAuthenticationServiceImpl {
    const ticketRegistry: DefaultTicketRegistry
    const ticketGrantingTicketExpirationPolicy: Policy
    const serviceTicketExpirationPolicy: Policy
    ghost var objects: map<TicketId, TicketObject>
    ghost var known: set<WebApplicationService>
    ghost var sent: multiset<WebApplicationService>

    ghost function Settings(): Config {
      Config(Lazy, ticketGrantingTicketExpirationPolicy, serviceTicketExpirationPolicy)
    }

    /** The state of the protocol that the objects stand for. */
    ghost function Abs(): State
      reads this, ticketRegistry, objects.Values, known
    {
      State(HeapOf(objects), ticketRegistry.cache.Keys, LoggedOutOf(known), sent)
    }

    ghost predicate Tracked()
      reads this, ticketRegistry
    {
      && Linked(objects)
      && (forall id :: id in ticketRegistry.cache ==> id in objects && objects[id] == ticketRegistry.cache[id])
    }

    ghost predicate KnowsServicesOf(ticket: TicketObject)
      reads this, ticket
    {
      ticket.kind.Granting? ==> ticket.kind.services.Values <= known
    }

    ghost predicate KnowsServices()
      reads this, objects.Values
    {
      forall id {:trigger objects[id]} :: id in objects ==> KnowsServicesOf(objects[id])
    }

    /** Message counters of the service objects and the message log agree. */
    ghost predicate Logged()
      reads this, objects.Values, known
    {
      && KnowsServices()
      && (forall s :: s in known ==> s.Valid() && s.messages == sent[s])
      && (forall s :: s in sent ==> s in known)
    }

    /** The objects are a well-formed forest, as every operation leaves them. */
    ghost predicate Ready()
      reads this, ticketRegistry, objects.Values, known
    {
      Tracked() && Logged() && Forest(Abs().heap)
    }

    constructor (tgtPolicy: Policy, stPolicy: Policy)
      ensures Ready() && Abs() == INITIAL && Settings() == Config(Lazy, tgtPolicy, stPolicy)
      ensures fresh(ticketRegistry)
    {
      ticketRegistry := new DefaultTicketRegistry();
      ticketGrantingTicketExpirationPolicy := tgtPolicy;
      serviceTicketExpirationPolicy := stPolicy;
      objects := map[];
      known := {};
      sent := multiset{};
      new;
      assert HeapOf(objects) == map[];
      assert Abs() == INITIAL;
    }

    /** Adds a new ticket object to the registry. */
    method Store(ticket: TicketObject)
      requires Tracked() && Logged()
      requires ticket.id !in objects && LinkedAt(objects[ticket.id := ticket], ticket.id)
      requires ticket.kind.Granting? ==> ticket.kind.services == map[]
      modifies this`objects, ticketRegistry
      ensures Tracked() && Logged() && objects == old(objects)[ticket.id := ticket]
      ensures objects.Values <= old(objects.Values) + {ticket}
      ensures Abs() == Put(old(Abs()), ticket.id, ticket.View())
    {
      ghost var was, st := objects, Abs();
      LinkedGrows(was, ticket);
      HeapGrows(was, ticket);
      ghost var heap := HeapOf(was[ticket.id := ticket]);
      ticketRegistry.AddTicket(ticket);
      objects := was[ticket.id := ticket];
      assert HeapOf(objects) == heap;
      assert ticketRegistry.cache.Keys == st.registry + {ticket.id};
      assert LoggedOutOf(known) == st.loggedOut;
      forall id | id in objects ensures KnowsServicesOf(objects[id]) {
        assert id != ticket.id ==> objects[id] == was[id];
      }
    }

    method CreateTicketGrantingTicket(env: Env, credentials: Credentials, newId: TicketId) returns (r: Outcome)
      requires Ready() && newId !in objects
      modifies this`objects, ticketRegistry
      ensures Tracked() && Logged()
      ensures Reply(Abs(), r) == CreateStep(Settings(), env, old(Abs()), credentials, newId)
      ensures fresh(objects.Values - old(objects.Values))
    {
      var authentication := env.authenticate(credentials);
      if authentication.None? {
        return Failed(TicketCreation);
      }
      var kind := Granting(authentication.value, false, map[]);
      var ticket := new TicketObject(newId, null, ticketGrantingTicketExpirationPolicy, kind, env.now);
      Store(ticket);
      return Issued(newId);
    }

    /** Looks a ticket up under the name of its object. */
    method Lookup(id: TicketId, granting: bool) returns (r: TicketLookup)
      requires Ready()
      ensures match r
        case NoTicket => Find(Settings(), Abs(), id, granting).Missing?
        case OtherClass => Find(Settings(), Abs(), id, granting).WrongClass?
        case TheTicket(t) =>
          && Find(Settings(), Abs(), id, granting).Found?
          && t.id == id && id in objects && objects[id] == t && t.kind.Granting? == granting
    {
      r := ticketRegistry.GetTicket(id, granting);
      if id in objects {
        assert LinkedAt(objects, id);
      }
    }

    method Drop(id: TicketId)
      requires Tracked() && Logged()
      modifies ticketRegistry
      ensures Tracked() && Logged() && Abs() == Delete(Settings(), old(Abs()), id)
    {
      var removed := ticketRegistry.DeleteTicket(id);
      assert ticketRegistry.cache.Keys == old(ticketRegistry.cache.Keys) - {id};
    }

    /** A service object that was never used before has not been logged out. */
    ghost method Meet(service: WebApplicationService)
      requires Tracked() && Logged()
      requires service.Valid() && (service in known || !service.loggedOutAlready)
      modifies this`known
      ensures Tracked() && Logged() && Abs() == old(Abs()) && known == old(known) + {service}
    {
      known := known + {service};
      assert LoggedOutOf(known) == old(LoggedOutOf(known));
    }

    /** The ticket object grants a service ticket. */
    method GrantFrom(env: Env, ticket: TicketObject, service: WebApplicationService, credentialsProvided: bool,
                     newId: TicketId) returns (granted: TicketObject)
      requires Ready() && service in known
      requires ticket.id in objects && objects[ticket.id] == ticket && ticket.kind.Granting? && newId !in objects
      modifies ticket, service`principal
      ensures Tracked() && Logged()
      ensures fresh(granted) && granted.id == newId && granted.ticketGrantingTicket == ticket
      ensures var t := old(ticket.View());
        && Abs() == old(Abs()).(heap := old(Abs()).heap[ticket.id := WithService(t.Touched(env.now), newId, service)])
        && granted.View() == NewServiceTicket(Settings(), env.now, ticket.id, t, service, credentialsProvided)
      ensures KnowsUser(old(Abs()).heap, ticket.id, service)
    {
      ghost var before := Abs().heap;
      granted := ticket.GrantServiceTicket(newId, service, serviceTicketExpirationPolicy, credentialsProvided,
                                           env.now, objects);
      OneChanged(objects, ticket, before);
    }

    /** The ticket object grants a service ticket, and the registry stores it. */
    method Serve(env: Env, ticket: TicketObject, service: WebApplicationService, credentialsProvided: bool, newId: TicketId)
      requires Ready() && service.Valid() && (service in known || !service.loggedOutAlready)
      requires ticket.id in objects && objects[ticket.id] == ticket && ticket.kind.Granting? && newId !in objects
      modifies this`objects, this`known, ticketRegistry, ticket, service`principal
      ensures Tracked() && Logged()
      ensures var st, t := old(Abs()), old(ticket.View());
        Abs() == Put(st.(heap := st.heap[ticket.id := WithService(t.Touched(env.now), newId, service)]), newId,
                     NewServiceTicket(Settings(), env.now, ticket.id, t, service, credentialsProvided))
      ensures fresh(objects.Values - old(objects.Values))
      ensures known == old(known) + {service}
      ensures KnowsUser(old(Abs()).heap, ticket.id, service)
    {
      Meet(service);
      var granted := GrantFrom(env, ticket, service, credentialsProvided, newId);
      Store(granted);
    }

    /** The checks between the lookup of a granting ticket and the grant. */
    method CheckGrant(env: Env, ticket: TicketObject, service: WebApplicationService, credentials: Option<Credentials>)
      returns (refusal: Option<Error>)
      requires Ready() && ticket.id in objects && objects[ticket.id] == ticket && ticket.kind.Granting?
      ensures refusal == GrantRefusal(env, Abs().heap, ticket.id, service, credentials)
    {
      var registered := env.find(service);
      if registered.None? || !registered.value.enabled {
        return Some(UnauthorizedService);
      }
      if !registered.value.ssoEnabled && credentials.None? && ticket.countOfUses > 0 {
        return Some(UnauthorizedSso);
      }
      var authns := ticket.GetChainedAuthentications(objects);
      if |authns| > 1 && !registered.value.allowedToProxy {
        return Some(UnauthorizedProxying);
      }
      if credentials.Some? {
        var authentication := env.authenticate(credentials.value);
        if authentication.None?
           || !SamePrincipal(authentication.value.principal, ticket.kind.authentication.principal)
           || authentication.value.attributes != ticket.kind.authentication.attributes {
          return Some(TicketCreation);
        }
      }
      return None;
    }

    method GrantOn(env: Env, ticket: TicketObject, service: WebApplicationService, credentials: Option<Credentials>,
                   newId: TicketId) returns (r: Outcome)
      requires Ready() && newId !in objects
      requires ticket.id in objects && objects[ticket.id] == ticket && ticket.kind.Granting?
      requires service.Valid() && (service in known || !service.loggedOutAlready)
      modifies this`objects, this`known, ticketRegistry, ticket, service`principal
      ensures Tracked() && Logged()
      ensures Reply(Abs(), r) == GrantLive(Settings(), env, old(Abs()), ticket.id, service, credentials, newId)
      ensures r.Issued? ==> KnowsUser(old(Abs()).heap, ticket.id, service)
      ensures fresh(objects.Values - old(objects.Values))
      ensures old(known) <= known <= old(known) + {service}
    {
      var refusal := CheckGrant(env, ticket, service, credentials);
      if refusal.Some? {
        return Failed(refusal.value);
      }
      assert Abs().heap[ticket.id] == ticket.View();
      Serve(env, ticket, service, credentials.Some?, newId);
      return Issued(newId);
    }

    method GrantServiceTicket(env: Env, id: TicketId, service: WebApplicationService, credentials: Option<Credentials>,
                              newId: TicketId) returns (r: Outcome)
      requires Ready() && newId !in objects
      requires service.Valid() && (service in known || !service.loggedOutAlready)
      modifies this`objects, this`known, ticketRegistry, objects.Values, service`principal
      ensures Tracked() && Logged()
      ensures Reply(Abs(), r) == GrantStep(Settings(), env, old(Abs()), id, service, credentials, newId)
      ensures r.Issued? ==> KnowsUser(old(Abs()).heap, id, service)
      ensures fresh(objects.Values - old(objects.Values))
      ensures old(known) <= known <= old(known) + {service}
    {
      var lookup := Lookup(id, true);
      match lookup
      case NoTicket => return Failed(InvalidTicket);
      case OtherClass => return Failed(ClassCast);
      case TheTicket(ticket) =>
        var expired := ticket.IsExpired(env.now, objects);
        if expired {
          Drop(id);
          return Failed(InvalidTicket);
        }
        r := GrantOn(env, ticket, service, credentials, newId);
    }

    /** The ticket object grants a proxy-granting ticket, unless it did so before. */
    method GrantProxyFrom(env: Env, ticket: TicketObject, authentication: Authentication, newId: TicketId)
      returns (granted: Option<TicketObject>)
      requires Ready() && newId !in objects
      requires ticket.id in objects && objects[ticket.id] == ticket && ticket.kind.OneService?
      modifies ticket
      ensures Tracked() && Logged() && ticket.kind.OneService?
      ensures var t := old(ticket.View());
        && (granted.Some? <==> !t.kind.grantedAlready)
        && (granted.None? ==> Abs() == old(Abs()))
        && (granted.Some? ==>
              && Abs() == old(Abs()).(heap := old(Abs()).heap[ticket.id := t.(kind := t.kind.(grantedAlready := true))])
              && fresh(granted.value) && granted.value.id == newId
              && LinkedAt(objects[newId := granted.value], newId)
              && granted.value.View() == NewProxyGranting(Settings(), env.now, t, authentication))
    {
      ghost var before := Abs().heap;
      assert Rooted(before, ticket.id);
      assert LinkedAt(objects, ticket.id);
      granted := ticket.GrantTicketGrantingTicket(newId, authentication, ticketGrantingTicketExpirationPolicy, env.now);
      OneChanged(objects, ticket, before);
    }

    /** Grants a proxy-granting ticket and stores it; a second grant is an illegal state. */
    method ServeProxy(env: Env, ticket: TicketObject, authentication: Authentication, newId: TicketId) returns (done: bool)
      requires Ready() && newId !in objects
      requires ticket.id in objects && objects[ticket.id] == ticket && ticket.kind.OneService?
      modifies this`objects, ticketRegistry, ticket
      ensures Tracked() && Logged()
      ensures var st, t := old(Abs()), old(ticket.View());
        && done == !t.kind.grantedAlready
        && Abs() == if !done then st
                    else Put(st.(heap := st.heap[ticket.id := t.(kind := t.kind.(grantedAlready := true))]), newId,
                             NewProxyGranting(Settings(), env.now, t, authentication))
      ensures fresh(objects.Values - old(objects.Values))
    {
      var granted := GrantProxyFrom(env, ticket, authentication, newId);
      if granted.None? {
        return false;
      }
      Store(granted.value);
      return true;
    }

    method DelegateTicketGrantingTicket(env: Env, id: TicketId, credentials: Credentials, newId: TicketId)
      returns (r: Outcome)
      requires Ready() && newId !in objects
      modifies this`objects, ticketRegistry, objects.Values
      ensures Tracked() && Logged()
      ensures Reply(Abs(), r) == DelegateStep(Settings(), env, old(Abs()), id, credentials, newId)
      ensures fresh(objects.Values - old(objects.Values))
    {
      var authentication := env.authenticate(credentials);
      if authentication.None? {
        return Failed(TicketCreation);
      }
      var lookup := Lookup(id, false);
      match lookup
      case NoTicket => return Failed(InvalidTicket);
      case OtherClass => return Failed(ClassCast);
      case TheTicket(ticket) =>
        var expired := ticket.IsExpired(env.now, objects);
        if expired {
          return Failed(InvalidTicket);
        }
        assert Abs().heap[id] == ticket.View();
        if !MayProxy(env, ticket.kind.service) {
          return Failed(UnauthorizedProxying);
        }
        var done := ServeProxy(env, ticket, authentication.value, newId);
        return if done then Issued(newId) else Failed(AlreadyGranted);
    }

    /** The attributes that are released: all, or the allowed ones that have a value. */
    method ReleaseAttributes(principal: Principal, registered: RegisteredService) returns (attributes: map<string, AttrValue>)
      ensures attributes == Released(principal, registered)
    {
      if registered.ignoreAttributes {
        return principal.attributes;
      }
      attributes := map[];
      for i := 0 to |registered.allowedAttributes|
        invariant attributes == map k | k in principal.attributes && k in registered.allowedAttributes[..i]
                                        && principal.attributes[k] != NullValue :: principal.attributes[k]
      {
        var name := registered.allowedAttributes[i];
        assert registered.allowedAttributes[..i + 1] == registered.allowedAttributes[..i] + [name];
        if name in principal.attributes && principal.attributes[name] != NullValue {
          attributes := attributes[name := principal.attributes[name]];
        }
      }
      assert registered.allowedAttributes[..|registered.allowedAttributes|] == registered.allowedAttributes;
    }

    /** The authentication as the service may see it, if the released name can be printed. */
    method Disclose(env: Env, user: Authentication, registered: RegisteredService, service: WebApplicationService)
      returns (r: Option<Authentication>)
      ensures match ReleasedId(env, user.principal, registered, service)
        case None => r == None
        case Some(id) => r == Some(Disclosed(user, registered, id))
    {
      var principalId := ReleasedId(env, user.principal, registered, service);
      if principalId.None? {
        return None;
      }
      var attributes := ReleaseAttributes(user.principal, registered);
      return Some(Authentication(Principal(principalId.value, attributes),
                                 if registered.ignoreAttributes then map[] else user.attributes, user.date));
    }

    /** Copies all but the last, and puts the given one there. */
    method ReplaceLast(chained: seq<Authentication>, authToUse: Authentication)
      returns (authentications: seq<Authentication>)
      requires chained != []
      ensures authentications == chained[..|chained| - 1] + [authToUse]
    {
      authentications := [];
      for i := 0 to |chained| - 1
        invariant authentications == chained[..i]
      {
        authentications := authentications + [chained[i]];
      }
      authentications := authentications + [authToUse];
    }

    /** Copies the chain, with the last authentication replaced by what the service may see of it. */
    method BuildAssertion(env: Env, ticket: TicketObject, registered: RegisteredService) returns (r: Option<Assertion>)
      requires Ready() && ticket.id in objects && objects[ticket.id] == ticket && ticket.kind.OneService?
      ensures r == AssertionFor(env, Abs().heap, ticket.View(), registered)
    {
      assert LinkedAt(objects, ticket.id) && Rooted(Abs().heap, ticket.id);
      var granting := ticket.ticketGrantingTicket;
      assert granting != null;
      var chained := granting.GetChainedAuthentications(objects);
      ChainShape(Abs().heap, granting.id);
      var authToUse := Disclose(env, chained[|chained| - 1], registered, ticket.kind.service);
      if authToUse.None? {
        return None;
      }
      var authentications := ReplaceLast(chained, authToUse.value);
      return Some(Assertion(authentications, ticket.kind.service, ticket.kind.fromNewLogin));
    }

    /** Counts one use of a service ticket, and says whether it is for `service`. */
    method Use(env: Env, ticket: TicketObject, service: WebApplicationService) returns (valid: bool)
      requires Ready() && ticket.id in objects && objects[ticket.id] == ticket && ticket.kind.OneService?
      modifies ticket
      ensures Ready() && ticket.View() == old(ticket.View()).Touched(env.now)
      ensures Abs() == old(Abs()).(heap := old(Abs()).heap[ticket.id := ticket.View()])
      ensures valid == env.matches(service, ticket.kind.service)
    {
      ghost var before := Abs().heap;
      valid := ticket.IsValidFor(service, env.matches, env.now);
      OneChanged(objects, ticket, before);
      ForestKept(before, ticket.id, ticket.View());
    }

    /** One validation attempt on a live ticket. */
    method Attempt(env: Env, ticket: TicketObject, service: WebApplicationService, registered: RegisteredService)
      returns (r: Outcome)
      requires Ready() && ticket.id in objects && objects[ticket.id] == ticket && ticket.kind.OneService?
      modifies ticket
      ensures Ready()
      ensures var used := old(ticket.View()).Touched(env.now);
        && Abs() == old(Abs()).(heap := old(Abs()).heap[ticket.id := used])
        && r == ValidateOutcome(env, Abs().heap, used, service, registered)
    {
      var valid := Use(env, ticket, service);
      if !valid {
        return Failed(WrongService(ticket.kind.service));
      }
      var assertion := BuildAssertion(env, ticket, registered);
      return if assertion.None? then Failed(NullPointer) else Asserted(assertion.value);
    }

    /** Drops an expired ticket on the way out of a validation. */
    method Finish(env: Env, ticket: TicketObject)
      requires Ready() && ticket.id in objects && objects[ticket.id] == ticket && ticket.id in ticketRegistry.cache
      modifies ticketRegistry
      ensures Tracked() && Logged() && Abs() == Sweep(Settings(), env.now, old(Abs()), ticket.id)
    {
      var expired := ticket.IsExpired(env.now, objects);
      if expired {
        Drop(ticket.id);
      }
    }

    method ValidateServiceTicket(env: Env, id: TicketId, service: WebApplicationService) returns (r: Outcome)
      requires Ready()
      modifies ticketRegistry, objects.Values
      ensures Tracked() && Logged()
      ensures Reply(Abs(), r) == ValidateStep(Settings(), env, old(Abs()), id, service)
    {
      var lookup := Lookup(id, false);
      if lookup.OtherClass? {
        return Failed(ClassCast);
      }
      var registered := env.find(service);
      if registered.None? || !registered.value.enabled {
        return Failed(UnauthorizedService);
      }
      if lookup.NoTicket? {
        return Failed(InvalidTicket);
      }
      var ticket := lookup.ticket;
      var expired := ticket.IsExpired(env.now, objects);
      if expired {
        Finish(env, ticket);
        return Failed(InvalidTicket);
      }
      r := Attempt(env, ticket, service, registered.value);
      Finish(env, ticket);
    }

    /** Expires the ticket object; its services are logged out, the others stay as they are. */
    method ExpireAndNotify(ticket: TicketObject, delivered: WebApplicationService -> bool)
      requires Ready() && ticket.id in objects && objects[ticket.id] == ticket && ticket.kind.Granting?
      modifies ticket, ticket.kind.services.Values
      ensures Tracked() && KnowsServices()
      ensures HeapOf(objects) == Protocol.Expire(old(Abs()), ticket.id).heap
      ensures forall s :: s in known ==>
        s.Valid() && (s.loggedOutAlready <==> s in old(Abs()).loggedOut || s in old(ticket.kind).services.Values)
    {
      ghost var before := Abs();
      assert ticket.kind.services.Values <= known && before.heap[ticket.id] == ticket.View();
      ticket.Expire(delivered);
      OneChanged(objects, ticket, before.heap);
    }

    /** Brings the log up to date once `services` have been logged out. */
    ghost method LogMessages(services: set<WebApplicationService>, before: set<WebApplicationService>)
      requires Tracked() && KnowsServices() && services <= known && before <= known
      requires forall s :: s in known ==> s.Valid() && (s.loggedOutAlready <==> s in before || s in services)
      requires forall s :: s in known ==> sent[s] == if s in before && s.hasHttpClient then 1 else 0
      requires forall s :: s in sent ==> s in known
      modifies this`sent
      ensures Tracked() && Logged()
      ensures Abs() == State(HeapOf(objects), ticketRegistry.cache.Keys, before + (services - before),
                             old(sent) + multiset(Contacted(services - before)))
    {
      sent := sent + multiset(Contacted(services - before));
      assert LoggedOutOf(known) == before + (services - before);
    }

    /** Expires the ticket object; the log gains the messages of the services that were not logged out yet. */
    method ExpireTicket(ticket: TicketObject, delivered: WebApplicationService -> bool)
      requires Ready() && ticket.id in objects && objects[ticket.id] == ticket && ticket.kind.Granting?
      modifies this`sent, ticket, ticket.kind.services.Values
      ensures Tracked() && Logged() && Abs() == Protocol.Expire(old(Abs()), ticket.id)
    {
      ghost var services := ticket.kind.services.Values;
      ghost var loggedOut := LoggedOutOf(known);
      assert KnowsServicesOf(objects[ticket.id]);
      ExpireAndNotify(ticket, delivered);
      LogMessages(services, loggedOut);
    }

    method DestroyTicketGrantingTicket(id: TicketId, delivered: WebApplicationService -> bool) returns (r: Outcome)
      requires Ready()
      modifies this`sent, ticketRegistry, objects.Values, known
      ensures Tracked() && Logged()
      ensures Reply(Abs(), r) == DestroyStep(Settings(), old(Abs()), id)
    {
      var lookup := Lookup(id, true);
      match lookup
      case NoTicket => return Destroyed;
      case OtherClass => return Failed(ClassCast);
      case TheTicket(ticket) =>
        ExpireTicket(ticket, delivered);
        Drop(id);
        return Destroyed;
    }

    /** One call: the objects do what the protocol step says, and keep its invariant. */
    method Handle(env: Env, req: Request, delivered: WebApplicationService -> bool) returns (r: Outcome)
      requires Ready() && Inv(Settings(), Abs()) && Admissible(Abs().heap, req)
      requires req.Grant? ==> req.service.Valid() && (req.service in known || !req.service.loggedOutAlready)
      modifies this`objects, this`known, this`sent, ticketRegistry, objects.Values, known
      modifies (if req.Grant? then {req.service} else {})`principal
      ensures Ready() && Inv(Settings(), Abs())
      ensures Reply(Abs(), r) == Step(Settings(), env, old(Abs()), req)
      ensures req.Grant? && r.Issued? ==> KnowsUser(old(Abs()).heap, req.tgt, req.service)
      ensures fresh(objects.Values - old(objects.Values))
      ensures old(known) <= known <= old(known) + if req.Grant? then {req.service} else {}
    {
      ghost var st := Abs();
      match req {
        case Create(credentials, newId) => r := CreateTicketGrantingTicket(env, credentials, newId);
        case Grant(tgt, service, credentials, newId) => r := GrantServiceTicket(env, tgt, service, credentials, newId);
        case Delegate(id, credentials, newId) => r := DelegateTicketGrantingTicket(env, id, credentials, newId);
        case Validate(id, service) => r := ValidateServiceTicket(env, id, service);
        case Destroy(tgt) => r := DestroyTicketGrantingTicket(tgt, delivered);
      }
      StepKeeps(Settings(), env, st, req);
    }

    /** Service objects that the calls may use: known ones, or ones that nobody logged out. */
    ghost predicate Eligible(services: set<WebApplicationService>)
      reads this, services
    {
      known <= services && forall s :: s in services ==> s.Valid() && (s in known || !s.loggedOutAlready)
    }

    /** The next call of a run. */
    method Advance(ghost run: Run, call: Call, ghost i: nat, delivered: WebApplicationService -> bool,
                   ghost services: set<WebApplicationService>) returns (r: Outcome)
      requires run.Valid() && run.cfg == Settings() && i < |run.calls| && call == run.calls[i]
      requires Ready() && Abs() == run.states[i]
      requires Eligible(services) && (call.req.Grant? ==> call.req.service in services)
      modifies this`objects, this`known, this`sent, ticketRegistry, objects.Values, services
      ensures Ready() && Abs() == run.states[i + 1] && r == run.answers[i]
      ensures fresh(objects.Values - old(objects.Values))
      ensures Eligible(services)
    {
      Reachable(run, i);
      assert run.Happens(i);
      r := Handle(call.env, call.req, delivered);
    }

    /** The remaining calls of a run, in order. */
    method Continue(ghost run: Run, calls: seq<Call>, i: nat, delivered: WebApplicationService -> bool,
                    ghost services: set<WebApplicationService>) returns (answers: seq<Outcome>)
      requires run.Valid() && run.cfg == Settings() && run.calls == calls && i <= |calls|
      requires Ready() && Abs() == run.states[i]
      requires Eligible(services) && forall k :: 0 <= k < |calls| && calls[k].req.Grant? ==> calls[k].req.service in services
      modifies this`objects, this`known, this`sent, ticketRegistry, objects.Values, services
      ensures Ready() && Abs() == run.states[|calls|] && answers == run.answers[i..]
      decreases |calls| - i
    {
      if i == |calls| {
        return [];
      }
      var answer := Advance(run, calls[i], i, delivered, services);
      var rest := Continue(run, calls, i + 1, delivered, services);
      return [answer] + rest;
    }

    /**
     * A whole run from the empty service on: the objects give the answers that the protocol
     * gives, and end in its last state. So everything proved about runs holds of the objects.
     */
    method Process(calls: seq<Call>, delivered: WebApplicationService -> bool) returns (answers: seq<Outcome>)
      requires Ready() && Abs() == INITIAL && Legal(calls) && objects == map[]
      requires Eligible(ServicesOf(calls))
      modifies this`objects, this`known, this`sent, ticketRegistry, ServicesOf(calls)
      ensures Ready() && answers == Execute(Settings(), calls).answers
      ensures Abs() == Execute(Settings(), calls).states[|calls|]
    {
      answers := Continue(Execute(Settings(), calls), calls, 0, delivered, ServicesOf(calls));
    }
  }
}
