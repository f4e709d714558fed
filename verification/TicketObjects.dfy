/** Ticket objects as the program holds them: mutable, and linked by references to their parents. */
module TicketObjects {
  import opened Domain
  import opened Expiration
  import opened Tickets

  /**
   * The abstract ticket with its two subclasses: `kind` holds the fields of the
   * subclass that the object belongs to.
   */
  class TicketObject {
    const id: TicketId
    const expirationPolicy: Policy
    const ticketGrantingTicket: TicketObject?
    const creationTime: int
    ghost const depth: nat
    var lastTimeUsed: int
    var previousLastTimeUsed: int
    var countOfUses: nat
    var kind: Kind

    /** The ticket without its identity. */
    ghost function View(): Ticket
      reads this
    {
      Ticket(expirationPolicy, if ticketGrantingTicket == null then None else Some(ticketGrantingTicket.id), depth,
             creationTime, Usage(lastTimeUsed, previousLastTimeUsed, countOfUses), kind)
    }

    constructor (id: TicketId, parent: TicketObject?, policy: Policy, kind: Kind, now: int)
      ensures this.id == id && ticketGrantingTicket == parent
      ensures View() == Ticket(policy, if parent == null then None else Some(parent.id),
                               if parent == null then 0 else parent.depth + 1, now, Usage(now, 0, 0), kind)
    {
      this.id := id;
      expirationPolicy := policy;
      ticketGrantingTicket := parent;
      creationTime := now;
      depth := if parent == null then 0 else parent.depth + 1;
      lastTimeUsed := now;
      previousLastTimeUsed := 0;
      countOfUses := 0;
      this.kind := kind;
    }

    method UpdateState(now: int)
      modifies this`previousLastTimeUsed, this`lastTimeUsed, this`countOfUses
      ensures View() == old(View()).Touched(now)
    {
      previousLastTimeUsed := lastTimeUsed;
      lastTimeUsed := now;
      countOfUses := countOfUses + 1;
    }

    /** Own policy, then the parent's verdict, then the flag of a destroyed granting ticket. */
    method IsExpired(now: int, ghost objects: map<TicketId, TicketObject>) returns (expired: bool)
      requires Linked(objects) && id in objects && objects[id] == this
      ensures expired == Expired(HeapOf(objects), id, now)
      decreases depth
    {
      LinkedUp(objects, id);
      assert LinkedAt(objects, id);
      var authentication := if kind.Granting? then Some(kind.authentication) else None;
      if expirationPolicy.Expires(creationTime, Usage(lastTimeUsed, previousLastTimeUsed, countOfUses), authentication, now) {
        return true;
      }
      if ticketGrantingTicket != null {
        var inherited := ticketGrantingTicket.IsExpired(now, objects);
        if inherited {
          return true;
        }
      }
      return kind.Granting? && kind.expired;
    }

    /** The authentications from this ticket up to its root, nearest first. */
    method GetChainedAuthentications(ghost objects: map<TicketId, TicketObject>) returns (list: seq<Authentication>)
      requires Linked(objects) && id in objects && objects[id] == this
      requires Forest(HeapOf(objects)) && kind.Granting?
      ensures list == Chain(HeapOf(objects), id)
      decreases depth
    {
      LinkedUp(objects, id);
      assert LinkedAt(objects, id);
      assert Rooted(HeapOf(objects), id);
      list := [kind.authentication];
      if ticketGrantingTicket != null {
        var above := ticketGrantingTicket.GetChainedAuthentications(objects);
        list := list + above;
      }
    }

    /** Grants a ticket for `service`, which learns the user at the root of the chain. */
    method GrantServiceTicket(newId: TicketId, service: WebApplicationService, policy: Policy, credentialsProvided: bool,
                              now: int, ghost objects: map<TicketId, TicketObject>)
      returns (granted: TicketObject)
      requires Linked(objects) && id in objects && objects[id] == this
      requires Forest(HeapOf(objects)) && kind.Granting?
      modifies this, service`principal
      ensures kind.Granting? && granted.kind.OneService?
      ensures fresh(granted) && granted.id == newId && granted.ticketGrantingTicket == this
      ensures granted.View() == Ticket(policy, Some(id), depth + 1, now, Usage(now, 0, 0),
        OneService(service, old(countOfUses) == 0 || credentialsProvided, false))
      ensures View() == old(View()).Touched(now).(kind := old(kind).(services := old(kind).services[newId := service]))
      ensures var chain := old(Chain(HeapOf(objects), id));
        |chain| > 0 && service.principal == Some(chain[|chain| - 1].principal)
    {
      ghost var before := HeapOf(objects);
      granted := new TicketObject(newId, this, policy, OneService(service, countOfUses == 0 || credentialsProvided, false), now);
      UpdateState(now);
      OneChanged(objects, this, before);
      ForestKept(before, id, View());
      SameKindSameChain(before, HeapOf(objects), id);
      var authentications := GetChainedAuthentications(objects);
      ChainShape(before, id);
      service.SetPrincipal(authentications[|authentications| - 1].principal);
      kind := kind.(services := kind.services[newId := service]);
    }

    /** Marks the ticket as expired and logs out of the services it granted access to, in any order. */
    method Expire(delivered: WebApplicationService -> bool)
      requires kind.Granting?
      requires forall s :: s in kind.services.Values ==> s.Valid()
      modifies this`kind, kind.services.Values
      ensures View() == old(View()).(kind := old(kind).(expired := true))
      ensures forall s :: s in kind.services.Values ==> s.Valid() && s.loggedOutAlready
      ensures forall s :: s in kind.services.Values ==>
        s.messages == old(s.messages) + if !old(s.loggedOutAlready) && s.hasHttpClient then 1 else 0
    {
      kind := kind.(expired := true);
      var services := kind.services;
      var rest := services.Keys;
      while rest != {}
        invariant rest <= services.Keys && kind == old(kind).(expired := true)
        invariant forall s :: s in services.Values ==> s.Valid()
        invariant forall id :: id in services && id !in rest ==> services[id].loggedOutAlready
        invariant forall s :: s in services.Values ==>
          (old(s.loggedOutAlready) ==> s.loggedOutAlready) &&
          s.messages == old(s.messages) + if !old(s.loggedOutAlready) && s.loggedOutAlready && s.hasHttpClient then 1 else 0
        decreases rest
      {
        var session :| session in rest;
        var service := services[session];
        assert service in services.Values;
        var done := service.LogOutOfService(session, delivered(service));
        rest := rest - {session};
      }
      forall s | s in services.Values ensures s.loggedOutAlready {
        var session :| session in services && services[session] == s;
        assert services[session].loggedOutAlready;
      }
    }

    /** Counts the attempt, whoever makes it, before it compares the services. */
    method IsValidFor(service: WebApplicationService, matches: (WebApplicationService, WebApplicationService) -> bool, now: int)
      returns (valid: bool)
      requires kind.OneService?
      modifies this
      ensures View() == old(View()).Touched(now) && kind.OneService?
      ensures valid == matches(service, old(kind).service)
    {
      UpdateState(now);
      return matches(service, kind.service);
    }

    /** Grants one proxy-granting ticket; a second attempt is an illegal state. */
    method GrantTicketGrantingTicket(newId: TicketId, authentication: Authentication, policy: Policy, now: int)
      returns (granted: Option<TicketObject>)
      requires kind.OneService?
      modifies this`kind
      ensures granted.Some? <==> !old(kind).grantedAlready
      ensures View() == old(View()).(kind := old(kind).(grantedAlready := true))
      ensures granted.None? ==> View() == old(View())
      ensures granted.Some? ==>
        && fresh(granted.value) && granted.value.id == newId
        && granted.value.ticketGrantingTicket == ticketGrantingTicket
        && granted.value.View() == Ticket(policy, View().parent,
             if ticketGrantingTicket == null then 0 else ticketGrantingTicket.depth + 1, now, Usage(now, 0, 0),
             Granting(authentication, false, map[]))
    {
      if kind.grantedAlready {
        return None;
      }
      kind := kind.(grantedAlready := true);
      var t := new TicketObject(newId, ticketGrantingTicket, policy, Granting(authentication, false, map[]), now);
      return Some(t);
    }
  }

  // ---- The objects as one value ---------------------------------------------------------

  /** The heap of all ticket objects, by identifier. */
  ghost function HeapOf(objects: map<TicketId, TicketObject>): Heap
    reads objects.Values
  {
    map id | id in objects :: objects[id].View()
  }

  /** Identifiers and references name the same objects, and references lead upwards. */
  ghost predicate Linked(objects: map<TicketId, TicketObject>) {
    forall id {:trigger LinkedAt(objects, id)} :: id in objects ==> LinkedAt(objects, id)
  }

  ghost predicate LinkedAt(objects: map<TicketId, TicketObject>, id: TicketId)
    requires id in objects
  {
    var t := objects[id];
    && t.id == id
    && (t.ticketGrantingTicket != null ==>
          && t.ticketGrantingTicket.id in objects
          && objects[t.ticketGrantingTicket.id] == t.ticketGrantingTicket
          && t.ticketGrantingTicket.depth < t.depth)
  }

  lemma LinkedUp(objects: map<TicketId, TicketObject>, id: TicketId)
    requires Linked(objects) && id in objects
    ensures var p := objects[id].ticketGrantingTicket;
      Up(HeapOf(objects), id) == if p == null then None else Some(p.id)
  {
    assert LinkedAt(objects, id);
  }

  /** A change to one object changes the heap at its identifier only. */
  lemma OneChanged(objects: map<TicketId, TicketObject>, ticket: TicketObject, before: Heap)
    requires Linked(objects) && ticket.id in objects && objects[ticket.id] == ticket && before.Keys == objects.Keys
    requires forall id {:trigger objects[id]} :: id in objects && objects[id] != ticket ==> objects[id].View() == before[id]
    ensures HeapOf(objects) == before[ticket.id := ticket.View()]
  {
    forall id | id in objects && id != ticket.id ensures objects[id].View() == before[id] {
      assert LinkedAt(objects, id);
    }
  }

  lemma LinkedGrows(objects: map<TicketId, TicketObject>, ticket: TicketObject)
    requires Linked(objects) && ticket.id !in objects && LinkedAt(objects[ticket.id := ticket], ticket.id)
    ensures Linked(objects[ticket.id := ticket])
  {
    var next := objects[ticket.id := ticket];
    forall id | id in next ensures LinkedAt(next, id) {
      if id in objects {
        assert LinkedAt(objects, id);
      }
    }
  }

  lemma HeapGrows(objects: map<TicketId, TicketObject>, ticket: TicketObject)
    ensures HeapOf(objects[ticket.id := ticket]) == HeapOf(objects)[ticket.id := ticket.View()]
  {
  }
}
