/** Tickets that write themselves back: the view on a ticket that a distributed registry hands out. */
module DistributedTickets {
  import opened Domain
  import opened Expiration
  import opened Tickets
  import opened Protocol
  import opened JpaRegistry

  class TicketDelegator {
    const ticketRegistry: JpaTicketRegistry
    const id: TicketId
    var ticket: Ticket

    /** The row in the registry is the ticket at hand. */
    ghost predicate Valid()
      reads this, ticketRegistry
    {
      var rows := ticketRegistry.Rows();
      ticketRegistry.Valid() && Forest(rows) && id in rows && rows[id] == ticket
    }

    constructor (ticketRegistry: JpaTicketRegistry, id: TicketId, ticket: Ticket)
      requires ticketRegistry.Valid() && Forest(ticketRegistry.Rows())
      requires id in ticketRegistry.Rows() && ticketRegistry.Rows()[id] == ticket
      ensures Valid() && this.ticketRegistry == ticketRegistry && this.id == id && this.ticket == ticket
    {
      this.ticketRegistry := ticketRegistry;
      this.id := id;
      this.ticket := ticket;
    }

    method UpdateTicket()
      requires ticketRegistry.Valid() && (IsTgtId(id) <==> ticket.kind.Granting?)
      modifies ticketRegistry
      ensures ticketRegistry.Valid() && ticketRegistry.Rows() == old(ticketRegistry.Rows())[id := ticket]
    {
      ticketRegistry.Write(id, ticket);
    }

    /** Without callbacks the parents are the rows that the ticket refers to. */
    method IsExpired(now: int) returns (expired: bool)
      requires Valid()
      ensures expired == Expired(ticketRegistry.Rows(), id, now)
      decreases ticket.depth
    {
      ForestLinks(ticketRegistry.Rows(), id);
      assert Rooted(ticketRegistry.Rows(), id);
      if ticket.policy.Expires(ticket.created, ticket.usage, ticket.Authenticated(), now) {
        return true;
      }
      var granting := GetGrantingTicket();
      if granting.Some? {
        var inherited := granting.value.IsExpired(now);
        if inherited {
          return true;
        }
      }
      return ticket.kind.Granting? && ticket.kind.expired;
    }

    method GetGrantingTicket() returns (r: Option<TicketDelegator>)
      requires Valid()
      ensures match r
        case None => ticket.parent == None
        case Some(granting) =>
          && granting.Valid() && granting.ticketRegistry == ticketRegistry
          && ticket.parent == Some(granting.id) && granting.ticket.kind.Granting?
          && granting.ticket.depth + 1 == ticket.depth
    {
      assert Rooted(ticketRegistry.Rows(), id);
      if ticket.parent.None? {
        return None;
      }
      var parent := ticketRegistry.GetRawTicket(ticket.parent.value);
      var granting := new TicketDelegator(ticketRegistry, ticket.parent.value, parent.value);
      return Some(granting);
    }

    method GetChainedAuthentications() returns (list: seq<Authentication>)
      requires Valid() && ticket.kind.Granting?
      ensures list == Chain(ticketRegistry.Rows(), id)
      decreases ticket.depth
    {
      ForestLinks(ticketRegistry.Rows(), id);
      list := [ticket.kind.authentication];
      var granting := GetGrantingTicket();
      if granting.Some? {
        var above := granting.value.GetChainedAuthentications();
        list := list + above;
      }
    }

    method IsValidFor(service: WebApplicationService, matches: (WebApplicationService, WebApplicationService) -> bool, now: int)
      returns (valid: bool)
      requires Valid() && ticket.kind.OneService?
      modifies this`ticket, ticketRegistry
      ensures Valid() && ticket == old(ticket).Touched(now)
      ensures ticketRegistry.Rows() == old(ticketRegistry.Rows())[id := ticket]
      ensures valid == matches(service, ticket.kind.service)
    {
      ForestKept(ticketRegistry.Rows(), id, ticket.Touched(now));
      ticket := ticket.Touched(now);
      valid := matches(service, ticket.kind.service);
      UpdateTicket();
    }

    /** The illegal state of a second grant is reported before anything is written. */
    method GrantTicketGrantingTicket(authentication: Authentication, policy: Policy, now: int)
      returns (granted: Option<Ticket>)
      requires Valid() && ticket.kind.OneService?
      modifies this`ticket, ticketRegistry
      ensures Valid()
      ensures granted.None? <==> old(ticket).kind.grantedAlready
      ensures granted.None? ==> ticketRegistry.Rows() == old(ticketRegistry.Rows())
      ensures granted.Some? ==>
        && granted.value == Ticket(policy, old(ticket).parent, old(ticket).depth, now, Usage(now, 0, 0),
                                   Granting(authentication, false, map[]))
        && ticketRegistry.Rows() == old(ticketRegistry.Rows())[id := ticket]
        && ticket == old(ticket).(kind := old(ticket).kind.(grantedAlready := true))
    {
      if ticket.kind.grantedAlready {
        return None;
      }
      ForestKept(ticketRegistry.Rows(), id, ticket.(kind := ticket.kind.(grantedAlready := true)));
      ticket := ticket.(kind := ticket.kind.(grantedAlready := true));
      granted := Some(Ticket(policy, ticket.parent, ticket.depth, now, Usage(now, 0, 0),
                             Granting(authentication, false, map[])));
      UpdateTicket();
    }

    /** The service at hand learns the user at the root, as from a ticket object. */
    method GrantServiceTicket(newId: TicketId, service: WebApplicationService, policy: Policy, credentialsProvided: bool,
                              now: int) returns (granted: Ticket)
      requires Valid() && ticket.kind.Granting?
      modifies this`ticket, ticketRegistry, service`principal
      ensures Valid() && ticket.kind.Granting?
      ensures granted == Ticket(policy, Some(id), ticket.depth + 1, now, Usage(now, 0, 0),
                                OneService(service, old(ticket).usage.uses == 0 || credentialsProvided, false))
      ensures ticket == WithService(old(ticket).Touched(now), newId, service)
      ensures ticketRegistry.Rows() == old(ticketRegistry.Rows())[id := ticket]
      ensures var chain := old(Chain(ticketRegistry.Rows(), id));
        |chain| > 0 && service.principal == Some(chain[|chain| - 1].principal)
    {
      granted := Ticket(policy, Some(id), ticket.depth + 1, now, Usage(now, 0, 0),
                        OneService(service, ticket.usage.uses == 0 || credentialsProvided, false));
      var authentications := GetChainedAuthentications();
      ChainShape(ticketRegistry.Rows(), id);
      service.SetPrincipal(authentications[|authentications| - 1].principal);
      var used := WithService(ticket.Touched(now), newId, service);
      ForestKept(ticketRegistry.Rows(), id, used);
      ticket := used;
      UpdateTicket();
    }

    /** Logging out of the services is not part of the rows. */
    method Expire()
      requires Valid() && ticket.kind.Granting?
      modifies this`ticket, ticketRegistry
      ensures Valid() && ticket == old(ticket).(kind := old(ticket).kind.(expired := true))
      ensures ticketRegistry.Rows() == old(ticketRegistry.Rows())[id := ticket]
    {
      ForestKept(ticketRegistry.Rows(), id, ticket.(kind := ticket.kind.(expired := true)));
      ticket := ticket.(kind := ticket.kind.(expired := true));
      UpdateTicket();
    }
  }
}
