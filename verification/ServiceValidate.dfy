/** The controller that answers validation requests, over the service on ticket objects. */
module ServiceValidate {
  import opened Domain
  import opened Tickets
  import opened Protocol
  import opened Steps
  import opened Validation
  import opened CentralAuthenticationService

  class ServiceValidateController {
    const centralAuthenticationService: CentralAuthenticationServiceImpl
    const validationSpecification: Specification

    constructor (centralAuthenticationService: CentralAuthenticationServiceImpl, validationSpecification: Specification)
      ensures this.centralAuthenticationService == centralAuthenticationService
      ensures this.validationSpecification == validationSpecification
    {
      this.centralAuthenticationService := centralAuthenticationService;
      this.validationSpecification := validationSpecification;
    }

    /** What the service and the environment are when a request comes in. */
    ghost predicate Ready()
      reads centralAuthenticationService, centralAuthenticationService.ticketRegistry
      reads centralAuthenticationService.objects.Values, centralAuthenticationService.known
    {
      var cas := centralAuthenticationService;
      cas.Ready() && Inv(cas.Settings(), cas.Abs())
    }

    /** The proxy-granting ticket, or the view of a failure that ends the request. */
    method Delegate(env: Env, id: TicketId, callback: Option<Credentials>, newId: TicketId)
      returns (pgt: Option<TicketId>, ends: Option<View>)
      requires Ready() && newId !in centralAuthenticationService.Abs().heap && IsTgtId(newId)
      modifies centralAuthenticationService`objects, centralAuthenticationService`known, centralAuthenticationService`sent
      modifies centralAuthenticationService.ticketRegistry, centralAuthenticationService.objects.Values
      modifies centralAuthenticationService.known
      ensures Ready()
      ensures var cas := centralAuthenticationService;
        match callback
        case None => cas.Abs() == old(cas.Abs()) && pgt == None && ends == None
        case Some(c) =>
          var reply := Step(cas.Settings(), env, old(cas.Abs()), Request.Delegate(id, c, newId));
          && cas.Abs() == reply.state && ends == AfterDelegation(reply.outcome)
          && pgt == if reply.outcome.Issued? then Some(reply.outcome.id) else None
      ensures fresh(centralAuthenticationService.objects.Values - old(centralAuthenticationService.objects.Values))
      ensures centralAuthenticationService.known == old(centralAuthenticationService.known)
    {
      pgt, ends := None, None;
      if callback.Some? {
        var outcome := centralAuthenticationService.Handle(env, Request.Delegate(id, callback.value, newId), _ => true);
        match outcome {
          case Issued(issued) => pgt := Some(issued);
          case Failed(e) =>
            if !IsTicketException(e) {
              ends := Some(if IsUnauthorizedService(e) then Failure(e) else Escapes(e));
            }
          case _ =>
        }
      }
    }

    /** Delegates if a callback came along, validates, and checks the specification. */
    method HandleRequestInternal(first: Env, second: Env, id: Option<TicketId>, service: Option<WebApplicationService>,
                                 callback: Option<Credentials>, newId: TicketId) returns (view: View)
      requires Ready() && newId !in centralAuthenticationService.Abs().heap && IsTgtId(newId)
      modifies centralAuthenticationService`objects, centralAuthenticationService`known, centralAuthenticationService`sent
      modifies centralAuthenticationService.ticketRegistry, centralAuthenticationService.objects.Values
      modifies centralAuthenticationService.known
      ensures Ready()
      ensures var cas := centralAuthenticationService;
        if id.None? || service.None? then view == InvalidRequest && cas.Abs() == old(cas.Abs())
        else Response(cas.Abs(), view) == HandleRequest(cas.Settings(), first, second, old(cas.Abs()), id.value, service.value,
                                                        callback, newId, validationSpecification)
    {
      if service.None? || id.None? {
        return InvalidRequest;
      }
      var pgt, ends := Delegate(first, id.value, callback, newId);
      if ends.Some? {
        return ends.value;
      }
      var outcome := centralAuthenticationService.Handle(second, Validate(id.value, service.value), _ => true);
      match outcome
      case Asserted(assertion) =>
        return if validationSpecification.SatisfiedBy(assertion) then Success(assertion, pgt) else FailureSpec;
      case Failed(e) =>
        return if IsTicketException(e) || IsUnauthorizedService(e) then Failure(e) else Escapes(e);
      case _ =>
        return FailureSpec;
    }
  }
}
