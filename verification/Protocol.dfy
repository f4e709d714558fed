/** The five operations of the central authentication service, as steps on one state. */
module Protocol {
  import opened Domain
  import opened Expiration
  import opened Tickets

  /** How the registry deletes a granting ticket: alone, or with everything below it. */
  datatype Mode = Lazy | Cascade

  datatype Config = Config(mode: Mode, tgtPolicy: Policy, stPolicy: Policy)

  /** What lies outside the service during one call: the clock, the service registry, authentication. */
  datatype Env = Env(
    now: int,
    find: WebApplicationService -> Option<RegisteredService>,
    authenticate: Credentials -> Option<Authentication>,
    matches: (WebApplicationService, WebApplicationService) -> bool,
    persistentId: (Principal, WebApplicationService) -> string)

  datatype State = State(
    heap: Heap,
    registry: set<TicketId>,
    loggedOut: set<WebApplicationService>,
    sent: multiset<WebApplicationService>)

  /** The `newId` of a request is the identifier the generator hands out if it is asked. */
  datatype Request =
    | Create(credentials: Credentials, newId: TicketId)
    | Grant(tgt: TicketId, service: WebApplicationService, optional: Option<Credentials>, newId: TicketId)
    | Delegate(st: TicketId, credentials: Credentials, newId: TicketId)
    | Validate(st: TicketId, service: WebApplicationService)
    | Destroy(tgt: TicketId)

  datatype Assertion = Assertion(chain: seq<Authentication>, service: WebApplicationService, fromNewLogin: bool)

  datatype Error =
    | InvalidTicket
    | WrongService(original: WebApplicationService)
    | TicketCreation
    | UnauthorizedService
    | UnauthorizedSso
    | UnauthorizedProxying
    | AlreadyGranted
    | ClassCast
    | NullPointer

  datatype Outcome = Issued(id: TicketId) | Asserted(assertion: Assertion) | Destroyed | Failed(error: Error)

  datatype Reply = Reply(state: State, outcome: Outcome)

  const INITIAL := State(map[], {}, {}, multiset{})

  // ---- Registry ------------------------------------------------------------------

  datatype Lookup = Missing | WrongClass | Found

  /** The cascading registry looks into the table that the prefix of the identifier names. */
  predicate Stored(cfg: Config, st: State, id: TicketId) {
    id in st.registry && id in st.heap && (cfg.mode.Cascade? ==> (IsTgtId(id) <==> st.heap[id].kind.Granting?))
  }

  function Find(cfg: Config, st: State, id: TicketId, granting: bool): Lookup {
    if !Stored(cfg, st, id) then Missing
    else if st.heap[id].kind.Granting? != granting then WrongClass
    else Found
  }

  function Delete(cfg: Config, st: State, id: TicketId): State {
    if !Stored(cfg, st, id) then st
    else if cfg.mode.Lazy? || st.heap[id].kind.OneService? then st.(registry := st.registry - {id})
    else st.(registry := st.registry - Subtree(st.heap, id))
  }

  function Put(st: State, id: TicketId, t: Ticket): State {
    st.(heap := st.heap[id := t], registry := st.registry + {id})
  }

  // ---- Tickets -------------------------------------------------------------------

  function NewRoot(cfg: Config, now: int, a: Authentication): Ticket {
    Ticket(cfg.tgtPolicy, None, 0, now, Usage(now, 0, 0), Granting(a, false, map[]))
  }

  function NewServiceTicket(cfg: Config, now: int, tgt: TicketId, t: Ticket,
                            service: WebApplicationService, credentialsProvided: bool): Ticket {
    Ticket(cfg.stPolicy, Some(tgt), t.depth + 1, now, Usage(now, 0, 0),
           OneService(service, t.usage.uses == 0 || credentialsProvided, false))
  }

  /** A proxy-granting ticket hangs below the ticket that granted the service ticket. */
  function NewProxyGranting(cfg: Config, now: int, st: Ticket, a: Authentication): Ticket {
    Ticket(cfg.tgtPolicy, st.parent, st.depth, now, Usage(now, 0, 0), Granting(a, false, map[]))
  }

  function WithService(t: Ticket, id: TicketId, service: WebApplicationService): Ticket
    requires t.kind.Granting?
  {
    t.(kind := t.kind.(services := t.kind.services[id := service]))
  }

  /** A logout message goes out only through an HTTP client. */
  function Contacted(services: set<WebApplicationService>): set<WebApplicationService> {
    set s | s in services && s.hasHttpClient
  }

  function Expire(st: State, tgt: TicketId): State
    requires tgt in st.heap && st.heap[tgt].kind.Granting?
  {
    var t := st.heap[tgt];
    var pending := t.kind.services.Values - st.loggedOut;
    st.(heap := st.heap[tgt := t.(kind := t.kind.(expired := true))],
        loggedOut := st.loggedOut + pending,
        sent := st.sent + multiset(Contacted(pending)))
  }

  // ---- Released attributes ---------------------------------------------------------

  /** What the registered service may see of the user's attributes. */
  function Released(p: Principal, rs: RegisteredService): map<string, AttrValue> {
    if rs.ignoreAttributes then p.attributes
    else map k | k in p.attributes && k in rs.allowedAttributes && p.attributes[k] != NullValue :: p.attributes[k]
  }

  /** The released user name; None where the code dereferences a null attribute value. */
  function ReleasedId(env: Env, p: Principal, rs: RegisteredService, service: WebApplicationService): Option<string> {
    if rs.anonymousAccess then Some(env.persistentId(p, service))
    else if rs.usernameAttribute.None? then Some(p.id)
    else
      var name := rs.usernameAttribute.value;
      if (rs.ignoreAttributes || name in rs.allowedAttributes) && name in p.attributes
      then p.attributes[name].Print()
      else Some(p.id)
  }

  /** The root authentication as the service sees it. */
  function Disclosed(a: Authentication, rs: RegisteredService, id: string): Authentication {
    Authentication(Principal(id, Released(a.principal, rs)), if rs.ignoreAttributes then map[] else a.attributes, a.date)
  }

  function AssertionFor(env: Env, h: Heap, st: Ticket, rs: RegisteredService): Option<Assertion>
    requires st.kind.OneService?
  {
    var chain := if st.parent.Some? then Chain(h, st.parent.value) else [];
    if chain == [] then None
    else
      var user := chain[|chain| - 1];
      match ReleasedId(env, user.principal, rs, st.kind.service)
      case None => None
      case Some(id) =>
        Some(Assertion(chain[..|chain| - 1] + [Disclosed(user, rs, id)], st.kind.service, st.kind.fromNewLogin))
  }

  // ---- Operations -------------------------------------------------------------------

  function CreateStep(cfg: Config, env: Env, st: State, credentials: Credentials, newId: TicketId): Reply {
    match env.authenticate(credentials)
    case None => Reply(st, Failed(TicketCreation))
    case Some(a) => Reply(Put(st, newId, NewRoot(cfg, env.now, a)), Issued(newId))
  }

  predicate FindsEnabled(env: Env, service: WebApplicationService) {
    env.find(service).Some? && env.find(service).value.enabled
  }

  predicate Confirmed(env: Env, credentials: Credentials, original: Authentication) {
    match env.authenticate(credentials)
    case None => false
    case Some(a) => SamePrincipal(a.principal, original.principal) && a.attributes == original.attributes
  }

  /** Why a live granting ticket does not serve this request; None when it does. */
  function GrantRefusal(env: Env, h: Heap, tgt: TicketId, service: WebApplicationService,
                        credentials: Option<Credentials>): Option<Error>
    requires tgt in h && h[tgt].kind.Granting?
  {
    match env.find(service)
    case None => Some(UnauthorizedService)
    case Some(rs) =>
      if !rs.enabled then Some(UnauthorizedService)
      else if !rs.ssoEnabled && credentials.None? && h[tgt].usage.uses > 0 then Some(UnauthorizedSso)
      else if |Chain(h, tgt)| > 1 && !rs.allowedToProxy then Some(UnauthorizedProxying)
      else if credentials.Some? && !Confirmed(env, credentials.value, h[tgt].kind.authentication) then Some(TicketCreation)
      else None
  }

  /** A live granting ticket refuses, or counts the use and grants. */
  function GrantLive(cfg: Config, env: Env, st: State, tgt: TicketId, service: WebApplicationService,
                     credentials: Option<Credentials>, newId: TicketId): Reply
    requires tgt in st.heap && st.heap[tgt].kind.Granting?
  {
    match GrantRefusal(env, st.heap, tgt, service, credentials)
    case Some(e) => Reply(st, Failed(e))
    case None =>
      var t := st.heap[tgt];
      var granting := WithService(t.Touched(env.now), newId, service);
      var granted := NewServiceTicket(cfg, env.now, tgt, t, service, credentials.Some?);
      Reply(Put(st.(heap := st.heap[tgt := granting]), newId, granted), Issued(newId))
  }

  function GrantStep(cfg: Config, env: Env, st: State, tgt: TicketId, service: WebApplicationService,
                     credentials: Option<Credentials>, newId: TicketId): Reply {
    match Find(cfg, st, tgt, true)
    case Missing => Reply(st, Failed(InvalidTicket))
    case WrongClass => Reply(st, Failed(ClassCast))
    case Found =>
      if Expired(st.heap, tgt, env.now) then Reply(Delete(cfg, st, tgt), Failed(InvalidTicket))
      else GrantLive(cfg, env, st, tgt, service, credentials, newId)
  }

  predicate MayProxy(env: Env, service: WebApplicationService) {
    FindsEnabled(env, service) && env.find(service).value.allowedToProxy
  }

  function DelegateStep(cfg: Config, env: Env, st: State, id: TicketId, credentials: Credentials,
                        newId: TicketId): Reply {
    match env.authenticate(credentials)
    case None => Reply(st, Failed(TicketCreation))
    case Some(a) =>
      match Find(cfg, st, id, false)
      case Missing => Reply(st, Failed(InvalidTicket))
      case WrongClass => Reply(st, Failed(ClassCast))
      case Found =>
        var t := st.heap[id];
        if Expired(st.heap, id, env.now) then Reply(st, Failed(InvalidTicket))
        else if !MayProxy(env, t.kind.service) then Reply(st, Failed(UnauthorizedProxying))
        else if t.kind.grantedAlready then Reply(st, Failed(AlreadyGranted))
        else
          var used := t.(kind := t.kind.(grantedAlready := true));
          Reply(Put(st.(heap := st.heap[id := used]), newId, NewProxyGranting(cfg, env.now, t, a)), Issued(newId))
  }

  /** Validation ends by dropping the ticket from the registry if it is expired by then. */
  function Sweep(cfg: Config, now: int, st: State, id: TicketId): State {
    if Expired(st.heap, id, now) then Delete(cfg, st, id) else st
  }

  function ValidateOutcome(env: Env, h: Heap, t: Ticket, service: WebApplicationService, rs: RegisteredService): Outcome
    requires t.kind.OneService?
  {
    if !env.matches(service, t.kind.service) then Failed(WrongService(t.kind.service))
    else match AssertionFor(env, h, t, rs)
      case None => Failed(NullPointer)
      case Some(a) => Asserted(a)
  }

  function ValidateStep(cfg: Config, env: Env, st: State, id: TicketId, service: WebApplicationService): Reply {
    var lookup := Find(cfg, st, id, false);
    if lookup.WrongClass? then Reply(st, Failed(ClassCast))
    else match env.find(service)
      case None => Reply(st, Failed(UnauthorizedService))
      case Some(rs) =>
        if !rs.enabled then Reply(st, Failed(UnauthorizedService))
        else if lookup.Missing? then Reply(st, Failed(InvalidTicket))
        else if Expired(st.heap, id, env.now) then Reply(Delete(cfg, st, id), Failed(InvalidTicket))
        else
          var used := st.heap[id].Touched(env.now);
          var next := st.(heap := st.heap[id := used]);
          Reply(Sweep(cfg, env.now, next, id), ValidateOutcome(env, next.heap, used, service, rs))
  }

  function DestroyStep(cfg: Config, st: State, tgt: TicketId): Reply {
    match Find(cfg, st, tgt, true)
    case Missing => Reply(st, Destroyed)
    case WrongClass => Reply(st, Failed(ClassCast))
    case Found => Reply(Delete(cfg, Expire(st, tgt), tgt), Destroyed)
  }

  function Step(cfg: Config, env: Env, st: State, req: Request): Reply {
    match req
    case Create(credentials, newId) => CreateStep(cfg, env, st, credentials, newId)
    case Grant(tgt, service, credentials, newId) => GrantStep(cfg, env, st, tgt, service, credentials, newId)
    case Delegate(id, credentials, newId) => DelegateStep(cfg, env, st, id, credentials, newId)
    case Validate(id, service) => ValidateStep(cfg, env, st, id, service)
    case Destroy(tgt) => DestroyStep(cfg, st, tgt)
  }
}
