/** The values that tickets, requests and answers are made of. */
module Domain {

  datatype Option<+T> = None | Some(value: T)

  /** Ticket identifiers are strings whose prefix tells the kind of the ticket. */
  type TicketId = string

  const TGT_PREFIX := "TGT"
  const ST_PREFIX := "ST"

  predicate IsTgtId(id: TicketId) {
    TGT_PREFIX <= id
  }

  /** What an attribute map can hold: the code distinguishes null, booleans and printable objects. */
  datatype AttrValue = NullValue | Flag(on: bool) | Text(text: string)
  {
    /** `Object.toString`, which a null value does not have. */
    function Print(): Option<string> {
      match this
      case NullValue => None
      case Flag(on) => Some(if on then "true" else "false")
      case Text(text) => Some(text)
    }
  }

  datatype Principal = Principal(id: string, attributes: map<string, AttrValue>)

  /** Principals are equal when their ids are. */
  predicate SamePrincipal(p: Principal, q: Principal) {
    p.id == q.id
  }

  datatype Authentication = Authentication(principal: Principal, attributes: map<string, AttrValue>, date: int)

  const REMEMBER_ME := "org.jasig.cas.authentication.principal.REMEMBER_ME"

  predicate Remembered(a: Authentication) {
    REMEMBER_ME in a.attributes && a.attributes[REMEMBER_ME] !in {NullValue, Flag(false)}
  }

  datatype Credentials = Credentials(token: string)

  datatype RegisteredService = RegisteredService(
    id: int,
    evaluationOrder: int,
    lowerCaseName: string,
    enabled: bool,
    ssoEnabled: bool,
    allowedToProxy: bool,
    anonymousAccess: bool,
    ignoreAttributes: bool,
    allowedAttributes: seq<string>,
    usernameAttribute: Option<string>)

  /**
   * The service object of one request. The object has an identity: it remembers
   * whether it was logged out, and `messages` counts the logout requests it sent.
   */
  class WebApplicationService {
    const id: string
    const hasHttpClient: bool
    var principal: Option<Principal>
    var loggedOutAlready: bool
    ghost var messages: nat

    /** A message is sent exactly when the object is logged out for the first time. */
    ghost predicate Valid()
      reads this
    {
      messages == if loggedOutAlready && hasHttpClient then 1 else 0
    }

    constructor (id: string, hasHttpClient: bool)
      ensures Valid() && this.id == id && this.hasHttpClient == hasHttpClient
      ensures !loggedOutAlready && principal == None
    {
      this.id := id;
      this.hasHttpClient := hasHttpClient;
      principal := None;
      loggedOutAlready := false;
      messages := 0;
    }

    method SetPrincipal(p: Principal)
      modifies this`principal
      ensures principal == Some(p)
    {
      principal := Some(p);
    }

    /** `delivered` is the answer of the HTTP endpoint, were it asked. */
    method LogOutOfService(sessionIdentifier: TicketId, delivered: bool) returns (done: bool)
      requires Valid()
      modifies this`loggedOutAlready, this`messages
      ensures Valid() && loggedOutAlready
      ensures messages == old(messages) + if !old(loggedOutAlready) && hasHttpClient then 1 else 0
      ensures done <==> old(loggedOutAlready) || (hasHttpClient && delivered)
    {
      if loggedOutAlready {
        return true;
      }
      loggedOutAlready := true;
      if hasHttpClient {
        messages := messages + 1;
        return delivered;
      }
      return false;
    }
  }
}
