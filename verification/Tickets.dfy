/** Tickets as values, the parent links between them, and what is computed along those links. */
module Tickets {
  import opened Domain
  import opened Expiration

  datatype Kind =
    | Granting(authentication: Authentication, expired: bool, services: map<TicketId, WebApplicationService>)
    | OneService(service: WebApplicationService, fromNewLogin: bool, grantedAlready: bool)

  /** `depth` counts the links up to the root; no operation reads it. */
  datatype Ticket = Ticket(
    policy: Policy,
    parent: Option<TicketId>,
    depth: nat,
    created: int,
    usage: Usage,
    kind: Kind)
  {
    /** Only granting tickets carry an authentication. */
    function Authenticated(): Option<Authentication> {
      if kind.Granting? then Some(kind.authentication) else None
    }

    /** What the ticket says of itself, its parents aside. */
    predicate ExpiredAlone(now: int) {
      policy.Expires(created, usage, Authenticated(), now) || (kind.Granting? && kind.expired)
    }

    function Touched(now: int): Ticket {
      this.(usage := Usage(now, usage.lastUsed, usage.uses + 1))
    }
  }

  /** Every ticket object that was ever made, in a registry or not. */
  type Heap = map<TicketId, Ticket>

  function DepthOf(h: Heap, id: TicketId): nat {
    if id in h then h[id].depth else 0
  }

  /** The link to the parent, followed only where it leads strictly upwards. */
  function Up(h: Heap, id: TicketId): (p: Option<TicketId>)
    ensures p.Some? ==> p.value in h && DepthOf(h, p.value) < DepthOf(h, id)
  {
    if id in h && h[id].parent.Some? && h[id].parent.value in h && h[h[id].parent.value].depth < h[id].depth
    then h[id].parent
    else None
  }

  /** Expiry is inherited: a ticket is expired when it, or any ticket above it, says so. */
  predicate Expired(h: Heap, id: TicketId, now: int)
    decreases DepthOf(h, id)
  {
    id in h && (h[id].ExpiredAlone(now) || (Up(h, id).Some? && Expired(h, Up(h, id).value, now)))
  }

  /** The authentications from a granting ticket up to its root, nearest first. */
  function Chain(h: Heap, id: TicketId): seq<Authentication>
    decreases DepthOf(h, id)
  {
    if id !in h || h[id].kind.OneService? then []
    else [h[id].kind.authentication] + (if Up(h, id).Some? then Chain(h, Up(h, id).value) else [])
  }

  /** The service object holds the user at the root of the session. */
  ghost predicate KnowsUser(h: Heap, tgt: TicketId, service: WebApplicationService)
    reads service`principal
  {
    var chain := Chain(h, tgt);
    chain != [] && service.principal == Some(chain[|chain| - 1].principal)
  }

  function Root(h: Heap, id: TicketId): TicketId
    decreases DepthOf(h, id)
  {
    if Up(h, id).Some? then Root(h, Up(h, id).value) else id
  }

  /** `id` is `top` or hangs somewhere below it. */
  predicate Under(h: Heap, top: TicketId, id: TicketId)
    decreases DepthOf(h, id)
  {
    id == top || (Up(h, id).Some? && Under(h, top, Up(h, id).value))
  }

  predicate Rooted(h: Heap, id: TicketId)
    requires id in h
  {
    match h[id].parent
    case None => h[id].depth == 0 && h[id].kind.Granting?
    case Some(p) => p in h && h[p].kind.Granting? && h[id].depth == h[p].depth + 1
  }

  ghost predicate Forest(h: Heap) {
    forall id {:trigger Rooted(h, id)} :: id in h ==> Rooted(h, id)
  }

  // ---- Shape ---------------------------------------------------------------

  lemma ForestLinks(h: Heap, id: TicketId)
    requires Forest(h) && id in h
    ensures Up(h, id) == h[id].parent
  {
    assert Rooted(h, id);
  }

  /** Links depend on parent, depth and kind of a ticket only. */
  lemma ForestKept(h: Heap, id: TicketId, t: Ticket)
    requires Forest(h) && id in h
    requires t.parent == h[id].parent && t.depth == h[id].depth && t.kind.Granting? == h[id].kind.Granting?
    ensures Forest(h[id := t])
  {
    var k := h[id := t];
    forall x | x in k ensures Rooted(k, x) { assert Rooted(h, x); }
  }

  lemma {:induction false} UnderIsTransitive(h: Heap, a: TicketId, b: TicketId, c: TicketId)
    requires Under(h, a, b) && Under(h, b, c)
    ensures Under(h, a, c)
    decreases DepthOf(h, c)
  {
    if c != b {
      UnderIsTransitive(h, a, b, Up(h, c).value);
    }
  }

  lemma {:induction false} UnderIsNotAbove(h: Heap, top: TicketId, id: TicketId)
    requires Under(h, top, id) && id != top
    ensures DepthOf(h, top) < DepthOf(h, id)
    decreases DepthOf(h, id)
  {
    if Up(h, id).value != top {
      UnderIsNotAbove(h, top, Up(h, id).value);
    }
  }

  /** No two different tickets hang below each other. */
  lemma NoCycles(h: Heap, a: TicketId, b: TicketId)
    requires Under(h, a, b) && Under(h, b, a)
    ensures a == b
  {
    if a != b {
      UnderIsNotAbove(h, a, b);
      UnderIsNotAbove(h, b, a);
    }
  }

  lemma {:induction false} RootIsAbove(h: Heap, id: TicketId)
    requires Forest(h) && id in h
    ensures Root(h, id) in h && h[Root(h, id)].parent == None && h[Root(h, id)].kind.Granting?
    ensures Under(h, Root(h, id), id)
    decreases DepthOf(h, id)
  {
    ForestLinks(h, id);
    assert Rooted(h, id);
    if Up(h, id).Some? {
      RootIsAbove(h, Up(h, id).value);
    }
  }

  /** A chain starts with the ticket's own authentication, ends with its root's, and has one entry per level. */
  lemma {:induction false} ChainShape(h: Heap, id: TicketId)
    requires Forest(h) && id in h && h[id].kind.Granting?
    ensures Root(h, id) in h && h[Root(h, id)].kind.Granting?
    ensures var c := Chain(h, id);
      |c| == h[id].depth + 1
      && c[0] == h[id].kind.authentication
      && c[|c| - 1] == h[Root(h, id)].kind.authentication
    ensures |Chain(h, id)| == 1 <==> h[id].parent == None
    decreases DepthOf(h, id)
  {
    ForestLinks(h, id);
    assert Rooted(h, id);
    if Up(h, id).Some? {
      assert h[Up(h, id).value].kind.Granting?;
      ChainShape(h, Up(h, id).value);
    }
  }

  /** The i-th entry of a chain belongs to a ticket above, i levels up. */
  lemma {:induction false} ChainEntry(h: Heap, id: TicketId, i: nat) returns (above: TicketId)
    requires Forest(h) && id in h && h[id].kind.Granting? && i < |Chain(h, id)|
    ensures above in h && h[above].kind.Granting? && Under(h, above, id) && h[above].depth + i == h[id].depth
    ensures Chain(h, id)[i] == h[above].kind.authentication
    decreases i
  {
    ForestLinks(h, id);
    assert Rooted(h, id);
    if i == 0 {
      above := id;
    } else {
      above := ChainEntry(h, Up(h, id).value, i - 1);
    }
  }

  /** Nothing hangs below a service ticket. */
  lemma {:induction false} ServiceIsLeaf(h: Heap, id: TicketId, x: TicketId)
    requires Forest(h) && id in h && h[id].kind.OneService? && x in h && Under(h, id, x)
    ensures x == id
    decreases DepthOf(h, x)
  {
    if x != id {
      ForestLinks(h, x);
      assert Rooted(h, x);
      ServiceIsLeaf(h, id, Up(h, x).value);
    }
  }

  lemma {:induction false} SameKindSameChain(h: Heap, k: Heap, id: TicketId)
    requires h.Keys == k.Keys
    requires forall x :: x in h ==> k[x].parent == h[x].parent && k[x].depth == h[x].depth && k[x].kind == h[x].kind
    ensures Chain(h, id) == Chain(k, id)
    decreases DepthOf(h, id)
  {
    if Up(h, id).Some? {
      SameKindSameChain(h, k, Up(h, id).value);
    }
  }

  // ---- Expiry along the links ------------------------------------------------

  lemma {:induction false} ExpiryIsInherited(h: Heap, top: TicketId, id: TicketId, now: int)
    requires Under(h, top, id) && Expired(h, top, now)
    ensures Expired(h, id, now)
    decreases DepthOf(h, id)
  {
    if id != top {
      ExpiryIsInherited(h, top, Up(h, id).value, now);
    }
  }

  /** Expiry always has a culprit: a ticket above that is expired by itself. */
  lemma {:induction false} ExpiryCulprit(h: Heap, id: TicketId, now: int) returns (above: TicketId)
    requires Expired(h, id, now)
    ensures above in h && Under(h, above, id) && h[above].ExpiredAlone(now)
    decreases DepthOf(h, id)
  {
    if h[id].ExpiredAlone(now) {
      above := id;
    } else {
      above := ExpiryCulprit(h, Up(h, id).value, now);
    }
  }

  /** A ticket is expired exactly when some ticket above it is expired by itself. */
  lemma ExpiredIff(h: Heap, id: TicketId, now: int)
    requires id in h
    ensures Expired(h, id, now) <==> exists above :: above in h && Under(h, above, id) && h[above].ExpiredAlone(now)
  {
    if Expired(h, id, now) {
      var above := ExpiryCulprit(h, id, now);
    }
    forall above | above in h && Under(h, above, id) && h[above].ExpiredAlone(now) ensures Expired(h, id, now) {
      ExpiryIsInherited(h, above, id, now);
    }
  }

  /** The ticket's policy never takes back an expiry of this ticket. */
  predicate Lasts(t: Ticket) {
    t.policy.LastsFor(RememberedIn(t.Authenticated()))
  }

  /** No ticket was used after `now`. */
  ghost predicate Recent(h: Heap, now: int) {
    forall id :: id in h ==> h[id].usage.lastUsed <= now
  }

  lemma AloneLater(t: Ticket, t0: int, t1: int)
    requires Lasts(t) && t.usage.lastUsed <= t0 <= t1 && t.ExpiredAlone(t0)
    ensures t.ExpiredAlone(t1)
  {
    if t.policy.Expires(t.created, t.usage, t.Authenticated(), t0) {
      OnlyGetsOlder(t.policy, t.created, t.usage, t.Authenticated(), t0, t1);
    }
  }

  // ---- How one call may change the tickets ------------------------------------

  /** `t` is what one call at time `now` may have made of the ticket `id` of `h`. */
  ghost predicate Advances(h: Heap, now: int, id: TicketId, t: Ticket)
    requires id in h
  {
    var o := h[id];
    && t.policy == o.policy && t.parent == o.parent && t.depth == o.depth && t.created == o.created
    && (t.usage == o.usage || (t == o.Touched(now).(kind := t.kind) && !Expired(h, id, now)))
    && match o.kind
       case Granting(a, expired, services) =>
         t.kind.Granting? && t.kind.authentication == a && (expired ==> t.kind.expired)
         && services.Keys <= t.kind.services.Keys
         && forall s :: s in services ==> t.kind.services[s] == services[s]
       case OneService(service, fromNewLogin, granted) =>
         t.kind.OneService? && t.kind.service == service && t.kind.fromNewLogin == fromNewLogin
         && (granted ==> t.kind.grantedAlready)
  }

  ghost predicate Evolves(h: Heap, k: Heap, now: int) {
    && h.Keys <= k.Keys
    && forall id {:trigger Advances(h, now, id, k[id])} :: id in h ==> Advances(h, now, id, k[id])
  }

  lemma EvolvesLinks(h: Heap, k: Heap, now: int, id: TicketId)
    requires Evolves(h, k, now) && id in h && Forest(h)
    ensures Up(k, id) == Up(h, id) && DepthOf(k, id) == DepthOf(h, id)
  {
    assert Rooted(h, id);
    assert Advances(h, now, id, k[id]);
    if h[id].parent.Some? {
      assert Advances(h, now, h[id].parent.value, k[h[id].parent.value]);
    }
  }

  lemma {:induction false} EvolvesUnder(h: Heap, k: Heap, now: int, top: TicketId, id: TicketId)
    requires Evolves(h, k, now) && Forest(h) && id in h
    ensures Under(k, top, id) == Under(h, top, id)
    decreases DepthOf(h, id)
  {
    EvolvesLinks(h, k, now, id);
    if Up(h, id).Some? {
      EvolvesUnder(h, k, now, top, Up(h, id).value);
    }
  }

  lemma {:induction false} EvolvesRoot(h: Heap, k: Heap, now: int, id: TicketId)
    requires Evolves(h, k, now) && Forest(h) && id in h
    ensures Root(k, id) == Root(h, id)
    decreases DepthOf(h, id)
  {
    EvolvesLinks(h, k, now, id);
    if Up(h, id).Some? {
      EvolvesRoot(h, k, now, Up(h, id).value);
    }
  }

  lemma {:induction false} EvolvesChain(h: Heap, k: Heap, now: int, id: TicketId)
    requires Evolves(h, k, now) && Forest(h) && id in h
    ensures Chain(k, id) == Chain(h, id)
    decreases DepthOf(h, id)
  {
    EvolvesLinks(h, k, now, id);
    assert Advances(h, now, id, k[id]);
    if Up(h, id).Some? {
      EvolvesChain(h, k, now, Up(h, id).value);
    }
  }

  /** A ticket that was expired by itself when a call came is not used by it. */
  lemma AloneStays(h: Heap, k: Heap, now: int, id: TicketId, t0: int)
    requires Evolves(h, k, now) && id in h && h[id].ExpiredAlone(t0) && h[id].ExpiredAlone(now)
    ensures k[id].usage == h[id].usage && k[id].ExpiredAlone(t0) && Lasts(k[id]) == Lasts(h[id])
    ensures k[id].kind.Granting? == h[id].kind.Granting?
  {
    assert Advances(h, now, id, k[id]);
  }

  // ---- Subtrees ----------------------------------------------------------------

  function Subtree(h: Heap, top: TicketId): set<TicketId> {
    set id | id in h && Under(h, top, id)
  }

  /** The service tickets that hang directly below `top`. */
  function GrantedBy(h: Heap, top: TicketId): set<TicketId> {
    set id | id in h && h[id].parent == Some(top) && h[id].kind.OneService?
  }

  /** Use count, services map and granted service tickets tell the same story. */
  ghost predicate Accounted(h: Heap, top: TicketId)
    requires top in h
  {
    h[top].kind.Granting? ==>
      && h[top].kind.services.Keys == GrantedBy(h, top)
      && h[top].usage.uses == |h[top].kind.services|
      && forall id :: id in h[top].kind.services ==> h[top].kind.services[id] == h[id].kind.service
  }

  /** The prefix of an identifier tells the kind of the ticket. */
  ghost predicate WellNamed(h: Heap) {
    forall id :: id in h ==> (IsTgtId(id) <==> h[id].kind.Granting?)
  }
}
