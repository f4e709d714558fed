/** The database registry: two tables, and a recursive delete of a ticket with everything below it. */
module JpaRegistry {
  import opened Domain
  import opened Expiration
  import opened Tickets
  import opened Protocol
  import opened Steps
  import opened Simulation

  class JpaTicketRegistry {
    var grantingTickets: map<TicketId, Ticket>
    var serviceTickets: map<TicketId, Ticket>

    /** All rows, whatever their table. */
    ghost function Rows(): Heap
      reads this
    {
      grantingTickets + serviceTickets
    }

    /** Rows are in the table of their class, under identifiers that fit it. */
    ghost predicate Valid()
      reads this
    {
      && (forall id :: id in grantingTickets ==> IsTgtId(id) && grantingTickets[id].kind.Granting?)
      && (forall id :: id in serviceTickets ==> !IsTgtId(id) && serviceTickets[id].kind.OneService?)
    }

    constructor ()
      ensures Valid() && Rows() == map[]
    {
      grantingTickets, serviceTickets := map[], map[];
    }

    /** Persists a new row, or merges a changed one; both write the row of the ticket. */
    method Write(id: TicketId, t: Ticket)
      requires Valid() && (IsTgtId(id) <==> t.kind.Granting?)
      modifies this
      ensures Valid() && Rows() == old(Rows())[id := t]
    {
      if t.kind.Granting? {
        grantingTickets := grantingTickets[id := t];
      } else {
        serviceTickets := serviceTickets[id := t];
      }
    }

    /** The prefix of the identifier names the table to look into. */
    method GetRawTicket(id: TicketId) returns (r: Option<Ticket>)
      requires Valid()
      ensures r == if id in Rows() then Some(Rows()[id]) else None
    {
      if IsTgtId(id) {
        return if id in grantingTickets then Some(grantingTickets[id]) else None;
      }
      return if id in serviceTickets then Some(serviceTickets[id]) else None;
    }

    method RemoveTicket(id: TicketId)
      requires Valid()
      modifies this
      ensures Valid() && Rows() == old(Rows()) - {id}
    {
      grantingTickets := grantingTickets - {id};
      serviceTickets := serviceTickets - {id};
    }

    /** Removes the given rows one by one. */
    method RemoveAll(ids: set<TicketId>)
      requires Valid()
      modifies this
      ensures Valid() && Rows() == old(Rows()) - ids
    {
      var rest := ids;
      while rest != {}
        invariant rest <= ids && Valid()
        invariant Rows() == old(Rows()) - (ids - rest)
        decreases rest
      {
        var id :| id in rest;
        RemoveTicket(id);
        rest := rest - {id};
      }
    }

    /** Service tickets below first, then the granting tickets below with all they have, then the ticket. */
    method DeleteTicketAndChildren(id: TicketId, ghost height: nat)
      requires Valid() && Forest(Rows()) && id in Rows()
      requires forall x :: x in Rows() ==> Rows()[x].depth <= Rows()[id].depth + height
      modifies this
      ensures Valid() && Rows() == old(Rows()) - Subtree(old(Rows()), id)
      ensures Forest(Rows())
      decreases height
    {
      ghost var h := Rows();
      var granting := set x | x in grantingTickets && grantingTickets[x].parent == Some(id);
      var services := set x | x in serviceTickets && serviceTickets[x].parent == Some(id);
      ghost var gone := services;
      LeavesAreCut(h, id, services);
      Remaining(h, gone);
      RemoveAll(services);
      var rest := granting;
      while rest != {}
        invariant Valid() && Rows() == h - gone && Forest(Rows())
        invariant Progress(h, id, gone, granting, services, rest)
        decreases rest
      {
        var child :| child in rest;
        NextCut(h, id, gone, granting, services, rest, child);
        DeleteTicketAndChildren(child, height - 1);
        gone := gone + Subtree(h, child);
        rest := rest - {child};
      }
      EverythingBelowIsCut(h, id, gone, granting, services);
      RemoveTicket(id);
      SubtreeIsCut(h, id);
      Remaining(h, Subtree(h, id));
    }

    /** Deletes a service ticket alone, a granting ticket with its subtree; says whether there was a ticket. */
    method DeleteTicket(id: TicketId) returns (found: bool)
      requires Valid() && Forest(Rows())
      modifies this
      ensures Valid() && Forest(Rows())
      ensures found <==> id in old(Rows())
      ensures Rows() == old(Rows()) - Subtree(old(Rows()), id)
    {
      ghost var h := Rows();
      var ticket := GetRawTicket(id);
      if ticket.None? {
        NothingBelowMissing(h, id);
        return false;
      }
      if ticket.value.kind.OneService? {
        NothingBelowService(h, id);
        RemoveTicket(id);
        Remaining(h, {id});
        return true;
      }
      var height := Deepest(h);
      DeleteTicketAndChildren(id, height);
      return true;
    }
  }

  // ---- Cutting subtrees off a forest -------------------------------------------------------

  /** What hangs below a ticket of `gone` is in `gone`. */
  ghost predicate Cut(h: Heap, gone: set<TicketId>) {
    forall x {:trigger h[x].parent} :: x in h && h[x].parent.Some? && h[x].parent.value in gone ==> x in gone
  }

  /** `gone` is cut off, and lies strictly below `id`. */
  ghost predicate CutBelow(h: Heap, id: TicketId, gone: set<TicketId>) {
    Cut(h, gone) && id !in gone && gone <= Subtree(h, id)
  }

  lemma Remaining(h: Heap, gone: set<TicketId>)
    requires Forest(h) && Cut(h, gone)
    ensures Forest(h - gone) && AgreeOn(h - gone, h, (h - gone).Keys)
  {
    var k := h - gone;
    forall x | x in k ensures Rooted(k, x) { assert Rooted(h, x); }
  }

  lemma RemainingSubtree(h: Heap, gone: set<TicketId>, top: TicketId)
    requires Forest(h) && Cut(h, gone)
    ensures Subtree(h - gone, top) == Subtree(h, top) - gone
  {
    Remaining(h, gone);
    forall x | x in h - gone ensures Under(h - gone, top, x) == Under(h, top, x) {
      AgreeingUnder(h - gone, h, (h - gone).Keys, top, x);
    }
  }

  lemma SubtreeIsCut(h: Heap, top: TicketId)
    requires Forest(h)
    ensures Cut(h, Subtree(h, top))
  {
    forall x | x in h && h[x].parent.Some? && h[x].parent.value in Subtree(h, top) ensures x in Subtree(h, top) {
      ForestLinks(h, x);
    }
  }

  lemma LeavesAreCut(h: Heap, id: TicketId, services: set<TicketId>)
    requires Forest(h) && id in h
    requires forall x :: x in services ==> x in h && h[x].kind.OneService? && h[x].parent == Some(id)
    ensures CutBelow(h, id, services)
  {
    forall x | x in h ensures Rooted(h, x) {}
    forall x | x in services ensures Under(h, id, x) { ForestLinks(h, x); }
  }

  /** The service tickets below `id`, and the subtrees of its children outside `rest`, are cut off. */
  ghost predicate Progress(h: Heap, id: TicketId, gone: set<TicketId>, granting: set<TicketId>, services: set<TicketId>,
                           rest: set<TicketId>) {
    && CutBelow(h, id, gone)
    && rest <= granting && rest !! gone && services <= gone
    && forall c :: c in granting && c !in rest ==> Subtree(h, c) <= gone
  }

  /** Cutting one more subtree off makes progress, and is the same in what remains as in the whole. */
  lemma NextCut(h: Heap, id: TicketId, gone: set<TicketId>, granting: set<TicketId>, services: set<TicketId>,
                rest: set<TicketId>, child: TicketId)
    requires Forest(h) && id in h && Progress(h, id, gone, granting, services, rest) && child in rest
    requires forall x :: x in granting ==> x in h && h[x].parent == Some(id)
    ensures Progress(h, id, gone + Subtree(h, child), granting, services, rest - {child})
    ensures child in h && child !in gone && h[child].depth == h[id].depth + 1
    ensures (h - gone) - Subtree(h - gone, child) == h - (gone + Subtree(h, child))
    ensures Forest(h - (gone + Subtree(h, child)))
  {
    ChildIsCut(h, id, gone, child);
    RemainingSubtree(h, gone, child);
    Remaining(h, gone + Subtree(h, child));
  }

  lemma ChildIsCut(h: Heap, id: TicketId, gone: set<TicketId>, child: TicketId)
    requires Forest(h) && CutBelow(h, id, gone) && child in h && h[child].parent == Some(id)
    ensures CutBelow(h, id, gone + Subtree(h, child))
    ensures h[child].depth == DepthOf(h, id) + 1
  {
    assert Rooted(h, child);
    ForestLinks(h, child);
    SubtreeIsCut(h, child);
    forall x | x in Subtree(h, child) ensures x in Subtree(h, id) && x != id {
      UnderIsTransitive(h, id, child, x);
      if x == id {
        UnderIsNotAbove(h, child, id);
      }
    }
  }

  /** A ticket strictly below another is one of its children or below one. */
  lemma {:induction false} ChildAbove(h: Heap, id: TicketId, x: TicketId) returns (child: TicketId)
    requires Forest(h) && x in h && Under(h, id, x) && x != id
    ensures child in h && h[child].parent == Some(id) && Under(h, child, x) && Rooted(h, child)
    decreases DepthOf(h, x)
  {
    ForestLinks(h, x);
    assert Rooted(h, x);
    if Up(h, x).value == id {
      child := x;
    } else {
      child := ChildAbove(h, id, Up(h, x).value);
    }
  }

  lemma EverythingBelowIsCut(h: Heap, id: TicketId, gone: set<TicketId>, granting: set<TicketId>, services: set<TicketId>)
    requires Forest(h) && id in h && CutBelow(h, id, gone) && services <= gone
    requires forall x :: x in h && h[x].parent == Some(id) ==> x in granting || x in services
    requires forall c :: c in granting ==> Subtree(h, c) <= gone
    ensures gone + {id} == Subtree(h, id)
    ensures (h - gone) - {id} == h - Subtree(h, id)
  {
    forall x | x in Subtree(h, id) && x != id ensures x in gone {
      var child := ChildAbove(h, id, x);
      if child in services && child != x {
        NothingUnder(h, gone, child, x);
      }
    }
  }

  lemma {:induction false} NothingUnder(h: Heap, gone: set<TicketId>, top: TicketId, x: TicketId)
    requires Forest(h) && Cut(h, gone) && top in gone && x in h && Under(h, top, x)
    ensures x in gone
    decreases DepthOf(h, x)
  {
    if x != top {
      ForestLinks(h, x);
      NothingUnder(h, gone, top, Up(h, x).value);
    }
  }

  lemma NothingBelowMissing(h: Heap, id: TicketId)
    requires Forest(h) && id !in h
    ensures Subtree(h, id) == {}
  {
    forall x | x in h ensures !Under(h, id, x) {
      if Under(h, id, x) {
        var child := ChildAbove(h, id, x);
      }
    }
  }

  lemma NothingBelowService(h: Heap, id: TicketId)
    requires Forest(h) && id in h && h[id].kind.OneService?
    ensures Subtree(h, id) == {id} && Cut(h, {id})
  {
    forall x | x in h ensures Rooted(h, x) {}
    forall x | x in h && Under(h, id, x) ensures x == id {
      ServiceIsLeaf(h, id, x);
    }
  }

  /** A depth that no ticket exceeds. */
  lemma {:induction false} Deepest(h: Heap) returns (d: nat)
    ensures forall x :: x in h ==> h[x].depth <= d
    decreases |h|
  {
    if h == map[] {
      d := 0;
    } else {
      var x :| x in h;
      var rest := Deepest(h - {x});
      d := if h[x].depth < rest then rest else h[x].depth;
      assert forall y :: y in h ==> y == x || y in h - {x};
    }
  }

  // ---- The tables and the protocol -----------------------------------------------------------

  /** The rows that the protocol state stands for. */
  function Live(st: State): Heap {
    map id | id in st.registry && id in st.heap :: st.heap[id]
  }

  lemma {:induction false} LiveUnder(st: State, top: TicketId, id: TicketId)
    requires Forest(st.heap) && Forest(Live(st)) && ParentClosed(st.heap, st.registry) && id in Live(st)
    ensures Under(Live(st), top, id) == Under(st.heap, top, id)
    decreases DepthOf(st.heap, id)
  {
    ForestLinks(st.heap, id);
    ForestLinks(Live(st), id);
    if st.heap[id].parent.Some? {
      assert Rooted(st.heap, id);
      LiveUnder(st, top, st.heap[id].parent.value);
    }
  }

  /** The live rows of a reachable state are a valid database. */
  lemma LiveIsForest(cfg: Config, st: State)
    requires cfg.mode.Cascade? && Inv(cfg, st)
    ensures Forest(Live(st)) && WellNamed(Live(st))
  {
    forall x | x in Live(st) ensures Rooted(Live(st), x) { assert Rooted(st.heap, x); }
  }

  /** What the recursive delete does to the rows is what the cascading protocol does to its state. */
  lemma CascadeDeletesSubtree(cfg: Config, st: State, id: TicketId)
    requires cfg.mode.Cascade? && Inv(cfg, st)
    ensures Forest(Live(st)) && Live(Delete(cfg, st, id)) == Live(st) - Subtree(Live(st), id)
  {
    LiveIsForest(cfg, st);
    StoredIffRegistered(cfg, st, id);
    forall x | x in Live(st) ensures Under(Live(st), id, x) == Under(st.heap, id, x) {
      LiveUnder(st, id, x);
    }
    if id !in st.registry {
      NothingBelowMissing(Live(st), id);
    } else if st.heap[id].kind.OneService? {
      NothingBelowService(Live(st), id);
    }
  }

  // ---- The rows are all there is ----------------------------------------------------------------

  /** Two protocol states with the same rows; the tickets that were deleted from them may differ. */
  ghost predicate SameRows(cfg: Config, s: State, t: State) {
    && cfg.mode.Cascade? && Inv(cfg, s) && Inv(cfg, t)
    && s.registry == t.registry && AgreeOn(s.heap, t.heap, s.registry)
  }

  /** The same call gives the same answer and leaves the same rows. */
  ghost predicate StepsAlike(cfg: Config, env: Env, s: State, t: State, req: Request) {
    var a, b := Step(cfg, env, s, req), Step(cfg, env, t, req);
    a.outcome == b.outcome && SameRows(cfg, a.state, b.state)
  }

  lemma SameRowsStored(cfg: Config, s: State, t: State, id: TicketId, granting: bool, now: int)
    requires SameRows(cfg, s, t)
    ensures Find(cfg, s, id, granting) == Find(cfg, t, id, granting)
    ensures Find(cfg, s, id, granting).Found? ==>
      && id in s.registry && s.heap[id] == t.heap[id]
      && Expired(s.heap, id, now) == Expired(t.heap, id, now)
  {
    StoredIffRegistered(cfg, s, id);
    StoredIffRegistered(cfg, t, id);
    if id in s.registry {
      AgreeingExpiry(s.heap, t.heap, s.registry, id, now);
    }
  }

  lemma SameRowsDelete(cfg: Config, s: State, t: State, id: TicketId)
    requires SameRows(cfg, s, t)
    ensures SameRows(cfg, Delete(cfg, s, id), Delete(cfg, t, id))
  {
    DeleteKeeps(cfg, s, id);
    DeleteKeeps(cfg, t, id);
    StoredIffRegistered(cfg, s, id);
    StoredIffRegistered(cfg, t, id);
    forall x | x in s.registry ensures Under(s.heap, id, x) == Under(t.heap, id, x) {
      AgreeingUnder(s.heap, t.heap, s.registry, id, x);
    }
  }

  lemma SameRowsGrant(cfg: Config, env: Env, s: State, t: State, req: Request)
    requires SameRows(cfg, s, t) && req.Grant? && Admissible(s.heap, req) && Admissible(t.heap, req)
    ensures StepsAlike(cfg, env, s, t, req)
  {
    SameRowsStored(cfg, s, t, req.tgt, true, env.now);
    StepKeeps(cfg, env, s, req);
    StepKeeps(cfg, env, t, req);
    if Find(cfg, s, req.tgt, true).Found? {
      if Expired(s.heap, req.tgt, env.now) {
        SameRowsDelete(cfg, s, t, req.tgt);
      } else {
        SameRefusal(env, s.heap, t.heap, s.registry, req.tgt, req.service, req.optional);
      }
    }
  }

  lemma SameRowsDelegateAnswer(cfg: Config, env: Env, s: State, t: State, req: Request)
    returns (used: Ticket, granted: Ticket)
    requires SameRows(cfg, s, t) && req.Delegate?
    ensures var a, b := Step(cfg, env, s, req), Step(cfg, env, t, req);
      && a.outcome == b.outcome
      && (!a.outcome.Issued? ==> a.state == s && b.state == t)
      && (a.outcome.Issued? ==>
            && a.state == Put(s.(heap := s.heap[req.st := used]), req.newId, granted)
            && b.state == Put(t.(heap := t.heap[req.st := used]), req.newId, granted))
  {
    SameRowsStored(cfg, s, t, req.st, false, env.now);
    if Step(cfg, env, s, req).outcome.Issued? {
      var ticket := s.heap[req.st];
      used := ticket.(kind := ticket.kind.(grantedAlready := true));
      granted := NewProxyGranting(cfg, env.now, ticket, env.authenticate(req.credentials).value);
    } else {
      used, granted := *, *;
    }
  }

  lemma SameRowsDelegate(cfg: Config, env: Env, s: State, t: State, req: Request)
    requires SameRows(cfg, s, t) && req.Delegate? && Admissible(s.heap, req) && Admissible(t.heap, req)
    ensures StepsAlike(cfg, env, s, t, req)
  {
    var a, b := Step(cfg, env, s, req), Step(cfg, env, t, req);
    var used, granted := SameRowsDelegateAnswer(cfg, env, s, t, req);
    if a.outcome.Issued? {
      StepKeeps(cfg, env, s, req);
      StepKeeps(cfg, env, t, req);
    }
  }

  lemma SameRowsCreate(cfg: Config, env: Env, s: State, t: State, req: Request)
    requires SameRows(cfg, s, t) && req.Create? && Admissible(s.heap, req) && Admissible(t.heap, req)
    ensures StepsAlike(cfg, env, s, t, req)
  {
    StepKeeps(cfg, env, s, req);
    StepKeeps(cfg, env, t, req);
  }

  lemma SameRowsUse(cfg: Config, s: State, t: State, id: TicketId, used: Ticket)
    requires SameRows(cfg, s, t) && id in s.registry && s.heap[id].kind.OneService?
    requires used == s.heap[id].(usage := used.usage)
    ensures SameRows(cfg, s.(heap := s.heap[id := used]), t.(heap := t.heap[id := used]))
  {
    UpdateKeeps(cfg, s.heap, id, used);
    UpdateKeeps(cfg, t.heap, id, used);
  }

  lemma SameRowsValidate(cfg: Config, env: Env, s: State, t: State, req: Request)
    requires SameRows(cfg, s, t) && req.Validate?
    ensures StepsAlike(cfg, env, s, t, req)
  {
    var id := req.st;
    SameRowsStored(cfg, s, t, id, false, env.now);
    if Find(cfg, s, id, false).Found? && FindsEnabled(env, req.service) {
      if Expired(s.heap, id, env.now) {
        SameRowsDelete(cfg, s, t, id);
      } else {
        var used := s.heap[id].Touched(env.now);
        var s1, t1 := s.(heap := s.heap[id := used]), t.(heap := t.heap[id := used]);
        SameRowsUse(cfg, s, t, id, used);
        AgreeingExpiry(s1.heap, t1.heap, s1.registry, id, env.now);
        SameAssertion(env, s1.heap, t1.heap, s1.registry, id, env.find(req.service).value);
        SameRowsDelete(cfg, s1, t1, id);
      }
    }
  }

  lemma SameRowsDestroy(cfg: Config, env: Env, s: State, t: State, req: Request)
    requires SameRows(cfg, s, t) && req.Destroy?
    ensures StepsAlike(cfg, env, s, t, req)
  {
    var id := req.tgt;
    SameRowsStored(cfg, s, t, id, true, env.now);
    if Find(cfg, s, id, true).Found? {
      ExpireKeeps(cfg, s, id, env.now);
      ExpireKeeps(cfg, t, id, env.now);
      SameRowsDelete(cfg, Expire(s, id), Expire(t, id), id);
    }
  }

  lemma SameRowsStep(cfg: Config, env: Env, s: State, t: State, req: Request)
    requires SameRows(cfg, s, t) && Admissible(s.heap, req) && Admissible(t.heap, req)
    ensures StepsAlike(cfg, env, s, t, req)
  {
    match req
    case Create(_, _) => SameRowsCreate(cfg, env, s, t, req);
    case Grant(_, _, _, _) => SameRowsGrant(cfg, env, s, t, req);
    case Delegate(_, _, _) => SameRowsDelegate(cfg, env, s, t, req);
    case Validate(_, _) => SameRowsValidate(cfg, env, s, t, req);
    case Destroy(_) => SameRowsDestroy(cfg, env, s, t, req);
  }

  lemma SameRowsIffSameLive(cfg: Config, s: State, t: State)
    requires cfg.mode.Cascade? && Inv(cfg, s) && Inv(cfg, t)
    ensures SameRows(cfg, s, t) <==> Live(s) == Live(t)
  {
    assert Live(s).Keys == s.registry && Live(t).Keys == t.registry;
    if Live(s) == Live(t) {
      forall id | id in s.registry ensures s.heap[id] == t.heap[id] {
        assert Live(s)[id] == Live(t)[id];
      }
    }
  }

  /** The rows alone decide what the cascading service answers and what rows it leaves. */
  lemma {:induction false} RowsDecide(cfg: Config, env: Env, s: State, t: State, req: Request)
    requires cfg.mode.Cascade? && Inv(cfg, s) && Inv(cfg, t) && Live(s) == Live(t)
    requires Admissible(s.heap, req) && Admissible(t.heap, req)
    ensures var a, b := Step(cfg, env, s, req), Step(cfg, env, t, req);
      a.outcome == b.outcome && Live(a.state) == Live(b.state)
  {
    SameRowsIffSameLive(cfg, s, t);
    SameRowsStep(cfg, env, s, t, req);
    SameRowsIffSameLive(cfg, Step(cfg, env, s, req).state, Step(cfg, env, t, req).state);
  }
}
