/** What every single call keeps. */
module Steps {
  import opened Domain
  import opened Expiration
  import opened Tickets
  import opened Protocol

  ghost predicate Governed(cfg: Config, h: Heap) {
    forall id :: id in h ==> h[id].policy == if h[id].kind.Granting? then cfg.tgtPolicy else cfg.stPolicy
  }

  ghost predicate AllAccounted(h: Heap) {
    forall id {:trigger Accounted(h, id)} :: id in h ==> Accounted(h, id)
  }

  ghost predicate HeapInv(cfg: Config, h: Heap) {
    Forest(h) && WellNamed(h) && AllAccounted(h) && Governed(cfg, h)
  }

  /** Every stored ticket's parent is stored. */
  ghost predicate ParentClosed(h: Heap, registry: set<TicketId>) {
    forall id {:trigger h[id].parent} :: id in registry && id in h && h[id].parent.Some? ==> h[id].parent.value in registry
  }

  /** Each service object was sent at most one logout message, and none before it was logged out. */
  ghost predicate OneLogoutEach(st: State) {
    && (forall s :: s in st.sent ==> st.sent[s] == 1 && s in st.loggedOut && s.hasHttpClient)
    && (forall s :: s in st.loggedOut && s.hasHttpClient ==> st.sent[s] == 1)
  }

  ghost predicate Inv(cfg: Config, st: State) {
    && HeapInv(cfg, st.heap)
    && st.registry <= st.heap.Keys
    && (cfg.mode.Cascade? ==> ParentClosed(st.heap, st.registry))
    && OneLogoutEach(st)
  }

  function NewId(req: Request): Option<TicketId> {
    match req
    case Create(_, n) => Some(n)
    case Grant(_, _, _, n) => Some(n)
    case Delegate(_, _, n) => Some(n)
    case _ => None
  }

  /** The generator hands out unused identifiers with the prefix that is asked for. */
  ghost predicate Admissible(h: Heap, req: Request) {
    match NewId(req)
    case None => true
    case Some(n) => n !in h && (IsTgtId(n) <==> !req.Grant?)
  }

  lemma StoredIffRegistered(cfg: Config, st: State, id: TicketId)
    requires Inv(cfg, st)
    ensures Stored(cfg, st, id) <==> id in st.registry
  {
  }

  // ---- The heap under the two kinds of change -------------------------------------

  lemma UpdateKeeps(cfg: Config, h: Heap, id: TicketId, t: Ticket)
    requires HeapInv(cfg, h) && id in h
    requires t.policy == h[id].policy && t.parent == h[id].parent && t.depth == h[id].depth
    requires match h[id].kind
      case Granting(_, _, services) => t.kind.Granting? && t.kind.services == services && t.usage.uses == h[id].usage.uses
      case OneService(service, _, _) => t.kind.OneService? && t.kind.service == service
    ensures HeapInv(cfg, h[id := t])
  {
    var k := h[id := t];
    assert Forest(k) by {
      forall x | x in k ensures Rooted(k, x) { assert Rooted(h, x); }
    }
    forall x | x in k ensures Accounted(k, x) {
      assert Accounted(h, x);
      assert GrantedBy(k, x) == GrantedBy(h, x);
    }
  }

  lemma NothingBelowNew(h: Heap, id: TicketId)
    requires Forest(h) && id !in h
    ensures GrantedBy(h, id) == {}
  {
    forall x | x in h ensures h[x].parent != Some(id) { assert Rooted(h, x); }
  }

  lemma AddGrantingKeeps(cfg: Config, h: Heap, id: TicketId, t: Ticket)
    requires HeapInv(cfg, h) && id !in h && IsTgtId(id)
    requires t.policy == cfg.tgtPolicy && t.usage.uses == 0 && t.kind.Granting? && t.kind.services == map[]
    requires Rooted(h[id := t], id)
    ensures HeapInv(cfg, h[id := t])
  {
    var k := h[id := t];
    assert Forest(k) by {
      forall x | x in k ensures Rooted(k, x) { if x in h { assert Rooted(h, x); } }
    }
    NothingBelowNew(h, id);
    forall x | x in k ensures Accounted(k, x) {
      assert GrantedBy(k, x) == GrantedBy(h, x);
      if x in h { assert Accounted(h, x); }
    }
  }

  /** `h` after `tgt` granted `t` under the identifier `id`. */
  ghost predicate Grants(h: Heap, tgt: TicketId, g: Ticket, id: TicketId, t: Ticket) {
    && tgt in h && h[tgt].kind.Granting? && id !in h
    && t.kind.OneService? && t.parent == Some(tgt) && t.depth == h[tgt].depth + 1
    && g.policy == h[tgt].policy && g.parent == h[tgt].parent && g.depth == h[tgt].depth
    && g.usage.uses == h[tgt].usage.uses + 1
    && g.kind == h[tgt].kind.(services := h[tgt].kind.services[id := t.kind.service])
  }

  lemma GrantKeepsForest(h: Heap, tgt: TicketId, g: Ticket, id: TicketId, t: Ticket)
    requires Forest(h) && Grants(h, tgt, g, id, t)
    ensures Forest(h[tgt := g][id := t])
  {
    var k := h[tgt := g][id := t];
    forall x | x in k ensures Rooted(k, x) { if x in h { assert Rooted(h, x); } }
  }

  lemma GrantKeepsAccounts(h: Heap, tgt: TicketId, g: Ticket, id: TicketId, t: Ticket)
    requires Forest(h) && AllAccounted(h) && Grants(h, tgt, g, id, t)
    ensures AllAccounted(h[tgt := g][id := t])
  {
    var k := h[tgt := g][id := t];
    NothingBelowNew(h, id);
    forall x | x in k ensures Accounted(k, x) {
      if x in h { assert Accounted(h, x); }
      if x !in h { assert GrantedBy(k, x) == {}; }
    }
  }

  lemma AddServiceTicketKeeps(cfg: Config, h: Heap, tgt: TicketId, g: Ticket, id: TicketId, t: Ticket)
    requires HeapInv(cfg, h) && Grants(h, tgt, g, id, t) && !IsTgtId(id) && t.policy == cfg.stPolicy
    ensures HeapInv(cfg, h[tgt := g][id := t])
  {
    GrantKeepsForest(h, tgt, g, id, t);
    GrantKeepsAccounts(h, tgt, g, id, t);
  }

  // ---- The calls ---------------------------------------------------------------------

  lemma UnchangedEvolves(h: Heap, now: int)
    ensures Evolves(h, h, now)
  {
    forall x | x in h ensures Advances(h, now, x, h[x]) {}
  }

  lemma DeleteKeeps(cfg: Config, st: State, id: TicketId)
    requires Inv(cfg, st)
    ensures Inv(cfg, Delete(cfg, st, id)) && Delete(cfg, st, id).heap == st.heap
  {
    var next := Delete(cfg, st, id);
    if cfg.mode.Cascade? {
      forall x | x in next.registry && x in st.heap && st.heap[x].parent.Some?
        ensures st.heap[x].parent.value in next.registry
      {
        ForestLinks(st.heap, x);
        assert Rooted(st.heap, x);
      }
    }
  }

  lemma CreateKeeps(cfg: Config, env: Env, st: State, credentials: Credentials, newId: TicketId)
    requires Inv(cfg, st) && newId !in st.heap && IsTgtId(newId)
    ensures var next := CreateStep(cfg, env, st, credentials, newId).state;
      Inv(cfg, next) && Evolves(st.heap, next.heap, env.now)
  {
    UnchangedEvolves(st.heap, env.now);
    if env.authenticate(credentials).Some? {
      var t := NewRoot(cfg, env.now, env.authenticate(credentials).value);
      AddGrantingKeeps(cfg, st.heap, newId, t);
      assert Evolves(st.heap, st.heap[newId := t], env.now);
    }
  }

  lemma GrantKeeps(cfg: Config, env: Env, st: State, tgt: TicketId, service: WebApplicationService,
                   credentials: Option<Credentials>, newId: TicketId)
    requires Inv(cfg, st) && newId !in st.heap && !IsTgtId(newId)
    ensures var next := GrantStep(cfg, env, st, tgt, service, credentials, newId).state;
      Inv(cfg, next) && Evolves(st.heap, next.heap, env.now)
  {
    UnchangedEvolves(st.heap, env.now);
    DeleteKeeps(cfg, st, tgt);
    if Find(cfg, st, tgt, true).Found? && !Expired(st.heap, tgt, env.now)
       && GrantRefusal(env, st.heap, tgt, service, credentials).None? {
      var t := st.heap[tgt];
      var g := WithService(t.Touched(env.now), newId, service);
      var n := NewServiceTicket(cfg, env.now, tgt, t, service, credentials.Some?);
      GrantedKeeps(cfg, env.now, st, tgt, g, newId, n);
    }
  }

  lemma GrantedKeeps(cfg: Config, now: int, st: State, tgt: TicketId, g: Ticket, newId: TicketId, n: Ticket)
    requires Inv(cfg, st) && newId !in st.heap && !IsTgtId(newId) && tgt in st.registry
    requires Grants(st.heap, tgt, g, newId, n) && n.policy == cfg.stPolicy
    requires g.usage == st.heap[tgt].Touched(now).usage && g.created == st.heap[tgt].created
    requires !Expired(st.heap, tgt, now)
    ensures var next := Put(st.(heap := st.heap[tgt := g]), newId, n);
      Inv(cfg, next) && Evolves(st.heap, next.heap, now)
  {
    AddServiceTicketKeeps(cfg, st.heap, tgt, g, newId, n);
    assert Accounted(st.heap, tgt);
    assert newId !in st.heap[tgt].kind.services;
  }

  lemma {:induction false} DelegateKeeps(cfg: Config, env: Env, st: State, id: TicketId, credentials: Credentials, newId: TicketId)
    requires Inv(cfg, st) && newId !in st.heap && IsTgtId(newId)
    ensures var next := DelegateStep(cfg, env, st, id, credentials, newId).state;
      Inv(cfg, next) && Evolves(st.heap, next.heap, env.now)
  {
    UnchangedEvolves(st.heap, env.now);
    if DelegateStep(cfg, env, st, id, credentials, newId).outcome.Issued? {
      var t := st.heap[id];
      var used := t.(kind := t.kind.(grantedAlready := true));
      var n := NewProxyGranting(cfg, env.now, t, env.authenticate(credentials).value);
      assert Rooted(st.heap, id);
      UpdateKeeps(cfg, st.heap, id, used);
      AddGrantingKeeps(cfg, st.heap[id := used], newId, n);
    }
  }

  /** A service ticket is used, but stays where it is. */
  lemma UseKeeps(cfg: Config, st: State, id: TicketId, now: int)
    requires Inv(cfg, st) && id in st.heap && st.heap[id].kind.OneService? && !Expired(st.heap, id, now)
    ensures var next := st.(heap := st.heap[id := st.heap[id].Touched(now)]);
      Inv(cfg, next) && Evolves(st.heap, next.heap, now)
  {
    var used := st.heap[id].Touched(now);
    UpdateKeeps(cfg, st.heap, id, used);
    UnchangedEvolves(st.heap, now);
    assert Advances(st.heap, now, id, used);
  }

  lemma {:induction false} ValidateKeeps(cfg: Config, env: Env, st: State, id: TicketId, service: WebApplicationService)
    requires Inv(cfg, st)
    ensures var next := ValidateStep(cfg, env, st, id, service).state;
      Inv(cfg, next) && Evolves(st.heap, next.heap, env.now)
  {
    UnchangedEvolves(st.heap, env.now);
    DeleteKeeps(cfg, st, id);
    if Find(cfg, st, id, false).Found? && !Expired(st.heap, id, env.now) {
      var used := st.heap[id].Touched(env.now);
      var next := st.(heap := st.heap[id := used]);
      UseKeeps(cfg, st, id, env.now);
      DeleteKeeps(cfg, next, id);
    }
  }

  lemma ExpireKeeps(cfg: Config, st: State, tgt: TicketId, now: int)
    requires Inv(cfg, st) && tgt in st.heap && st.heap[tgt].kind.Granting?
    ensures Inv(cfg, Expire(st, tgt)) && Evolves(st.heap, Expire(st, tgt).heap, now)
  {
    var t := st.heap[tgt];
    var marked := t.(kind := t.kind.(expired := true));
    UpdateKeeps(cfg, st.heap, tgt, marked);
    UnchangedEvolves(st.heap, now);
    assert Advances(st.heap, now, tgt, marked);
    assert OneLogoutEach(Expire(st, tgt));
  }

  lemma DestroyKeeps(cfg: Config, st: State, tgt: TicketId, now: int)
    requires Inv(cfg, st)
    ensures var next := DestroyStep(cfg, st, tgt).state;
      Inv(cfg, next) && Evolves(st.heap, next.heap, now)
  {
    UnchangedEvolves(st.heap, now);
    if Find(cfg, st, tgt, true).Found? {
      ExpireKeeps(cfg, st, tgt, now);
      DeleteKeeps(cfg, Expire(st, tgt), tgt);
    }
  }

  /** Every call keeps the invariant, and changes existing tickets only as far as `Advances` allows. */
  lemma StepKeeps(cfg: Config, env: Env, st: State, req: Request)
    requires Inv(cfg, st) && Admissible(st.heap, req)
    ensures var next := Step(cfg, env, st, req).state;
      Inv(cfg, next) && Evolves(st.heap, next.heap, env.now)
  {
    match req
    case Create(credentials, newId) => CreateKeeps(cfg, env, st, credentials, newId);
    case Grant(tgt, service, credentials, newId) => GrantKeeps(cfg, env, st, tgt, service, credentials, newId);
    case Delegate(id, credentials, newId) => DelegateKeeps(cfg, env, st, id, credentials, newId);
    case Validate(id, service) => ValidateKeeps(cfg, env, st, id, service);
    case Destroy(tgt) => DestroyKeeps(cfg, st, tgt, env.now);
  }

  /** A call touches and makes tickets at its own time only. */
  lemma StepIsRecent(cfg: Config, env: Env, st: State, req: Request)
    requires Inv(cfg, st) && Admissible(st.heap, req) && Recent(st.heap, env.now)
    ensures Recent(Step(cfg, env, st, req).state.heap, env.now)
  {
  }
}
