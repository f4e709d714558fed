/**
 * Answers told by the history of a run: who logged in when, what was granted and validated,
 * and what was destroyed. No policy, count or flag of a ticket is read.
 */
module History {
  import opened Domain
  import opened Expiration
  import opened Tickets
  import opened Protocol
  import opened Steps
  import opened Runs
  import opened Provenance
  import opened Answers

  // ---- What happened to a ticket -----------------------------------------------------------------

  /** Call `i` issued the ticket. */
  predicate Issues(r: Run, i: nat, id: TicketId)
    requires i < |r.answers|
  {
    r.answers[i] == Issued(id)
  }

  /** A grant on the granting ticket, or a validation of the service ticket past its expiry check. */
  predicate UsedBy(req: Request, answer: Outcome, id: TicketId) {
    (req.Grant? && req.tgt == id && answer.Issued?) || Passed(req, answer, id)
  }

  predicate Uses(r: Run, i: nat, id: TicketId)
    requires i < |r.calls| && i < |r.answers|
  {
    UsedBy(r.calls[i].req, r.answers[i], id)
  }

  predicate Touches(r: Run, i: nat, id: TicketId)
    requires i < |r.calls| && i < |r.answers|
  {
    Issues(r, i, id) || Uses(r, i, id)
  }

  /** Call `i` destroyed the ticket, which was stored then. */
  predicate Destroys(r: Run, i: nat, id: TicketId)
    requires i < |r.calls| && i < |r.states| && i < |r.answers|
  {
    r.calls[i].req == Destroy(id) && r.answers[i] == Destroyed && id in r.states[i].registry
  }

  function UseCount(r: Run, k: nat, id: TicketId): nat
    requires k <= |r.calls| && k <= |r.answers|
  {
    if k == 0 then 0 else UseCount(r, k - 1, id) + if Uses(r, k - 1, id) then 1 else 0
  }

  /** The ticket was issued at least `d` ago. */
  ghost predicate Aged(r: Run, k: nat, id: TicketId, now: int, d: int)
    requires k <= |r.calls| && k <= |r.answers|
  {
    forall i {:trigger Issues(r, i, id)} :: 0 <= i < k && Issues(r, i, id) ==> now - r.calls[i].env.now >= d
  }

  /** The ticket was issued, and last used, at least `d` ago. */
  ghost predicate Idle(r: Run, k: nat, id: TicketId, now: int, d: int)
    requires k <= |r.calls| && k <= |r.answers|
  {
    forall i {:trigger Touches(r, i, id)} :: 0 <= i < k && Touches(r, i, id) ==> now - r.calls[i].env.now >= d
  }

  /** The ticket was issued, or used, at most `d` ago. */
  ghost predicate Fresh(r: Run, k: nat, id: TicketId, now: int, d: int)
    requires k <= |r.calls| && k <= |r.answers|
  {
    exists i {:trigger Touches(r, i, id)} :: 0 <= i < k && Touches(r, i, id) && now - r.calls[i].env.now <= d
  }

  ghost predicate Gone(r: Run, k: nat, id: TicketId)
    requires k <= |r.calls| && k <= |r.states| && k <= |r.answers|
  {
    exists i {:trigger Destroys(r, i, id)} :: 0 <= i < k && Destroys(r, i, id)
  }

  /** What the credentials of a login or a delegation authenticated to. */
  function LoginBy(call: Call): Option<Authentication> {
    match call.req
    case Create(credentials, _) => call.env.authenticate(credentials)
    case Delegate(_, credentials, _) => call.env.authenticate(credentials)
    case _ => None
  }

  /** The user asked to be remembered. */
  predicate AskedFor(login: Option<Authentication>) {
    && login.Some?
    && "org.jasig.cas.authentication.principal.REMEMBER_ME" in login.value.attributes
    && match login.value.attributes["org.jasig.cas.authentication.principal.REMEMBER_ME"]
       case Flag(on) => on
       case Text(_) => true
       case NullValue => false
  }

  ghost predicate RememberedLogin(r: Run, k: nat, id: TicketId)
    requires k <= |r.calls| && k <= |r.answers|
  {
    exists i {:trigger Issues(r, i, id)} :: 0 <= i < k && Issues(r, i, id) && AskedFor(LoginBy(r.calls[i]))
  }

  /** When a policy wants a ticket to be over, by what happened to the ticket in the first `k` calls. */
  ghost predicate Due(p: Policy, r: Run, k: nat, id: TicketId, now: int)
    requires k <= |r.calls| && k <= |r.answers|
  {
    match p
    case NeverExpires => false
    case HardTimeout(ttk) => Aged(r, k, id, now, ttk)
    case Timeout(ttk) => Idle(r, k, id, now, ttk)
    case MultiUseOrTimeout(n, ttk) => UseCount(r, k, id) >= n || Idle(r, k, id, now, ttk)
    case TwoWindows(ttl, ttk) => Aged(r, k, id, now, ttl) || Idle(r, k, id, now, ttk)
    case ThrottledUse(ttk, gap) => Idle(r, k, id, now, ttk) || (UseCount(r, k, id) > 0 && Fresh(r, k, id, now, gap))
    case RememberMe(yes, no) =>
      (RememberedLogin(r, k, id) && Due(yes, r, k, id, now)) || (!RememberedLogin(r, k, id) && Due(no, r, k, id, now))
  }

  // ---- When a ticket is over ---------------------------------------------------------------------

  function PolicyFor(cfg: Config, id: TicketId): Policy {
    if IsTgtId(id) then cfg.tgtPolicy else cfg.stPolicy
  }

  /** By its own history, the tickets above it aside, the ticket is over. */
  ghost predicate OverAlone(r: Run, k: nat, id: TicketId, now: int)
    requires k <= |r.calls| && k <= |r.states| && k <= |r.answers|
  {
    Due(PolicyFor(r.cfg, id), r, k, id, now) || Gone(r, k, id)
  }

  /** The ticket, or one above it, is over by its own history. */
  ghost predicate Over(r: Run, k: nat, id: TicketId, now: int)
    requires r.WellSized() && k <= |r.calls|
  {
    exists above {:trigger OverAlone(r, k, above, now)} ::
      above in r.states[k].heap && Under(r.states[k].heap, above, id) && OverAlone(r, k, above, now)
  }

  /** What a policy says of a ticket is what it wants by the ticket's history. */
  lemma {:induction false} DueIffExpires(p: Policy, r: Run, k: nat, id: TicketId, now: int)
    requires r.Valid() && k <= |r.calls| && id in r.states[k].heap
    ensures var t := r.states[k].heap[id];
      p.Expires(t.created, t.usage, t.Authenticated(), now) <==> Due(p, r, k, id, now)
  {
    HistoryIsKept(r, k, id);
    match p
    case RememberMe(yes, no) =>
      DueIffExpires(yes, r, k, id, now);
      DueIffExpires(no, r, k, id, now);
    case _ =>
  }

  /** In every state of every run, for every policy: expired is what is over by the history. */
  lemma ExpiredIffOver(r: Run, k: nat, id: TicketId, now: int)
    requires r.Valid() && k <= |r.calls| && id in r.states[k].heap
    ensures Expired(r.states[k].heap, id, now) <==> Over(r, k, id, now)
  {
    ExpiredIff(r.states[k].heap, id, now);
    forall above | above in r.states[k].heap
      ensures r.states[k].heap[above].ExpiredAlone(now) <==> OverAlone(r, k, above, now)
    {
      OverAloneIs(r, k, above, now);
    }
  }

  /**
   * The shipped policy for logins: a session is over exactly if it was destroyed, its hard window
   * has passed, or its sliding window has since the login and every grant on it.
   */
  lemma TwoWindowsIff(r: Run, login: nat, k: nat, id: TicketId, now: int)
    requires r.Valid() && login < k <= |r.calls| && r.calls[login].req.Create? && Issues(r, login, id)
    requires r.cfg.tgtPolicy.TwoWindows?
    ensures id in r.states[k].heap
    ensures var start, p := r.calls[login].env.now, r.cfg.tgtPolicy;
      Expired(r.states[k].heap, id, now) <==>
        || Gone(r, k, id)
        || now >= start + p.maxTimeToLive
        || (now >= start + p.timeToKill
            && forall i {:trigger r.answers[i]} :: 0 <= i < k && r.calls[i].req.Grant? && r.calls[i].req.tgt == id && r.answers[i].Issued?
                 ==> now >= r.calls[i].env.now + p.timeToKill)
  {
    RootOverIff(r, login, k, id, now);
    NotPassed(r, k, id);
    assert Issues(r, login, id) && Touches(r, login, id);
    forall i | 0 <= i < k && Issues(r, i, id) ensures i == login {
      OnlyOneIssues(r, k, id, login, i);
    }
    forall i | 0 <= i < k && i != login
      ensures Touches(r, i, id) <==> r.calls[i].req.Grant? && r.calls[i].req.tgt == id && r.answers[i].Issued?
    {
      assert !Issues(r, i, id) && !Passed(r.calls[i].req, r.answers[i], id);
    }
  }

  /**
   * The shipped policy for service tickets: expired exactly after n uses, when it was neither
   * granted nor used within its time, or when the session is expired.
   */
  lemma MultiUseIff(r: Run, g: nat, k: nat, id: TicketId, now: int)
    requires r.Valid() && g < k <= |r.calls| && r.calls[g].req.Grant? && Issues(r, g, id)
    requires r.cfg.stPolicy.MultiUseOrTimeout?
    ensures id in r.states[k].heap && r.calls[g].req.tgt in r.states[k].heap
    ensures var start, p := r.calls[g].env.now, r.cfg.stPolicy;
      Expired(r.states[k].heap, id, now) <==>
        || Expired(r.states[k].heap, r.calls[g].req.tgt, now)
        || Passes(r, k, id) >= p.maxUses
        || (now >= start + p.timeToKill
            && forall i {:trigger r.answers[i]} :: 0 <= i < k && Passed(r.calls[i].req, r.answers[i], id)
                 ==> now >= r.calls[i].env.now + p.timeToKill)
  {
    ServiceTicketOverIff(r, g, k, id, now);
    Reachable(r, g);
    assert r.Happens(g);
    UsesArePasses(r, k, id);
    assert Issues(r, g, id) && Touches(r, g, id);
    forall i | 0 <= i < k && Issues(r, i, id) ensures i == g {
      OnlyOneIssues(r, k, id, g, i);
    }
    forall i | 0 <= i < k && i != g ensures Touches(r, i, id) <==> Passed(r.calls[i].req, r.answers[i], id) {
      assert !Issues(r, i, id) && (Uses(r, i, id) <==> Passed(r.calls[i].req, r.answers[i], id));
    }
  }

  /** A stored granting ticket refuses a grant as invalid exactly if it is over. */
  lemma GrantInvalidIff(r: Run, k: nat)
    requires r.Valid() && k < |r.calls| && r.calls[k].req.Grant? && Holds(r.states[k], r.calls[k].req.tgt, true)
    ensures r.answers[k] == Failed(InvalidTicket) <==> Over(r, k, r.calls[k].req.tgt, r.calls[k].env.now)
  {
    var req, env := r.calls[k].req, r.calls[k].env;
    assert r.Happens(k);
    Reachable(r, k);
    ExpiredIffOver(r, k, req.tgt, env.now);
    GrantEffect(r.cfg, env, r.states[k], req.tgt, req.service, req.optional, req.newId);
    if !Expired(r.states[k].heap, req.tgt, env.now) {
      LiveGrantAnswer(r.cfg, env, r.states[k], req.tgt, req.service, req.optional, req.newId);
    }
  }

  /** With lasting policies, a ticket that is not in the registry any more is expired. */
  lemma {:induction false} UnstoredIsExpired(r: Run, k: nat, id: TicketId, now: int)
    requires r.Valid() && Lasting(r.cfg) && k <= |r.calls| && (k > 0 ==> r.calls[k - 1].env.now <= now)
    requires id in r.states[k].heap && id !in r.states[k].registry
    ensures Expired(r.states[k].heap, id, now)
  {
    assert k > 0;
    var past := r.calls[k - 1].env.now;
    Reachable(r, k - 1);
    assert r.Happens(k - 1);
    if k > 1 {
      assert Follows(r.calls[k - 2], r.calls[k - 1]);
    }
    if id in r.states[k - 1].registry || id !in r.states[k - 1].heap {
      DroppedIsExpired(r.cfg, r.calls[k - 1].env, r.states[k - 1], r.calls[k - 1].req, id);
    } else {
      UnstoredIsExpired(r, k - 1, id, past);
      ExpiryIsPermanent(r, k - 1, k, id, past, past);
    }
    if k < |r.calls| {
      assert Follows(r.calls[k - 1], r.calls[k]);
    }
    ExpiryIsPermanent(r, k, k, id, past, now);
  }

  // ---- The answers of a run ----------------------------------------------------------------------

  /** Call `i` opened the session on which call `k` may grant. */
  ghost predicate MayGrant(r: Run, i: nat, k: nat)
    requires r.WellSized() && i < k < |r.calls| && r.calls[k].req.Grant?
  {
    var req, env := r.calls[k].req, r.calls[k].env;
    var login, found := LoginBy(r.calls[i]), env.find(req.service);
    && Issues(r, i, req.tgt) && login.Some? && !Over(r, k, req.tgt, env.now)
    && found.Some? && found.value.enabled
    && (found.value.ssoEnabled || req.optional.Some? || forall j {:trigger Uses(r, j, req.tgt)} :: 0 <= j < k ==> !Uses(r, j, req.tgt))
    && (r.calls[i].req.Create? || found.value.allowedToProxy)
    && (req.optional.Some? ==> Vouched(env, req.optional.value, login.value))
  }

  /**
   * With lasting policies, a grant issues a ticket exactly if a login or delegation opened a session
   * that is not over, for a service that may have the ticket, and the same user for any credentials.
   */
  lemma GrantAnswered(r: Run, k: nat)
    requires r.Valid() && Lasting(r.cfg) && k < |r.calls| && r.calls[k].req.Grant?
    ensures r.answers[k].Issued? <==> exists i {:trigger MayGrant(r, i, k)} :: 0 <= i < k && MayGrant(r, i, k)
  {
    var req, st := r.calls[k].req, r.states[k];
    Reachable(r, k);
    assert r.Happens(k);
    GrantIssuesIff(r.cfg, r.calls[k].env, st, req.tgt, req.service, req.optional, req.newId);
    GrantEffect(r.cfg, r.calls[k].env, st, req.tgt, req.service, req.optional, req.newId);
    HoldsLiveIff(r, k, req.tgt, true);
    if req.tgt in st.heap && st.heap[req.tgt].kind.Granting? {
      NothingGrantedIff(r, k, req.tgt);
      var i := IssuerOf(r, k, req.tgt);
      forall j | 0 <= j < k && Issues(r, j, req.tgt) ensures j == i {
        OnlyOneIssues(r, k, req.tgt, j, i);
      }
      assert r.answers[k].Issued? <==> MayGrant(r, i, k);
    } else {
      forall i | 0 <= i < k ensures !MayGrant(r, i, k) {
        OtherKind(r, i, k, req.tgt, true);
      }
    }
  }

  /** Call `g` granted the ticket that call `k` may validate, in the session that call `login` opened. */
  ghost predicate MayValidate(r: Run, login: nat, g: nat, k: nat)
    requires r.WellSized() && login < k && g < k < |r.calls| && r.calls[k].req.Validate?
  {
    var req, env := r.calls[k].req, r.calls[k].env;
    var user, found := LoginBy(r.calls[login]), env.find(req.service);
    && r.calls[g].req.Grant? && Issues(r, g, req.st) && !Over(r, k, req.st, env.now)
    && r.calls[login].req.Create? && Issues(r, login, Root(r.states[k].heap, req.st))
    && found.Some? && found.value.enabled && env.matches(req.service, r.calls[g].req.service)
    && user.Some? && !NameIsNull(user.value.principal, found.value)
  }

  /** With lasting policies, a validation succeeds exactly for a granted ticket that is not over, and a service that matches. */
  lemma ValidationAnswered(r: Run, k: nat)
    requires r.Valid() && Lasting(r.cfg) && k < |r.calls| && r.calls[k].req.Validate?
    ensures r.answers[k].Asserted? <==>
      exists login, g {:trigger MayValidate(r, login, g, k)} :: 0 <= login < k && 0 <= g < k && MayValidate(r, login, g, k)
  {
    var req, st := r.calls[k].req, r.states[k];
    Reachable(r, k);
    assert r.Happens(k);
    ValidateAssertsIff(r.cfg, r.calls[k].env, st, req.st, req.service);
    HoldsLiveIff(r, k, req.st, false);
    if req.st in st.heap && st.heap[req.st].kind.OneService? {
      var g := IssuerOf(r, k, req.st);
      var login := SessionLoginOf(r, k, req.st);
      forall j | 0 <= j < k && Issues(r, j, req.st) ensures j == g {
        OnlyOneIssues(r, k, req.st, j, g);
      }
      forall j | 0 <= j < k && Issues(r, j, Root(st.heap, req.st)) ensures j == login {
        OnlyOneIssues(r, k, Root(st.heap, req.st), j, login);
      }
      assert r.answers[k].Asserted? <==> MayValidate(r, login, g, k);
    } else {
      forall login: nat, g: nat | login < k && g < k ensures !MayValidate(r, login, g, k) {
        OtherKind(r, g, k, req.st, false);
      }
    }
  }

  /** Call `i` delegated on the service ticket. */
  predicate Delegates(r: Run, i: nat, id: TicketId)
    requires i < |r.calls| && i < |r.answers|
  {
    r.calls[i].req.Delegate? && r.calls[i].req.st == id && r.answers[i].Issued?
  }

  /** Call `g` granted the ticket on which call `k` may delegate. */
  ghost predicate MayDelegate(r: Run, g: nat, k: nat)
    requires r.WellSized() && g < k < |r.calls| && r.calls[k].req.Delegate?
  {
    var req, env := r.calls[k].req, r.calls[k].env;
    r.calls[g].req.Grant? && Issues(r, g, req.st) && !Over(r, k, req.st, env.now)
    && env.authenticate(req.credentials).Some?
    && (var found := env.find(r.calls[g].req.service);
        found.Some? && found.value.enabled && found.value.allowedToProxy)
    && forall i {:trigger Delegates(r, i, req.st)} :: 0 <= i < k ==> !Delegates(r, i, req.st)
  }

  /** With lasting policies, a delegation issues a ticket exactly once, for a service that may proxy. */
  lemma DelegationAnswered(r: Run, k: nat)
    requires r.Valid() && Lasting(r.cfg) && k < |r.calls| && r.calls[k].req.Delegate?
    ensures r.answers[k].Issued? <==> exists g {:trigger MayDelegate(r, g, k)} :: 0 <= g < k && MayDelegate(r, g, k)
  {
    var req, st := r.calls[k].req, r.states[k];
    Reachable(r, k);
    assert r.Happens(k);
    DelegateAnswer(r.cfg, r.calls[k].env, st, req.st, req.credentials, req.newId);
    HoldsLiveIff(r, k, req.st, false);
    SpentIffDelegated(r, k, req.st);
    if req.st in st.heap && st.heap[req.st].kind.OneService? {
      var g := IssuerOf(r, k, req.st);
      forall j | 0 <= j < k && Issues(r, j, req.st) ensures j == g {
        OnlyOneIssues(r, k, req.st, j, g);
      }
      assert r.answers[k].Issued? <==> MayDelegate(r, g, k);
    } else {
      forall g | 0 <= g < k ensures !MayDelegate(r, g, k) {
        OtherKind(r, g, k, req.st, false);
      }
    }
  }

  // ---- Usage, age and authentication -------------------------------------------------------------

  /** Usage, age and authentication of a ticket are those of its history. */
  ghost predicate Recorded(r: Run, k: nat, id: TicketId)
    requires r.WellSized() && k <= |r.calls| && id in r.states[k].heap
  {
    var t := r.states[k].heap[id];
    && t.usage.uses == UseCount(r, k, id)
    && (exists i {:trigger Issues(r, i, id)} :: 0 <= i < k && Issues(r, i, id) && t.Authenticated() == LoginBy(r.calls[i]))
    && (forall i {:trigger Issues(r, i, id)} :: 0 <= i < k && Issues(r, i, id) ==>
          r.calls[i].env.now == t.created && t.Authenticated() == LoginBy(r.calls[i]))
    && (exists i {:trigger Touches(r, i, id)} :: 0 <= i < k && Touches(r, i, id) && r.calls[i].env.now == t.usage.lastUsed)
    && (forall i {:trigger Touches(r, i, id)} :: 0 <= i < k && Touches(r, i, id) ==> r.calls[i].env.now <= t.usage.lastUsed)
  }

  ghost predicate Untouched(r: Run, k: nat, id: TicketId)
    requires k <= |r.calls| && k <= |r.answers|
  {
    UseCount(r, k, id) == 0 && forall i {:trigger Touches(r, i, id)} :: 0 <= i < k ==> !Touches(r, i, id)
  }

  /** What one call does to the usage of a ticket. */
  ghost predicate Records(env: Env, h: Heap, req: Request, reply: Reply, id: TicketId) {
    var used, k := UsedBy(req, reply.outcome, id), reply.state.heap;
    if id in h then
      && reply.outcome != Issued(id) && id in k
      && k[id].usage == (if used then Usage(env.now, h[id].usage.lastUsed, h[id].usage.uses + 1) else h[id].usage)
      && k[id].created == h[id].created && k[id].Authenticated() == h[id].Authenticated()
    else
      && !used && (id in k <==> reply.outcome == Issued(id))
      && (id in k ==>
            && k[id].usage == Usage(env.now, 0, 0) && k[id].created == env.now
            && k[id].Authenticated() == LoginBy(Call(env, req)))
  }

  lemma GrantRecords(cfg: Config, env: Env, st: State, req: Request, id: TicketId)
    requires Inv(cfg, st) && Admissible(st.heap, req) && req.Grant?
    ensures Records(env, st.heap, req, Step(cfg, env, st, req), id)
  {
    GrantEffect(cfg, env, st, req.tgt, req.service, req.optional, req.newId);
  }

  lemma DelegateRecords(cfg: Config, env: Env, st: State, req: Request, id: TicketId)
    requires Inv(cfg, st) && Admissible(st.heap, req) && req.Delegate?
    ensures Records(env, st.heap, req, Step(cfg, env, st, req), id)
  {
    DelegateAnswer(cfg, env, st, req.st, req.credentials, req.newId);
  }

  lemma ValidateRecords(cfg: Config, env: Env, st: State, req: Request, id: TicketId)
    requires Inv(cfg, st) && req.Validate?
    ensures Records(env, st.heap, req, Step(cfg, env, st, req), id)
  {
    ValidateEffect(cfg, env, st, req.st, req.service);
  }

  lemma StepRecords(cfg: Config, env: Env, st: State, req: Request, id: TicketId)
    requires Inv(cfg, st) && Admissible(st.heap, req)
    ensures Records(env, st.heap, req, Step(cfg, env, st, req), id)
  {
    match req
    case Create(credentials, newId) => CreateAnswer(cfg, env, st, credentials, newId);
    case Grant(_, _, _, _) => GrantRecords(cfg, env, st, req, id);
    case Delegate(_, _, _) => DelegateRecords(cfg, env, st, req, id);
    case Validate(_, _) => ValidateRecords(cfg, env, st, req, id);
    case Destroy(tgt) => DestroyAnswer(cfg, env, st, tgt);
  }

  lemma NextRecords(r: Run, k: nat, id: TicketId)
    requires r.Valid() && k < |r.calls|
    ensures Records(r.calls[k].env, r.states[k].heap, r.calls[k].req, Reply(r.states[k + 1], r.answers[k]), id)
    ensures id in r.states[k].heap ==> r.states[k].heap[id].usage.lastUsed <= r.calls[k].env.now
  {
    Reachable(r, k);
    assert r.Happens(k);
    StepRecords(r.cfg, r.calls[k].env, r.states[k], r.calls[k].req, id);
    if k > 0 {
      assert Follows(r.calls[k - 1], r.calls[k]);
    }
    NothingUsedLater(r, k, r.calls[k].env.now);
  }

  lemma StaysRecorded(r: Run, k: nat, id: TicketId)
    requires r.Valid() && k < |r.calls| && id in r.states[k].heap && Recorded(r, k, id)
    ensures id in r.states[k + 1].heap && Recorded(r, k + 1, id)
  {
    NextRecords(r, k, id);
    var t, next := r.states[k].heap[id], r.states[k + 1].heap[id];
    assert !Issues(r, k, id);
    assert Touches(r, k, id) <==> Uses(r, k, id);
    assert r.states[k + 1].heap[id].usage.lastUsed == if Uses(r, k, id) then r.calls[k].env.now else t.usage.lastUsed;
    var i :| 0 <= i < k && Issues(r, i, id) && t.Authenticated() == LoginBy(r.calls[i]);
    assert Issues(r, i, id) && next.Authenticated() == LoginBy(r.calls[i]);
  }

  lemma BecomesRecorded(r: Run, k: nat, id: TicketId)
    requires r.Valid() && k < |r.calls| && id !in r.states[k].heap && Untouched(r, k, id)
    ensures if id in r.states[k + 1].heap then Recorded(r, k + 1, id) else Untouched(r, k + 1, id)
  {
    NextRecords(r, k, id);
    assert !Uses(r, k, id);
    assert Touches(r, k, id) <==> Issues(r, k, id);
    forall i | 0 <= i < k ensures !Issues(r, i, id) {
      assert !Touches(r, i, id);
    }
  }

  lemma {:induction false} HistoryIsKept(r: Run, k: nat, id: TicketId)
    requires r.Valid() && k <= |r.calls|
    ensures if id in r.states[k].heap then Recorded(r, k, id) else Untouched(r, k, id)
  {
    if k > 0 {
      HistoryIsKept(r, k - 1, id);
      if id in r.states[k - 1].heap {
        StaysRecorded(r, k - 1, id);
      } else {
        BecomesRecorded(r, k - 1, id);
      }
    }
  }

  // ---- The flag of a destroyed ticket ------------------------------------------------------------

  ghost predicate Flagged(h: Heap, id: TicketId) {
    id in h && h[id].kind.Granting? && h[id].kind.expired
  }

  lemma FlagStep(cfg: Config, env: Env, st: State, req: Request, id: TicketId)
    requires Inv(cfg, st) && Admissible(st.heap, req)
    ensures var reply := Step(cfg, env, st, req);
      Flagged(reply.state.heap, id) <==>
        Flagged(st.heap, id) || (req == Destroy(id) && reply.outcome == Destroyed && id in st.registry)
  {
    match req
    case Create(credentials, newId) => CreateAnswer(cfg, env, st, credentials, newId);
    case Grant(tgt, service, optional, newId) => GrantEffect(cfg, env, st, tgt, service, optional, newId);
    case Delegate(stId, credentials, newId) => DelegateAnswer(cfg, env, st, stId, credentials, newId);
    case Validate(stId, service) => ValidateEffect(cfg, env, st, stId, service);
    case Destroy(tgt) => DestroyAnswer(cfg, env, st, tgt);
  }

  lemma FlagNext(r: Run, k: nat, id: TicketId)
    requires r.Valid() && k < |r.calls|
    ensures Flagged(r.states[k + 1].heap, id) <==> Flagged(r.states[k].heap, id) || Destroys(r, k, id)
  {
    Reachable(r, k);
    assert r.Happens(k);
    FlagStep(r.cfg, r.calls[k].env, r.states[k], r.calls[k].req, id);
  }

  /** The flag of a granting ticket is set exactly if it was destroyed. */
  lemma {:induction false} FlaggedIffGone(r: Run, k: nat, id: TicketId)
    requires r.Valid() && k <= |r.calls|
    ensures Flagged(r.states[k].heap, id) <==> Gone(r, k, id)
  {
    if k > 0 {
      FlaggedIffGone(r, k - 1, id);
      FlagNext(r, k - 1, id);
    }
  }

  // ---- Tickets and their issuing calls -----------------------------------------------------------

  lemma OverAloneIs(r: Run, k: nat, id: TicketId, now: int)
    requires r.Valid() && k <= |r.calls| && id in r.states[k].heap
    ensures r.states[k].heap[id].ExpiredAlone(now) <==> OverAlone(r, k, id, now)
  {
    Reachable(r, k);
    HistoryIsKept(r, k, id);
    DueIffExpires(PolicyFor(r.cfg, id), r, k, id, now);
    FlaggedIffGone(r, k, id);
  }

  lemma IssuedIsThere(r: Run, i: nat, k: nat, id: TicketId)
    requires r.Valid() && i < k <= |r.calls| && Issues(r, i, id)
    ensures id in r.states[k].heap
  {
    HistoryIsKept(r, k, id);
    assert Touches(r, i, id);
  }

  /** No identifier is issued twice. */
  lemma OnlyOneIssues(r: Run, k: nat, id: TicketId, i: nat, j: nat)
    requires r.Valid() && i < k <= |r.calls| && j < k && Issues(r, i, id) && Issues(r, j, id)
    ensures i == j
  {
    IssuesNew(r, i, id);
    IssuesNew(r, j, id);
    if i < j {
      NewIdsDiffer(r, i, j);
    } else if j < i {
      NewIdsDiffer(r, j, i);
    }
  }

  lemma NewIdsDiffer(r: Run, i: nat, j: nat)
    requires r.Valid() && i < j < |r.calls|
    ensures NewId(r.calls[i].req).Some? ==> NewId(r.calls[i].req) != NewId(r.calls[j].req)
  {
    assert Follows(r.calls[i], r.calls[j]);
  }

  lemma IssuesNew(r: Run, i: nat, id: TicketId)
    requires r.Valid() && i < |r.calls| && Issues(r, i, id)
    ensures NewId(r.calls[i].req) == Some(id)
  {
    assert r.Happens(i);
  }

  /** A root is expired exactly if it is over by its own history. */
  lemma RootOverIff(r: Run, login: nat, k: nat, id: TicketId, now: int)
    requires r.Valid() && login < k <= |r.calls| && r.calls[login].req.Create? && Issues(r, login, id)
    ensures id in r.states[k].heap && r.states[k].heap[id].kind.Granting?
    ensures Expired(r.states[k].heap, id, now) <==> Due(r.cfg.tgtPolicy, r, k, id, now) || Gone(r, k, id)
  {
    IssuedIsThere(r, login, k, id);
    var i := Origin(r, k, id);
    OnlyOneIssues(r, k, id, login, i);
    OverAloneIs(r, k, id, now);
    Reachable(r, k);
  }

  /** Granting tickets are not validated. */
  lemma NotPassed(r: Run, k: nat, id: TicketId)
    requires r.Valid() && k <= |r.calls| && id in r.states[k].heap && r.states[k].heap[id].kind.Granting?
    ensures forall i {:trigger r.answers[i]} :: 0 <= i < k ==> !Passed(r.calls[i].req, r.answers[i], id)
  {
    forall i | 0 <= i < k ensures !Passed(r.calls[i].req, r.answers[i], id) {
      assert r.Happens(i);
      if id in r.states[i].heap {
        TicketsPersist(r, i, k, id);
      }
    }
  }

  /** A service ticket is expired exactly if it is over by its own history, or its session is expired. */
  lemma ServiceTicketOverIff(r: Run, g: nat, k: nat, id: TicketId, now: int)
    requires r.Valid() && g < k <= |r.calls| && r.calls[g].req.Grant? && Issues(r, g, id)
    ensures id in r.states[k].heap && r.calls[g].req.tgt in r.states[k].heap
    ensures Expired(r.states[k].heap, id, now)
      <==> Due(r.cfg.stPolicy, r, k, id, now) || Expired(r.states[k].heap, r.calls[g].req.tgt, now)
  {
    IssuedIsThere(r, g, k, id);
    var i := Origin(r, k, id);
    OnlyOneIssues(r, k, id, g, i);
    Reachable(r, k);
    OverAloneIs(r, k, id, now);
    FlaggedIffGone(r, k, id);
    assert Rooted(r.states[k].heap, id);
    ForestLinks(r.states[k].heap, id);
  }

  lemma {:induction false} UsesArePasses(r: Run, k: nat, id: TicketId)
    requires r.Valid() && k <= |r.calls| && !IsTgtId(id)
    ensures UseCount(r, k, id) == Passes(r, k, id)
    ensures forall i {:trigger Uses(r, i, id)} :: 0 <= i < k ==> (Uses(r, i, id) <==> Passed(r.calls[i].req, r.answers[i], id))
  {
    if k > 0 {
      UsesArePasses(r, k - 1, id);
      Reachable(r, k - 1);
      assert r.Happens(k - 1);
    }
  }

  /** A ticket that a call drops is expired then; a new one is stored. */
  lemma DroppedIsExpired(cfg: Config, env: Env, st: State, req: Request, id: TicketId)
    requires Inv(cfg, st) && Admissible(st.heap, req) && (id in st.registry || id !in st.heap)
    ensures var next := Step(cfg, env, st, req).state;
      id in next.heap ==> id in next.registry || Expired(next.heap, id, env.now)
  {
    var next := Step(cfg, env, st, req).state;
    StepKeeps(cfg, env, st, req);
    match req
    case Create(credentials, newId) => CreateAnswer(cfg, env, st, credentials, newId);
    case Delegate(stId, credentials, newId) => DelegateAnswer(cfg, env, st, stId, credentials, newId);
    case Grant(tgt, service, optional, newId) =>
      GrantEffect(cfg, env, st, tgt, service, optional, newId);
      if id in st.registry && id !in next.registry {
        ExpiryIsInherited(next.heap, tgt, id, env.now);
      }
    case Validate(stId, service) => ValidateEffect(cfg, env, st, stId, service);
    case Destroy(tgt) =>
      DestroyAnswer(cfg, env, st, tgt);
      if id in st.registry && id !in next.registry {
        EvolvesUnder(st.heap, next.heap, env.now, tgt, id);
        ExpiryIsInherited(next.heap, tgt, id, env.now);
      }
  }

  // ---- Behind the answers ------------------------------------------------------------------------

  /** With lasting policies, a live ticket can be used exactly if it was issued and is not over. */
  lemma HoldsLiveIff(r: Run, k: nat, id: TicketId, granting: bool)
    requires r.Valid() && Lasting(r.cfg) && k < |r.calls|
    ensures Holds(r.states[k], id, granting) && !Expired(r.states[k].heap, id, r.calls[k].env.now)
      <==> id in r.states[k].heap && IsTgtId(id) == granting && !Over(r, k, id, r.calls[k].env.now)
  {
    Reachable(r, k);
    if id in r.states[k].heap {
      ExpiredIffOver(r, k, id, r.calls[k].env.now);
      if k > 0 {
        assert Follows(r.calls[k - 1], r.calls[k]);
      }
      if id !in r.states[k].registry {
        UnstoredIsExpired(r, k, id, r.calls[k].env.now);
      }
    }
  }

  /** The call that issued a ticket, and what the ticket has of it. */
  lemma IssuerOf(r: Run, k: nat, id: TicketId) returns (i: nat)
    requires r.Valid() && k <= |r.calls| && id in r.states[k].heap
    ensures i < k && Issues(r, i, id)
    ensures r.states[k].heap[id].kind.Granting? <==> !r.calls[i].req.Grant?
    ensures var t, call := r.states[k].heap[id], r.calls[i];
      && t.Authenticated() == LoginBy(call) && (t.kind.Granting? ==> LoginBy(call).Some?)
      && (t.parent == None <==> call.req.Create?)
      && (call.req.Grant? ==> t.parent == Some(call.req.tgt) && t.kind.service == call.req.service)
  {
    i := Origin(r, k, id);
    HistoryIsKept(r, k, id);
    if r.calls[i].req.Delegate? {
      DelegatedHasParent(r, i, id);
    }
  }

  lemma NothingGrantedIff(r: Run, k: nat, tgt: TicketId)
    requires r.Valid() && k <= |r.calls| && tgt in r.states[k].heap && r.states[k].heap[tgt].kind.Granting?
    ensures GrantedBy(r.states[k].heap, tgt) == {} <==> forall j {:trigger Uses(r, j, tgt)} :: 0 <= j < k ==> !Uses(r, j, tgt)
  {
    GrantsAreCounted(r, k, tgt);
    HistoryIsKept(r, k, tgt);
    CountIsZero(r, k, tgt);
  }

  lemma {:induction false} CountIsZero(r: Run, k: nat, id: TicketId)
    requires k <= |r.calls| && k <= |r.answers|
    ensures UseCount(r, k, id) == 0 <==> forall j {:trigger Uses(r, j, id)} :: 0 <= j < k ==> !Uses(r, j, id)
  {
    if k > 0 {
      CountIsZero(r, k - 1, id);
    }
  }

  /** Only what issued the ticket tells its kind. */
  lemma OtherKind(r: Run, i: nat, k: nat, id: TicketId, granting: bool)
    requires r.Valid() && i < k <= |r.calls|
    requires !(id in r.states[k].heap && r.states[k].heap[id].kind.Granting? == granting)
    ensures !(Issues(r, i, id) && r.calls[i].req.Grant? != granting && (granting ==> LoginBy(r.calls[i]).Some?))
  {
    if Issues(r, i, id) {
      IssuedIsThere(r, i, k, id);
      var j := IssuerOf(r, k, id);
      OnlyOneIssues(r, k, id, i, j);
    }
  }

  /** The login at the root of a ticket's session. */
  lemma SessionLoginOf(r: Run, k: nat, id: TicketId) returns (login: nat)
    requires r.Valid() && k <= |r.calls| && id in r.states[k].heap
    ensures login < k && r.calls[login].req.Create? && Issues(r, login, Root(r.states[k].heap, id))
    ensures SessionLogin(r.states[k].heap, id) == LoginBy(r.calls[login]) && LoginBy(r.calls[login]).Some?
  {
    Reachable(r, k);
    RootIsAbove(r.states[k].heap, id);
    login := IssuerOf(r, k, Root(r.states[k].heap, id));
  }

  ghost predicate Spent(h: Heap, id: TicketId) {
    id in h && h[id].kind.OneService? && h[id].kind.grantedAlready
  }

  lemma SpendStep(cfg: Config, env: Env, st: State, req: Request, id: TicketId)
    requires Inv(cfg, st) && Admissible(st.heap, req)
    ensures var reply := Step(cfg, env, st, req);
      Spent(reply.state.heap, id) <==> Spent(st.heap, id) || (req.Delegate? && req.st == id && reply.outcome.Issued?)
  {
    match req
    case Create(credentials, newId) => CreateAnswer(cfg, env, st, credentials, newId);
    case Grant(tgt, service, optional, newId) => GrantEffect(cfg, env, st, tgt, service, optional, newId);
    case Delegate(stId, credentials, newId) => DelegateAnswer(cfg, env, st, stId, credentials, newId);
    case Validate(stId, service) => ValidateEffect(cfg, env, st, stId, service);
    case Destroy(tgt) => DestroyAnswer(cfg, env, st, tgt);
  }

  lemma SpendNext(r: Run, k: nat, id: TicketId)
    requires r.Valid() && k < |r.calls|
    ensures Spent(r.states[k + 1].heap, id) <==> Spent(r.states[k].heap, id) || Delegates(r, k, id)
  {
    Reachable(r, k);
    assert r.Happens(k);
    SpendStep(r.cfg, r.calls[k].env, r.states[k], r.calls[k].req, id);
  }

  lemma {:induction false} SpentIffDelegated(r: Run, k: nat, id: TicketId)
    requires r.Valid() && k <= |r.calls|
    ensures Spent(r.states[k].heap, id) <==> exists i {:trigger Delegates(r, i, id)} :: 0 <= i < k && Delegates(r, i, id)
  {
    if k > 0 {
      SpentIffDelegated(r, k - 1, id);
      SpendNext(r, k - 1, id);
    }
  }
}
