/** Runs that show why the theorems carry the conditions they carry. */
module Witnesses {
  import opened Domain
  import opened Expiration
  import opened Tickets
  import opened Protocol
  import opened Steps
  import opened Runs
  import opened Simulation
  import opened Validation
  import opened History

  /** A registered service that may do everything, or everything but proxy. */
  function Registered(mayProxy: bool): RegisteredService {
    RegisteredService(1, 0, "any", true, true, mayProxy, false, true, [], None)
  }

  const USER := Authentication(Principal("user", map[]), map[], 0)

  /** Everybody logs in as `user`; the services with the identifier of `s` are registered. */
  function Door(now: int, user: Authentication, s: WebApplicationService, mayProxy: bool): Env {
    Env(now, (t: WebApplicationService) => if t.id == s.id then Some(Registered(mayProxy)) else None, c => Some(user),
        (t: WebApplicationService, u: WebApplicationService) => t.id == u.id,
        (p: Principal, t: WebApplicationService) => p.id)
  }

  lemma PrefixesOfIds()
    ensures IsTgtId("TGT-1") && IsTgtId("TGT-2") && !IsTgtId("ST-1") && !IsTgtId("ST-2")
  {
    assert "TGT-1"[..3] == TGT_PREFIX && "TGT-2"[..3] == TGT_PREFIX;
    assert "ST-1"[0] != TGT_PREFIX[0] && "ST-2"[0] != TGT_PREFIX[0];
  }

  // ---- A login and a grant -----------------------------------------------------------------------

  function LoginAndGrant(user: Authentication, s: WebApplicationService): seq<Call> {
    var env := Door(0, user, s, true);
    [Call(env, Create(Credentials(""), "TGT-1")), Call(env, Grant("TGT-1", s, None, "ST-1"))]
  }

  function LoggedIn(cfg: Config, user: Authentication): State {
    Put(INITIAL, "TGT-1", NewRoot(cfg, 0, user))
  }

  /** The two tickets after the grant. */
  function Granted(cfg: Config, user: Authentication, s: WebApplicationService): State {
    var root := NewRoot(cfg, 0, user);
    State(map["TGT-1" := WithService(root.Touched(0), "ST-1", s),
              "ST-1" := NewServiceTicket(cfg, 0, "TGT-1", root, s, false)],
          {"TGT-1", "ST-1"}, {}, multiset{})
  }

  lemma AfterLoginAndGrant(cfg: Config, user: Authentication, s: WebApplicationService, rest: seq<Call>, r: Run)
    requires r == Execute(cfg, LoginAndGrant(user, s) + rest)
    requires !cfg.tgtPolicy.Expires(0, Usage(0, 0, 0), Some(user), 0)
    ensures r.states[2] == Granted(cfg, user, s)
  {
    assert r.Happens(0) && r.Happens(1);
    assert r.states[1] == LoggedIn(cfg, user);
  }

  /** The run of these two calls and the given ones: it starts as said, and the next two calls take their steps. */
  lemma RunOf(cfg: Config, user: Authentication, s: WebApplicationService, rest: seq<Call>) returns (r: Run)
    requires !cfg.tgtPolicy.Expires(0, Usage(0, 0, 0), Some(user), 0)
    ensures r == Execute(cfg, LoginAndGrant(user, s) + rest) && r.states[2] == Granted(cfg, user, s)
    ensures |rest| > 0 ==> Step(cfg, rest[0].env, r.states[2], rest[0].req) == Reply(r.states[3], r.answers[2])
    ensures |rest| > 1 ==> Step(cfg, rest[1].env, r.states[3], rest[1].req) == Reply(r.states[4], r.answers[3])
  {
    r := Execute(cfg, LoginAndGrant(user, s) + rest);
    AfterLoginAndGrant(cfg, user, s, rest, r);
    if |rest| > 0 {
      assert r.Happens(2);
    }
    if |rest| > 1 {
      assert r.Happens(3);
    }
  }

  /** The session is over exactly when the login's ticket says so; the service ticket may end before. */
  lemma GrantedExpiry(cfg: Config, user: Authentication, s: WebApplicationService, now: int)
    ensures var h := Granted(cfg, user, s).heap;
      && h["TGT-1"].usage == Usage(0, 0, 1) && Up(h, "ST-1") == Some("TGT-1") && Under(h, "TGT-1", "ST-1")
      && Chain(h, "TGT-1") == [user]
      && (Expired(h, "TGT-1", now) <==> cfg.tgtPolicy.Expires(0, Usage(0, 0, 1), Some(user), now))
      && (Expired(h, "ST-1", now) <==>
            cfg.stPolicy.Expires(0, Usage(0, 0, 0), None, now) || Expired(h, "TGT-1", now))
  {
    PrefixesOfIds();
    var h := Granted(cfg, user, s).heap;
    assert h["TGT-1"].parent == None && h["TGT-1"].depth == 0;
    assert h["ST-1"].parent == Some("TGT-1") && h["ST-1"].depth == 1;
    assert Up(h, "TGT-1") == None && Up(h, "ST-1") == Some("TGT-1");
  }

  // ---- A mistyped call ---------------------------------------------------------------------------

  /** Log out, then use the service ticket's identifier as a granting ticket. */
  function ConfusedCalls(s: WebApplicationService): seq<Call> {
    var env := Door(0, USER, s, true);
    [Call(env, Destroy("TGT-1")), Call(env, Grant("ST-1", s, None, "ST-2"))]
  }

  function Plain(mode: Mode): Config {
    Config(mode, NeverExpires, NeverExpires)
  }

  lemma UnderAfterExpire(mode: Mode, s: WebApplicationService)
    ensures var e := Expire(Granted(Plain(mode), USER, s), "TGT-1").heap;
      e["ST-1"].kind.OneService? && Under(e, "TGT-1", "ST-1")
  {
    var e := Expire(Granted(Plain(mode), USER, s), "TGT-1").heap;
    GrantedExpiry(Plain(mode), USER, s, 0);
    assert Up(e, "ST-1") == Some("TGT-1");
  }

  lemma Logout(mode: Mode, s: WebApplicationService)
    ensures "ST-1" in Step(Plain(mode), Door(0, USER, s, true), Granted(Plain(mode), USER, s), Destroy("TGT-1")).state.registry
      <==> mode.Lazy?
  {
    PrefixesOfIds();
    var st := Granted(Plain(mode), USER, s);
    UnderAfterExpire(mode, s);
    assert Find(Plain(mode), st, "TGT-1", true).Found?;
    assert Stored(Plain(mode), Expire(st, "TGT-1"), "TGT-1");
  }

  lemma ConfusedCallsAreLegal(s: WebApplicationService)
    ensures Legal(LoginAndGrant(USER, s) + ConfusedCalls(s))
  {
    PrefixesOfIds();
  }

  /** A call with an identifier of the wrong kind can tell the two registries apart. */
  lemma MistypedCallTellsApart(s: WebApplicationService) returns (l: Run, c: Run)
    ensures Twins(l, c) && |l.calls| == 4
    ensures !Typed(l.calls[3].req) && l.answers[3] != c.answers[3]
  {
    l := RunOf(Plain(Lazy), USER, s, ConfusedCalls(s));
    c := RunOf(Plain(Cascade), USER, s, ConfusedCalls(s));
    ConfusedCallsAreLegal(s);
    PrefixesOfIds();
    Logout(Lazy, s);
    Logout(Cascade, s);
    StoredIffNotOrphaned(l, c, 3, "ST-1");
    AnswersDifferIffConfused(l, c, 3);
  }

  // ---- Policies that revive a session --------------------------------------------------------------

  /** A second grant inside the waiting time, and a validation just after it. */
  function RevivingCalls(user: Authentication, s: WebApplicationService, t: nat): seq<Call> {
    [Call(Door(t, user, s, true), Grant("TGT-1", s, None, "ST-2")),
     Call(Door(t + 1, user, s, true), Validate("ST-1", s))]
  }

  ghost predicate AllTyped(calls: seq<Call>) {
    forall k :: 0 <= k < |calls| ==> Typed(calls[k].req)
  }

  lemma RevivingCallsAreLegal(user: Authentication, s: WebApplicationService, t: nat)
    ensures Legal(LoginAndGrant(user, s) + RevivingCalls(user, s, t))
    ensures AllTyped(LoginAndGrant(user, s) + RevivingCalls(user, s, t))
  {
    PrefixesOfIds();
  }

  lemma RevivedAnswer(cfg: Config, user: Authentication, s: WebApplicationService, t: nat)
    requires cfg.stPolicy == NeverExpires && !cfg.tgtPolicy.Expires(0, Usage(0, 0, 0), Some(user), 0)
    requires cfg.tgtPolicy.Expires(0, Usage(0, 0, 1), Some(user), t)
    requires !cfg.tgtPolicy.Expires(0, Usage(0, 0, 1), Some(user), t + 1)
    ensures Execute(cfg, LoginAndGrant(user, s) + RevivingCalls(user, s, t)).answers[3].Asserted? <==> cfg.mode.Lazy?
  {
    var r := RunOf(cfg, user, s, RevivingCalls(user, s, t));
    GrantedExpiry(cfg, user, s, t + 1);
  }

  /** Any other granting policy lets well-typed calls on any service tell the two registries apart. */
  lemma RevivingPolicyTellsApart(p: Policy, s: WebApplicationService) returns (calls: seq<Call>)
    requires !p.Lasting()
    ensures Legal(calls) && AllTyped(calls)
    ensures Execute(Config(Lazy, p, NeverExpires), calls).answers != Execute(Config(Cascade, p, NeverExpires), calls).answers
  {
    var user := Sample(!p.LastsFor(true));
    var t := RevivesInside(p, Some(user));
    calls := LoginAndGrant(user, s) + RevivingCalls(user, s, t);
    RevivingCallsAreLegal(user, s, t);
    RevivedAnswer(Config(Lazy, p, NeverExpires), user, s, t);
    RevivedAnswer(Config(Cascade, p, NeverExpires), user, s, t);
  }

  ghost predicate SameAnswers(p: Policy, stPolicy: Policy, calls: seq<Call>) {
    Execute(Config(Lazy, p, stPolicy), calls).answers == Execute(Config(Cascade, p, stPolicy), calls).answers
  }

  /** Exactly the lasting granting policies make the two registries indistinguishable for well-typed calls. */
  lemma IndistinguishableIffLasting(p: Policy, s: WebApplicationService)
    ensures p.Lasting() <==>
      forall stPolicy: Policy, calls: seq<Call> :: Legal(calls) && AllTyped(calls) ==> SameAnswers(p, stPolicy, calls)
  {
    if p.Lasting() {
      forall stPolicy: Policy, calls: seq<Call> | Legal(calls) && AllTyped(calls) ensures SameAnswers(p, stPolicy, calls) {
        RegistriesAreIndistinguishable(Execute(Config(Lazy, p, stPolicy), calls), Execute(Config(Cascade, p, stPolicy), calls));
      }
    } else {
      var calls := RevivingPolicyTellsApart(p, s);
      assert !SameAnswers(p, NeverExpires, calls);
    }
  }

  // ---- Permanence of expiry -----------------------------------------------------------------------------

  ghost predicate PermanentIn(r: Run)
    requires r.WellSized()
  {
    forall i: nat, j: nat, id, t0, t1 ::
      i <= j <= |r.calls| && ReadAt(r, i, t0) && t0 <= t1 && Expired(r.states[i].heap, id, t0)
      ==> Expired(r.states[j].heap, id, t1)
  }

  lemma LastingIsPermanent(r: Run)
    requires r.Valid() && Lasting(r.cfg)
    ensures PermanentIn(r)
  {
    forall i: nat, j: nat, id, t0, t1
      | i <= j <= |r.calls| && ReadAt(r, i, t0) && t0 <= t1 && Expired(r.states[i].heap, id, t0)
      ensures Expired(r.states[j].heap, id, t1)
    {
      ExpiryIsPermanent(r, i, j, id, t0, t1);
    }
  }

  /** A login and a grant, after which the granting ticket is expired at one time and not at the next. */
  lemma RevivingSession(p: Policy, s: WebApplicationService) returns (r: Run)
    requires !p.Lasting()
    ensures r.Valid() && r.cfg == Config(Lazy, p, NeverExpires) && !PermanentIn(r)
  {
    var user := Sample(!p.LastsFor(true));
    var t := RevivesInside(p, Some(user));
    r := RunOf(Config(Lazy, p, NeverExpires), user, s, []);
    PrefixesOfIds();
    GrantedExpiry(r.cfg, user, s, t);
    GrantedExpiry(r.cfg, user, s, t + 1);
  }

  /** Exactly for the lasting granting policies expiry is permanent, whatever lasting policy service tickets have. */
  lemma PermanentIffGrantingLasts(p: Policy, s: WebApplicationService)
    ensures p.Lasting() <==>
      forall r: Run :: r.Valid() && r.cfg.tgtPolicy == p && r.cfg.stPolicy.LastsFor(false) ==> PermanentIn(r)
  {
    if p.Lasting() {
      forall r: Run | r.Valid() && r.cfg.tgtPolicy == p && r.cfg.stPolicy.LastsFor(false) ensures PermanentIn(r) {
        LastingIsPermanent(r);
      }
    } else {
      var r := RevivingSession(p, s);
    }
  }

  // ---- Answers and history ---------------------------------------------------------------------------------

  /** The answer to call `k` is the one that the history of the run asks for. */
  ghost predicate GrantFollows(r: Run, k: nat)
    requires r.WellSized() && k < |r.calls| && r.calls[k].req.Grant?
  {
    r.answers[k].Issued? <==> exists i {:trigger MayGrant(r, i, k)} :: 0 <= i < k && MayGrant(r, i, k)
  }

  ghost predicate GrantsFollowHistory(r: Run)
    requires r.WellSized()
  {
    forall k {:trigger GrantFollows(r, k)} :: 0 <= k < |r.calls| && r.calls[k].req.Grant? ==> GrantFollows(r, k)
  }

  /** A second grant inside the waiting time, and a third one just after it. */
  function TwoGrants(user: Authentication, s: WebApplicationService, t: nat): seq<Call> {
    [Call(Door(t, user, s, true), Grant("TGT-1", s, None, "ST-2")),
     Call(Door(t + 1, user, s, true), Grant("TGT-1", s, None, "ST-3"))]
  }

  lemma TwoGrantsAreLegal(user: Authentication, s: WebApplicationService, t: nat)
    ensures Legal(LoginAndGrant(user, s) + TwoGrants(user, s, t))
  {
    PrefixesOfIds();
    assert "ST-3"[0] != TGT_PREFIX[0];
  }

  /** The second grant drops a session that is live again at the third, which is refused all the same. */
  lemma RefusedRevival(p: Policy, s: WebApplicationService) returns (r: Run)
    requires !p.Lasting()
    ensures r.Valid() && r.cfg == Config(Lazy, p, NeverExpires) && !GrantsFollowHistory(r)
  {
    var user := Sample(!p.LastsFor(true));
    var t := RevivesInside(p, Some(user));
    var cfg := Config(Lazy, p, NeverExpires);
    r := RunOf(cfg, user, s, TwoGrants(user, s, t));
    TwoGrantsAreLegal(user, s, t);
    GrantedExpiry(cfg, user, s, t + 1);
    ThirdIsRefused(r, cfg, user, s, t);
  }

  lemma ThirdIsRefused(r: Run, cfg: Config, user: Authentication, s: WebApplicationService, t: nat)
    requires r.Valid() && r.cfg == cfg && r.calls == LoginAndGrant(user, s) + TwoGrants(user, s, t)
    requires r.states[3] == Delete(cfg, Granted(cfg, user, s), "TGT-1") && "TGT-1" !in r.states[3].registry
    requires "TGT-1" in r.states[3].heap && !Expired(r.states[3].heap, "TGT-1", t + 1)
    ensures !GrantsFollowHistory(r)
  {
    assert r.Happens(0) && r.Happens(3);
    assert Issues(r, 0, "TGT-1") && LoginBy(r.calls[0]) == Some(user);
    ExpiredIffOver(r, 3, "TGT-1", t + 1);
    assert MayGrant(r, 0, 3);
    assert !GrantFollows(r, 3);
  }

  /** Exactly for the lasting granting policies grants follow the history, whatever lasting policy service tickets have. */
  lemma GrantsFollowHistoryIffLasting(p: Policy, s: WebApplicationService)
    ensures p.Lasting() <==>
      forall r: Run :: r.Valid() && r.cfg.tgtPolicy == p && r.cfg.stPolicy.LastsFor(false) ==> GrantsFollowHistory(r)
  {
    if p.Lasting() {
      forall r: Run | r.Valid() && r.cfg.tgtPolicy == p && r.cfg.stPolicy.LastsFor(false) ensures GrantsFollowHistory(r) {
        forall k | 0 <= k < |r.calls| && r.calls[k].req.Grant? ensures GrantFollows(r, k) {
          GrantAnswered(r, k);
        }
      }
    } else {
      var r := RefusedRevival(p, s);
    }
  }

  function UseCalls(s: WebApplicationService): seq<Call> {
    [Call(Door(0, USER, s, true), Validate("ST-1", s))]
  }

  lemma UseCallsAreLegal(s: WebApplicationService)
    ensures Legal(LoginAndGrant(USER, s) + UseCalls(s))
  {
    PrefixesOfIds();
  }

  /** A service ticket used once under a reviving policy. */
  lemma RevivingTicket(q: Policy, s: WebApplicationService) returns (r: Run)
    requires !q.LastsFor(false)
    ensures r.Valid() && r.cfg == Config(Lazy, NeverExpires, q) && !PermanentIn(r)
  {
    var t := RevivesInside(q, None);
    r := RunOf(Config(Lazy, NeverExpires, q), USER, s, UseCalls(s));
    UseCallsAreLegal(s);
    UsedOnce(r.cfg, s, t);
    UsedOnce(r.cfg, s, t + 1);
  }

  lemma UsedOnce(cfg: Config, s: WebApplicationService, now: int)
    requires cfg.tgtPolicy == NeverExpires && !cfg.stPolicy.Expires(0, Usage(0, 0, 0), None, 0)
    ensures var h := Step(cfg, Door(0, USER, s, true), Granted(cfg, USER, s), Validate("ST-1", s)).state.heap;
      Expired(h, "ST-1", now) <==> cfg.stPolicy.Expires(0, Usage(0, 0, 1), None, now)
  {
    PrefixesOfIds();
    GrantedExpiry(cfg, USER, s, 0);
    var g := Granted(cfg, USER, s).heap;
    var h := g["ST-1" := g["ST-1"].Touched(0)];
    assert Step(cfg, Door(0, USER, s, true), Granted(cfg, USER, s), Validate("ST-1", s)).state.heap == h;
    assert Up(h, "TGT-1") == None && Up(h, "ST-1") == Some("TGT-1");
  }

  /** Exactly for the policies that last for tickets without authentication expiry of service tickets is permanent. */
  lemma PermanentIffServiceLasts(q: Policy, s: WebApplicationService)
    ensures q.LastsFor(false) <==>
      forall r: Run :: r.Valid() && r.cfg.stPolicy == q && r.cfg.tgtPolicy.Lasting() ==> PermanentIn(r)
  {
    if q.LastsFor(false) {
      forall r: Run | r.Valid() && r.cfg.stPolicy == q && r.cfg.tgtPolicy.Lasting() ensures PermanentIn(r) {
        LastingIsPermanent(r);
      }
    } else {
      var r := RevivingTicket(q, s);
    }
  }

  // ---- Attempts that do not use a ticket up ----------------------------------------------------------------

  const ONE_USE := Config(Lazy, NeverExpires, MultiUseOrTimeout(1, 10))

  function TwoAttempts(s: WebApplicationService, u: WebApplicationService): seq<Call> {
    var env := Door(0, USER, s, true);
    [Call(env, Validate("ST-1", u)), Call(env, Validate("ST-1", s))]
  }

  /** A service that is not registered tries a ticket, which is validated afterwards all the same. */
  lemma UnregisteredAttempt(s: WebApplicationService, u: WebApplicationService) returns (r: Run)
    requires s.id != u.id
    ensures r.Valid() && OneUse(r.cfg) && |r.calls| == 4
    ensures r.calls[2].req == Validate("ST-1", u) && r.answers[2] == Failed(UnauthorizedService)
    ensures r.calls[3].req == Validate("ST-1", s) && r.answers[3].Asserted?
  {
    r := RunOf(ONE_USE, USER, s, TwoAttempts(s, u));
    PrefixesOfIds();
    GrantedExpiry(r.cfg, USER, s, 0);
  }

  /** A request whose callback the service may not ask for fails; the same request without it succeeds afterwards. */
  lemma UnauthorizedCallback(s: WebApplicationService)
    ensures var env, st := Door(0, USER, s, false), Granted(ONE_USE, USER, s);
      var response := HandleRequest(ONE_USE, env, env, st, "ST-1", s, Some(Credentials("")), "TGT-2", Cas20(false));
      && response == Response(st, Failure(UnauthorizedProxying))
      && HandleRequest(ONE_USE, env, env, response.state, "ST-1", s, None, "TGT-2", Cas20(false)).view.Success?
  {
    var env, st := Door(0, USER, s, false), Granted(ONE_USE, USER, s);
    PrefixesOfIds();
    GrantedExpiry(ONE_USE, USER, s, 0);
    var k := st.heap["ST-1" := st.heap["ST-1"].Touched(0)];
    assert Up(k, "TGT-1") == None && Chain(k, "TGT-1") == [USER];
  }

  /** A callback is served, then the validation is refused: the view fails, the proxy-granting ticket is there. */
  lemma FailureLeavesProxyTicket(s: WebApplicationService, u: WebApplicationService)
    requires s.id != u.id
    ensures var env, st := Door(0, USER, s, true), Granted(ONE_USE, USER, s);
      var response := HandleRequest(ONE_USE, env, env, st, "ST-1", u, Some(Credentials("")), "TGT-2", Cas20(false));
      response.view == Failure(UnauthorizedService) && "TGT-2" in response.state.registry
  {
    PrefixesOfIds();
    GrantedExpiry(ONE_USE, USER, s, 0);
  }
}
