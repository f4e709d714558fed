/** Expiration policies, and which of them can never revive a ticket. */
module Expiration {
  import opened Domain

  predicate RememberedIn(authentication: Option<Authentication>) {
    authentication.Some? && Remembered(authentication.value)
  }

  /** How often and when a ticket was used. */
  datatype Usage = Usage(lastUsed: int, previous: int, uses: nat)

  datatype Policy =
    | NeverExpires
    | HardTimeout(timeToKill: int)
    | Timeout(timeToKill: int)
    | MultiUseOrTimeout(maxUses: int, timeToKill: int)
    | TwoWindows(maxTimeToLive: int, timeToKill: int)
    | ThrottledUse(timeToKill: int, timeInBetween: int)
    | RememberMe(whenRemembered: Policy, session: Policy)
  {
    /** The verdict on a ticket created at `created`, with the given usage, at time `now`. */
    predicate Expires(created: int, usage: Usage, authentication: Option<Authentication>, now: int) {
      match this
      case NeverExpires => false
      case HardTimeout(ttk) => now - created >= ttk
      case Timeout(ttk) => now - usage.lastUsed >= ttk
      case MultiUseOrTimeout(n, ttk) => usage.uses >= n || now - usage.lastUsed >= ttk
      case TwoWindows(ttl, ttk) => now - created >= ttl || now - usage.lastUsed >= ttk
      case ThrottledUse(ttk, gap) =>
        var idle := now - usage.lastUsed;
        !(usage.uses == 0 && idle < ttk) && (idle >= ttk || idle <= gap)
      case RememberMe(remembered, session) =>
        if RememberedIn(authentication)
        then remembered.Expires(created, usage, authentication, now)
        else session.Expires(created, usage, authentication, now)
    }

    /** Every branch that a (non-)remembered authentication can reach only gets older. */
    predicate LastsFor(remembered: bool) {
      match this
      case ThrottledUse(ttk, gap) => gap < 0 || gap + 1 >= ttk
      case RememberMe(yes, no) => if remembered then yes.LastsFor(true) else no.LastsFor(false)
      case _ => true
    }

    /** A throttled policy must wait until its timeout or not at all; the other policies last by themselves. */
    predicate Lasting() {
      LastsFor(true) && LastsFor(false)
    }
  }

  /** The clock never reads less than the last use. */
  ghost predicate NeverRevives(p: Policy) {
    forall created: int, usage: Usage, authentication: Option<Authentication>, t0: int, t1: int ::
      usage.lastUsed <= t0 <= t1 && p.Expires(created, usage, authentication, t0)
      ==> p.Expires(created, usage, authentication, t1)
  }

  lemma {:induction false} OnlyGetsOlder(p: Policy, created: int, usage: Usage,
                                         authentication: Option<Authentication>, t0: int, t1: int)
    requires p.LastsFor(RememberedIn(authentication)) && usage.lastUsed <= t0 <= t1
    requires p.Expires(created, usage, authentication, t0)
    ensures p.Expires(created, usage, authentication, t1)
  {
    match p
    case RememberMe(yes, no) =>
      OnlyGetsOlder(if RememberedIn(authentication) then yes else no, created, usage, authentication, t0, t1);
    case _ =>
  }

  /** A ticket made and used once at time zero, caught inside the waiting time of the throttled policy that judges it. */
  lemma {:induction false} RevivesInside(p: Policy, a: Option<Authentication>) returns (t: nat)
    requires !p.LastsFor(RememberedIn(a))
    ensures p.Expires(0, Usage(0, 0, 1), a, t) && !p.Expires(0, Usage(0, 0, 1), a, t + 1)
    ensures !p.Expires(0, Usage(0, 0, 0), a, 0)
  {
    match p
    case ThrottledUse(ttk, gap) => t := gap;
    case RememberMe(yes, no) => t := RevivesInside(if RememberedIn(a) then yes else no, a);
  }

  /** An authentication that is remembered, or one that is not. */
  function Sample(remembered: bool): (a: Authentication)
    ensures Remembered(a) == remembered
  {
    Authentication(Principal("", map[]), if remembered then map[REMEMBER_ME := Flag(true)] else map[], 0)
  }

  /** Exactly the lasting policies never take an expiry back. */
  lemma LastingIffNeverRevives(p: Policy)
    ensures p.Lasting() <==> NeverRevives(p)
  {
    if p.Lasting() {
      forall created: int, usage: Usage, authentication: Option<Authentication>, t0: int, t1: int
        | usage.lastUsed <= t0 <= t1 && p.Expires(created, usage, authentication, t0)
        ensures p.Expires(created, usage, authentication, t1)
      {
        OnlyGetsOlder(p, created, usage, authentication, t0, t1);
      }
    } else {
      var a := Some(Sample(!p.LastsFor(true)));
      var t := RevivesInside(p, a);
      assert Usage(0, 0, 1).lastUsed <= t;
    }
  }
}
