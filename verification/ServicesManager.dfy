/** The registered service that answers for a service: first match in a sorted set that drops ties. */
module ServicesManager {
  import opened Domain

  // ---- The order ---------------------------------------------------------------------------

  /** `String.compareTo`: the first difference decides, or the length. */
  function CompareStrings(s: string, t: string): int {
    if s == [] || t == [] then |s| - |t|
    else if s[0] != t[0] then s[0] as int - t[0] as int
    else CompareStrings(s[1..], t[1..])
  }

  /** Evaluation order first, then the name in lower case. */
  function CompareTo(a: RegisteredService, b: RegisteredService): int {
    if a.evaluationOrder < b.evaluationOrder then -1
    else if a.evaluationOrder > b.evaluationOrder then 1
    else CompareStrings(a.lowerCaseName, b.lowerCaseName)
  }

  predicate SameKey(a: RegisteredService, b: RegisteredService) {
    a.evaluationOrder == b.evaluationOrder && a.lowerCaseName == b.lowerCaseName
  }

  predicate Before(a: RegisteredService, b: RegisteredService) {
    CompareTo(a, b) < 0
  }

  lemma {:induction false} StringsOrdered(s: string, t: string)
    ensures CompareStrings(s, t) == 0 <==> s == t
    ensures CompareStrings(s, t) < 0 <==> CompareStrings(t, s) > 0
  {
    if s != [] && t != [] && s[0] == t[0] {
      StringsOrdered(s[1..], t[1..]);
      assert s == [s[0]] + s[1..] && t == [t[0]] + t[1..];
    }
  }

  lemma {:induction false} StringsTransitive(s: string, t: string, u: string)
    requires CompareStrings(s, t) < 0 && CompareStrings(t, u) < 0
    ensures CompareStrings(s, u) < 0
  {
    if s != [] && t != [] && u != [] && s[0] == t[0] && t[0] == u[0] {
      StringsTransitive(s[1..], t[1..], u[1..]);
    }
  }

  /** A proper prefix, or a smaller character at the first difference. */
  ghost predicate Smaller(s: string, t: string) {
    exists n :: 0 <= n <= |s| && n <= |t| && SmallerAt(s, t, n)
  }

  predicate SmallerAt(s: string, t: string, n: nat)
    requires n <= |s| && n <= |t|
  {
    s[..n] == t[..n] && n < |t| && (n == |s| || s[n] < t[n])
  }

  lemma {:induction false} ComparesSmaller(s: string, t: string)
    ensures CompareStrings(s, t) < 0 <==> Smaller(s, t)
  {
    if s == [] || t == [] {
      assert s[..0] == t[..0];
      if s == [] && t != [] {
        assert SmallerAt(s, t, 0);
      }
    } else if s[0] != t[0] {
      forall n | 0 < n <= |s| && n <= |t| ensures !SmallerAt(s, t, n) {
        assert s[..n][0] != t[..n][0];
      }
      assert s[..0] == t[..0];
      assert s[0] < t[0] ==> SmallerAt(s, t, 0);
    } else {
      ComparesSmaller(s[1..], t[1..]);
      assert !SmallerAt(s, t, 0);
      forall n | 0 < n <= |s| && n <= |t| ensures SmallerAt(s, t, n) <==> SmallerAt(s[1..], t[1..], n - 1) {
        assert s[..n] == [s[0]] + s[1..][..n - 1] && t[..n] == [t[0]] + t[1..][..n - 1];
        assert s[..n][1..] == s[1..][..n - 1] && t[..n][1..] == t[1..][..n - 1];
      }
      if n :| 0 <= n <= |s[1..]| && n <= |t[1..]| && SmallerAt(s[1..], t[1..], n) {
        assert SmallerAt(s, t, n + 1);
      }
    }
  }

  /** The smaller evaluation order comes first, and among equal ones the smaller name. */
  lemma BeforeIff(a: RegisteredService, b: RegisteredService)
    ensures Before(a, b) <==>
      || a.evaluationOrder < b.evaluationOrder
      || (a.evaluationOrder == b.evaluationOrder && Smaller(a.lowerCaseName, b.lowerCaseName))
  {
    ComparesSmaller(a.lowerCaseName, b.lowerCaseName);
  }

  /** Exactly one of three holds for any two services. */
  lemma Trichotomy(a: RegisteredService, b: RegisteredService)
    ensures SameKey(a, b) <==> CompareTo(a, b) == 0
    ensures Before(a, b) <==> CompareTo(b, a) > 0
    ensures !(Before(a, b) && Before(b, a))
    ensures Before(a, b) || SameKey(a, b) || Before(b, a)
  {
    StringsOrdered(a.lowerCaseName, b.lowerCaseName);
    StringsOrdered(b.lowerCaseName, a.lowerCaseName);
  }

  lemma BeforeIsTransitive(a: RegisteredService, b: RegisteredService, c: RegisteredService)
    requires Before(a, b) && Before(b, c)
    ensures Before(a, c)
  {
    if a.evaluationOrder == b.evaluationOrder == c.evaluationOrder {
      StringsTransitive(a.lowerCaseName, b.lowerCaseName, c.lowerCaseName);
    }
  }

  // ---- The sorted set ------------------------------------------------------------------------

  /** Adding to the set: an element that compares equal to one already there is dropped. */
  function Add(c: seq<RegisteredService>, x: RegisteredService): seq<RegisteredService> {
    if c == [] then [x]
    else if CompareTo(x, c[0]) == 0 then c
    else if CompareTo(x, c[0]) < 0 then [x] + c
    else [c[0]] + Add(c[1..], x)
  }

  /** The set after adding everything in the given order. */
  function TreeSet(order: seq<RegisteredService>): seq<RegisteredService> {
    if order == [] then [] else Add(TreeSet(order[..|order| - 1]), order[|order| - 1])
  }

  ghost predicate Distinct(order: seq<RegisteredService>) {
    forall i, j :: 0 <= i < j < |order| ==> order[i] != order[j]
  }

  /** Every service comes up once. */
  ghost predicate Enumerates(order: seq<RegisteredService>, all: set<RegisteredService>) {
    Distinct(order) && forall x :: x in order <==> x in all
  }

  ghost predicate Sorted(c: seq<RegisteredService>) {
    forall i, j :: 0 <= i < j < |c| ==> Before(c[i], c[j])
  }

  ghost predicate Represented(c: seq<RegisteredService>, x: RegisteredService) {
    exists y :: y in c && SameKey(y, x)
  }

  lemma {:induction false} AddKeepsSorted(c: seq<RegisteredService>, x: RegisteredService)
    requires Sorted(c)
    ensures Sorted(Add(c, x))
    ensures forall y :: y in Add(c, x) ==> y in c || y == x
  {
    if c != [] {
      Trichotomy(x, c[0]);
      Trichotomy(c[0], x);
      if CompareTo(x, c[0]) < 0 {
        forall y | y in c ensures Before(x, y) {
          if y != c[0] { BeforeIsTransitive(x, c[0], y); }
        }
      } else if CompareTo(x, c[0]) > 0 {
        AddKeepsSorted(c[1..], x);
        forall y | y in c[1..] ensures Before(c[0], y) {
          var k :| 0 <= k < |c[1..]| && c[1..][k] == y;
          assert Before(c[0], c[k + 1]);
        }
      }
    }
  }

  lemma {:induction false} AddRepresents(c: seq<RegisteredService>, x: RegisteredService)
    ensures forall y :: y in c ==> y in Add(c, x)
    ensures Represented(Add(c, x), x)
  {
    if c == [] {
      assert x in Add(c, x);
    } else {
      Trichotomy(x, c[0]);
      if CompareTo(x, c[0]) == 0 {
        assert c[0] in Add(c, x);
      } else if CompareTo(x, c[0]) < 0 {
        assert x in Add(c, x);
      } else {
        AddRepresents(c[1..], x);
        var y :| y in Add(c[1..], x) && SameKey(y, x);
        assert y in Add(c, x);
      }
    }
  }

  /** The set is strictly sorted and holds only what was added. */
  lemma {:induction false} TreeSetIsSorted(order: seq<RegisteredService>)
    ensures Sorted(TreeSet(order))
    ensures forall y :: y in TreeSet(order) ==> y in order
  {
    if order != [] {
      TreeSetIsSorted(order[..|order| - 1]);
      AddKeepsSorted(TreeSet(order[..|order| - 1]), order[|order| - 1]);
    }
  }

  /** It holds one representative of every key, and never drops the first element. */
  lemma {:induction false} TreeSetRepresents(order: seq<RegisteredService>, x: RegisteredService)
    requires x in order
    ensures Represented(TreeSet(order), x) && order[0] in TreeSet(order)
  {
    var n := |order| - 1;
    var init := order[..n];
    AddRepresents(TreeSet(init), order[n]);
    if n > 0 {
      TreeSetRepresents(init, if x in init then x else init[0]);
    }
    if x in init {
      var y :| y in TreeSet(init) && SameKey(y, x);
      assert y in TreeSet(order);
    } else {
      assert x == order[n];
    }
  }

  // ---- The lookup ----------------------------------------------------------------------------

  function FirstMatch(c: seq<RegisteredService>, matches: RegisteredService -> bool): Option<RegisteredService> {
    if c == [] then None else if matches(c[0]) then Some(c[0]) else FirstMatch(c[1..], matches)
  }

  /** The answer when the map of services is iterated in the given order. */
  function Answer(disabled: RegisteredService, order: seq<RegisteredService>, matches: RegisteredService -> bool):
    Option<RegisteredService>
  {
    if order == [] then Some(disabled) else FirstMatch(TreeSet(order), matches)
  }

  class DefaultServicesManagerImpl {
    var services: map<int, RegisteredService>
    const disabledRegisteredService: RegisteredService

    constructor (services: map<int, RegisteredService>, disabledRegisteredService: RegisteredService)
      ensures this.services == services && this.disabledRegisteredService == disabledRegisteredService
    {
      this.services := services;
      this.disabledRegisteredService := disabledRegisteredService;
    }

    /** The map is iterated in an order of its own. */
    method ConvertToTreeSet() returns (c: seq<RegisteredService>)
      ensures exists order :: Enumerates(order, services.Values) && c == TreeSet(order)
    {
      c := [];
      ghost var order := [];
      var rest := services.Values;
      while rest != {}
        invariant rest <= services.Values
        invariant Enumerates(order, services.Values - rest)
        invariant c == TreeSet(order)
        decreases rest
      {
        var x :| x in rest;
        rest := rest - {x};
        c := Add(c, x);
        assert (order + [x])[..|order|] == order;
        order := order + [x];
      }
    }

    /**
     * `matches` says which registered services match the service at hand. The answer is that for
     * some iteration order, and where nothing ties with it, the least matching service.
     */
    method FindServiceBy(matches: RegisteredService -> bool) returns (r: Option<RegisteredService>)
      ensures exists order :: Enumerates(order, services.Values) && r == Answer(disabledRegisteredService, order, matches)
      ensures services.Values == {} ==> r == Some(disabledRegisteredService)
      ensures services.Values != {} && Clear(services.Values, matches) ==>
        match r
        case None => forall x :: x in services.Values ==> !matches(x)
        case Some(x) => LeastMatch(services.Values, matches, x) && LowestOrder(services.Values, matches, x)
      ensures services.Values != {} ==>
        match r
        case None => forall y :: y in services.Values && matches(y) ==> Hidden(services.Values, matches, y)
        case Some(x) =>
          x in services.Values && matches(x)
          && forall y :: y in services.Values && matches(y) && y.evaluationOrder < x.evaluationOrder ==>
               Hidden(services.Values, matches, y)
    {
      var c := ConvertToTreeSet();
      ghost var order :| Enumerates(order, services.Values) && c == TreeSet(order);
      AnswerKnown(disabledRegisteredService, services.Values, matches, order);
      if |c| == 0 {
        r := Some(disabledRegisteredService);
        return;
      }
      for i := 0 to |c|
        invariant FirstMatch(c[i..], matches) == FirstMatch(c, matches)
      {
        if matches(c[i]) {
          r := Some(c[i]);
          return;
        }
        assert c[i..][1..] == c[i + 1..];
      }
      r := None;
    }
  }

  // ---- When the answer does not depend on the iteration order ------------------------------------

  /** `r` matches, and no matching service comes before it. */
  ghost predicate LeastMatch(all: set<RegisteredService>, matches: RegisteredService -> bool, r: RegisteredService) {
    r in all && matches(r) && forall x :: x in all && matches(x) ==> !Before(x, r)
  }

  /** Nothing else has the key of the least matching service, whether it matches or not. */
  ghost predicate Clear(all: set<RegisteredService>, matches: RegisteredService -> bool) {
    forall r, x :: LeastMatch(all, matches, r) && x in all && SameKey(x, r) ==> x == r
  }

  /** No matching service has a smaller evaluation order. */
  ghost predicate LowestOrder(all: set<RegisteredService>, matches: RegisteredService -> bool, r: RegisteredService) {
    forall x :: x in all && matches(x) ==> r.evaluationOrder <= x.evaluationOrder
  }

  /** A service that does not match has the same key. */
  ghost predicate Hidden(all: set<RegisteredService>, matches: RegisteredService -> bool, y: RegisteredService) {
    exists z :: z in all && SameKey(z, y) && !matches(z)
  }

  /** The lookup passes over a matching service with a smaller order only where it is hidden. */
  lemma PassedOverIsHidden(disabled: RegisteredService, all: set<RegisteredService>, matches: RegisteredService -> bool,
                           order: seq<RegisteredService>, y: RegisteredService)
    requires Enumerates(order, all) && y in all && matches(y)
    requires var r := Answer(disabled, order, matches); r.None? || y.evaluationOrder < r.value.evaluationOrder
    ensures Hidden(all, matches, y)
  {
    assert y in order;
    AnswerIs(disabled, order, matches);
    TreeSetIsSorted(order);
    TreeSetRepresents(order, y);
    var z :| z in TreeSet(order) && SameKey(z, y);
    assert z in all;
    var r := Answer(disabled, order, matches);
    if r.Some? && matches(z) {
      BeforeIff(r.value, z);
    }
  }

  /** What is known of the answer for any set of services. */
  lemma AnswerKnown(disabled: RegisteredService, all: set<RegisteredService>, matches: RegisteredService -> bool,
                    order: seq<RegisteredService>)
    requires Enumerates(order, all)
    ensures order == [] <==> all == {}
    ensures all != {} && Clear(all, matches) ==>
      match Answer(disabled, order, matches)
      case None => forall x :: x in all ==> !matches(x)
      case Some(x) => LeastMatch(all, matches, x) && LowestOrder(all, matches, x)
    ensures all != {} ==>
      match Answer(disabled, order, matches)
      case None => forall y :: y in all && matches(y) ==> Hidden(all, matches, y)
      case Some(r) =>
        r in all && matches(r)
        && forall y :: y in all && matches(y) && y.evaluationOrder < r.evaluationOrder ==> Hidden(all, matches, y)
  {
    if order != [] {
      FirstIsEnumerated(order, all);
    }
    if all != {} {
      var x :| x in all;
      assert x in order;
      AnswerIs(disabled, order, matches);
      var r := Answer(disabled, order, matches);
      forall y | y in all && matches(y) && (r.None? || y.evaluationOrder < r.value.evaluationOrder)
        ensures Hidden(all, matches, y)
      {
        PassedOverIsHidden(disabled, all, matches, order, y);
      }
      if Clear(all, matches) {
        ClearAnswer(disabled, all, matches, order);
      }
    }
  }

  ghost predicate Settled(disabled: RegisteredService, all: set<RegisteredService>, matches: RegisteredService -> bool) {
    forall o, p :: Enumerates(o, all) && Enumerates(p, all) ==> Answer(disabled, o, matches) == Answer(disabled, p, matches)
  }

  lemma {:induction false} FirstMatchIs(c: seq<RegisteredService>, matches: RegisteredService -> bool)
    requires Sorted(c)
    ensures match FirstMatch(c, matches)
      case None => forall x :: x in c ==> !matches(x)
      case Some(r) => r in c && matches(r) && forall x :: x in c && matches(x) && x != r ==> Before(r, x)
  {
    if c != [] && !matches(c[0]) {
      FirstMatchIs(c[1..], matches);
    }
  }

  /** Among several matching services, one comes before or level with all others. */
  lemma {:induction false} LeastMatchExists(all: set<RegisteredService>, matches: RegisteredService -> bool,
                                            x: RegisteredService) returns (r: RegisteredService)
    requires x in all && matches(x)
    ensures LeastMatch(all, matches, r)
  {
    var order := Enumeration(all);
    r := LeastIn(order, all, matches, x);
  }

  lemma {:induction false} Enumeration(all: set<RegisteredService>) returns (order: seq<RegisteredService>)
    ensures Enumerates(order, all)
  {
    if all == {} {
      order := [];
    } else {
      var x :| x in all;
      order := Enumeration(all - {x});
      order := order + [x];
    }
  }

  /** The map may be iterated from any service on. */
  lemma EnumerationFrom(all: set<RegisteredService>, first: RegisteredService) returns (order: seq<RegisteredService>)
    requires first in all
    ensures Enumerates(order, all) && order != [] && order[0] == first
  {
    order := Enumeration(all - {first});
    order := [first] + order;
  }

  lemma {:induction false} LeastIn(order: seq<RegisteredService>, all: set<RegisteredService>,
                                   matches: RegisteredService -> bool, x: RegisteredService) returns (r: RegisteredService)
    requires x in all && matches(x) && forall y :: y in order ==> y in all
    ensures r in all && matches(r) && forall y :: y in order && matches(y) ==> !Before(y, r)
    ensures !Before(x, r)
  {
    if order == [] {
      r := x;
      Trichotomy(x, x);
    } else {
      var n := |order| - 1;
      r := LeastIn(order[..n], all, matches, x);
      Trichotomy(order[n], order[n]);
      if matches(order[n]) && Before(order[n], r) {
        var previous := r;
        r := order[n];
        forall y | (y in order[..n] && matches(y)) || y == x ensures !Before(y, r) {
          if Before(y, r) { BeforeIsTransitive(y, r, previous); }
        }
      }
    }
  }

  /** The answer is the least match in the set. */
  lemma AnswerIs(disabled: RegisteredService, order: seq<RegisteredService>, matches: RegisteredService -> bool)
    requires order != []
    ensures match Answer(disabled, order, matches)
      case None => forall x :: x in TreeSet(order) ==> !matches(x)
      case Some(r) =>
        r in TreeSet(order) && r in order && matches(r)
        && forall x :: x in TreeSet(order) && matches(x) && x != r ==> Before(r, x)
  {
    TreeSetIsSorted(order);
    FirstMatchIs(TreeSet(order), matches);
  }

  lemma LeastInSetIsAnswer(disabled: RegisteredService, all: set<RegisteredService>,
                           matches: RegisteredService -> bool, order: seq<RegisteredService>, r: RegisteredService)
    requires Enumerates(order, all) && LeastMatch(all, matches, r)
    ensures Answer(disabled, order, matches) == Some(r) <==> r in TreeSet(order)
  {
    assert r in order;
    AnswerIs(disabled, order, matches);
  }

  /** Where nothing shares its key, the least matching service is the answer in every order. */
  lemma ClearAnswer(disabled: RegisteredService, all: set<RegisteredService>, matches: RegisteredService -> bool,
                    order: seq<RegisteredService>)
    requires Enumerates(order, all) && all != {} && Clear(all, matches)
    ensures match Answer(disabled, order, matches)
      case None => forall x :: x in all ==> !matches(x)
      case Some(r) => LeastMatch(all, matches, r)
  {
    if x :| x in all && matches(x) {
      var r := LeastMatchExists(all, matches, x);
      TreeSetIsSorted(order);
      TreeSetRepresents(order, r);
      var y :| y in TreeSet(order) && SameKey(y, r);
      assert y in all && y == r;
      LeastInSetIsAnswer(disabled, all, matches, order, r);
    } else {
      var y :| y in all;
      assert y in order;
      AnswerIs(disabled, order, matches);
    }
  }

  /** A tie on the least matching key: putting either service first into the set changes the answer. */
  lemma TieIsUnsettled(disabled: RegisteredService, all: set<RegisteredService>, matches: RegisteredService -> bool,
                       r: RegisteredService, q: RegisteredService)
    requires LeastMatch(all, matches, r) && q in all && SameKey(q, r) && q != r
    ensures !Settled(disabled, all, matches)
  {
    var o := EnumerationFrom(all, r);
    var p := EnumerationFrom(all, q);
    OnlyOneOfAKey(o, r, q);
    OnlyOneOfAKey(p, q, r);
    LeastInSetIsAnswer(disabled, all, matches, o, r);
    LeastInSetIsAnswer(disabled, all, matches, p, r);
  }

  lemma {:induction false} OnlyOneOfAKey(order: seq<RegisteredService>, first: RegisteredService, other: RegisteredService)
    requires order != [] && order[0] == first && SameKey(first, other) && first != other
    ensures first in TreeSet(order) && other !in TreeSet(order)
  {
    TreeSetIsSorted(order);
    TreeSetRepresents(order, first);
    var c := TreeSet(order);
    if other in c {
      var i :| 0 <= i < |c| && c[i] == first;
      var j :| 0 <= j < |c| && c[j] == other;
      Trichotomy(first, other);
      Trichotomy(other, first);
    }
  }

  lemma FirstIsEnumerated(order: seq<RegisteredService>, all: set<RegisteredService>)
    requires Enumerates(order, all) && order != []
    ensures order[0] in all
  {
    assert order[0] in order;
  }

  lemma ClearIsSettled(disabled: RegisteredService, all: set<RegisteredService>, matches: RegisteredService -> bool,
                       o: seq<RegisteredService>, p: seq<RegisteredService>)
    requires Clear(all, matches) && Enumerates(o, all) && Enumerates(p, all)
    ensures Answer(disabled, o, matches) == Answer(disabled, p, matches)
  {
    if all == {} {
      if o != [] { FirstIsEnumerated(o, all); }
      if p != [] { FirstIsEnumerated(p, all); }
    } else {
      ClearAnswer(disabled, all, matches, o);
      ClearAnswer(disabled, all, matches, p);
      var a, b := Answer(disabled, o, matches), Answer(disabled, p, matches);
      if a.Some? && b.Some? {
        Trichotomy(a.value, b.value);
      }
    }
  }

  /** The answer is the same for every iteration order exactly when nothing ties with the least matching service. */
  lemma SettledIffClear(disabled: RegisteredService, all: set<RegisteredService>, matches: RegisteredService -> bool)
    ensures Settled(disabled, all, matches) <==> Clear(all, matches)
  {
    if Clear(all, matches) {
      forall o, p | Enumerates(o, all) && Enumerates(p, all)
        ensures Answer(disabled, o, matches) == Answer(disabled, p, matches)
      {
        ClearIsSettled(disabled, all, matches, o, p);
      }
    } else {
      var r, x :| LeastMatch(all, matches, r) && x in all && SameKey(x, r) && x != r;
      TieIsUnsettled(disabled, all, matches, r, x);
    }
  }

  /** With distinct keys the lookup is a minimum search, for whatever matches. */
  lemma DistinctKeysAreClear(all: set<RegisteredService>, matches: RegisteredService -> bool)
    requires forall x, y :: x in all && y in all && SameKey(x, y) ==> x == y
    ensures Clear(all, matches)
  {
  }
}
