# CAS server: tickets, registries and their supports, verified

The Central Authentication Service logs users in once and hands out tickets: a ticket-granting
ticket for a login, service tickets below it, proxy-granting tickets delegated from service
tickets. This project models the code that makes, checks, expires and deletes these tickets, and
proves what holds along every run of it. `dafny verify dfyconfig.toml` checks everything.

## What is modelled

The core is a protocol over values, and programs that refine it.

- `Domain`, `Expiration`, `Tickets`: principals, services, policies; tickets with parent links, and
  what is computed along the links (inherited expiry, authentication chains).
- `Protocol`: the five operations of the service as one step function, for a registry that deletes
  one ticket (`Lazy`) and for one that deletes a ticket with everything below it (`Cascade`).
- `Steps`, `Runs`, `Provenance`: what every call keeps, what holds along whole runs, where tickets
  come from. `Answers` settles the answer and the effect of every single call; `History` settles
  answers in runs by what was issued, used and destroyed before, without a look at any ticket.
- `Validation`: what a validating service learns, and exactly which validation requests succeed.
  `Simulation` compares the two registries; `Witnesses` holds the runs and equivalences that show
  which conditions are needed.
- `TicketObjects`, `CentralAuthenticationService`: mutable ticket objects linked by references, the
  map registry and the service over them, proved to do exactly what the protocol does in `Lazy`
  mode. `ServiceValidate` is the validation controller on top of it.
- `JpaRegistry`, `DistributedTickets`, `JpaService`: the two tables with the recursive delete, the
  tickets that write themselves back, and the service over them, proved to do exactly what the
  protocol does in `Cascade` mode.
- `UrlParameters`: removing query parameters by string surgery. `Throttle`: login throttling and its
  cleaner. `TicketIds`: the identifier generators. `ServicesManager`: the ordered service lookup.

## Conventions

- Each call is one step with one clock reading, and the clock never goes back (`Runs.Follows`).
- A call that may issue a ticket carries the identifier that the generator would hand out. A run is
  legal if these identifiers are distinct and typed by prefix; `TicketIds.DrawnIdsAreLegal` derives
  that from the generators.
- Authentication, the service registry, service matching and persistent identifiers are functions
  of the environment of a call (`Protocol.Env`), free to change from call to call.
- Exceptions are values of `Protocol.Error`.
- Where a theorem carries a condition on policies (`Lasting`), identifiers (`Typed`) or overlapping
  attempts (`Separate`), equivalences and runs in `Witnesses`, `Simulation` and `Throttle` show what
  holds without it.
- The expiry of a ticket in `History` is told by calls and answers alone; the links between tickets
  are the ones whose origin `Provenance` settles.

## What the proofs say about the code

- Chains run from the nearest proxy to the user. The comment of the assertion interface
  (`validation/Assertion.java:28`) says the opposite; the code is followed.
- With a lasting policy for granting tickets the two registries are told apart by a call of the wrong
  kind on a stored ticket of the map registry with an ancestor that is no longer stored, after a
  logout for example, and by nothing else. With any other policy well-typed calls tell them apart too.
- A proxy-granting ticket is issued before the validation it comes with, and stays if that fails.
- Section 3.1.1 of the CAS protocol wants every validation attempt to use a ticket up. Under the
  one-use policy two kinds of attempt on a stored ticket do not: one by a service that is not
  registered or not enabled, and one with a callback whose delegation ends the request, because the
  service may not proxy or did so before. All others do.
- Login attempts that overlap are let through together. With m of them under way a window holds at
  most m times as many failures as moments one gap apart fit into it, a gap being range over
  threshold rounded up to milliseconds, and that many are reached for every setting. Where the gap is
  a whole number, as in the default setting, the threshold is kept exactly if attempts do not overlap.
- The parameter removal is a filter only for some values with question marks. A wanted value with
  `?name=` in it, for a name to be removed, is damaged in every URL. A question mark at the end of
  the last wanted value is trimmed exactly if some removed name is still found when nothing is left
  behind that value: `b?foo=0&foo=1&x=a?&lt=1` loses it when `lt` and `foo` are removed, though it is
  not at the end of the URL. With one name to be removed, a removed value with `?name=` in it takes a
  wanted parameter along exactly if it stands between two of them: removing `lt` from
  `b?x=1&lt=a?lt=1&y=2` does not leave `b?x=1&y=2`. A URL that ends in a separator and has no unwanted parameter
  is returned as it is.
- Services with the same evaluation order and lower-case name hide each other from the lookup.
- A ticket under a throttled-use policy with a waiting time can be expired now and live again later.

## Model

| member | source | states |
|---|---|---|
| `History.GrantAnswered` | cas-server-core/src/main/java/org/jasig/cas/CentralAuthenticationServiceImpl.java:181-266 | in every run under lasting policies a grant issues a ticket exactly if an earlier login or delegation issued the granting ticket and its session is not over by the history of the run, the service is registered and enabled, it has single sign-on or credentials came or nothing was granted before, the session is a login's or the service may proxy, and any credentials authenticate the same user in the same way as that login did |
| `History.ValidationAnswered` | cas-server-core/src/main/java/org/jasig/cas/CentralAuthenticationServiceImpl.java:339-414 | in every run under lasting policies a validation answers an assertion exactly if an earlier grant issued the ticket and it is not over by the history, the caller is registered and enabled and matches the service of that grant, and the user name to be released is not a null attribute of the login at the root |
| `History.DelegationAnswered` | cas-server-core/src/main/java/org/jasig/cas/CentralAuthenticationServiceImpl.java:289-327 | in every run under lasting policies a delegation issues a ticket exactly if the credentials authenticate, an earlier grant issued the service ticket and it is not over by the history, its service may proxy, and no delegation on it was served before |
| `History.ExpiredIffOver` | cas-server-core/src/main/java/org/jasig/cas/ticket/AbstractTicket.java:130-132 | for all policies: in every state of every run a ticket is expired exactly if it, or one above it, was destroyed or is due by the times at which it was issued and used and the number of its uses |
| `History.DueIffExpires` | cas-server-core/src/main/java/org/jasig/cas/ticket/support/RememberMeDelegatingExpirationPolicy.java:47-55 | each policy's verdict by the history: hard timeouts look at the issuing call, idle ones at all uses as well, the n-use policy counts, the throttled one asks for a recent use, and remember-me follows what the login's authentication says |
| `History.TwoWindowsIff` | cas-server-core/src/main/java/org/jasig/cas/ticket/support/TicketGrantingTicketExpirationPolicy.java:77-95 | under the two-window policy a root is expired exactly if it was destroyed, its maximum time to live has passed since the login, or its time to kill has passed since the login and every grant on it |
| `History.MultiUseIff` | cas-server-core/src/main/java/org/jasig/cas/ticket/support/MultiTimeUseOrTimeoutExpirationPolicy.java:60-64 | under the n-use policy a service ticket is expired exactly if its session is, after n validations past the expiry check, or when its time to kill has passed since the grant and each of them |
| `History.GrantInvalidIff` | cas-server-core/src/main/java/org/jasig/cas/CentralAuthenticationServiceImpl.java:193-198 | a stored granting ticket refuses a grant as invalid exactly if it is over by the history |
| `History.UnstoredIsExpired` | cas-server-core/src/main/java/org/jasig/cas/ticket/registry/DefaultTicketRegistry.java:93-102 | under lasting policies no live ticket ever leaves the registry |
| `Witnesses.GrantsFollowHistoryIffLasting` | cas-server-core/src/main/java/org/jasig/cas/ticket/support/ThrottledUseAndTimeoutExpirationPolicy.java:58-83 | the equivalence for grants holds in all runs of a policy for granting tickets, whatever lasting policy service tickets have, exactly if it is lasting |
| `Answers.GrantIssuesIff` | cas-server-core/src/main/java/org/jasig/cas/CentralAuthenticationServiceImpl.java:181-266 | in every state that keeps the invariant, whatever the policies, exactly when a grant issues a ticket |
| `Answers.LiveGrantAnswer` | cas-server-core/src/main/java/org/jasig/cas/CentralAuthenticationServiceImpl.java:200-236 | which error a live granting ticket answers: unregistered or disabled service, no single sign-on, no proxying, credentials that fail or are of another user or another kind of login, in this order |
| `Answers.GrantEffect` | cas-server-core/src/main/java/org/jasig/cas/CentralAuthenticationServiceImpl.java:187-242 | what a grant changes: nothing when it is refused, except that an expired ticket goes; otherwise one more use and service, and the new ticket |
| `Answers.CreateAnswer` | cas-server-core/src/main/java/org/jasig/cas/CentralAuthenticationServiceImpl.java:472-489 | a login fails only if authentication does, and makes exactly one root |
| `Answers.DelegateAnswer` | cas-server-core/src/main/java/org/jasig/cas/CentralAuthenticationServiceImpl.java:289-327 | the answers of a delegation in the order of the checks, and what it changes |
| `Answers.LiveValidateAnswer` | cas-server-core/src/main/java/org/jasig/cas/CentralAuthenticationServiceImpl.java:352-452 | a live ticket answers a service that may validate: wrong service without a match, a null pointer exactly for a null user name attribute that the service may see, an assertion otherwise; the user name is the persistent id, the attribute's text, or the user's own id if none is configured, the user lacks it or the service may not see it |
| `Answers.ValidateAssertsIff` | cas-server-core/src/main/java/org/jasig/cas/CentralAuthenticationServiceImpl.java:339-414 | exactly when a validation answers an assertion |
| `Answers.ValidateEffect` | cas-server-core/src/main/java/org/jasig/cas/CentralAuthenticationServiceImpl.java:339-414 | refusals before the expiry check change nothing, an expired ticket goes, and a use is counted and may end the ticket |
| `Answers.DestroyAnswer` | cas-server-core/src/main/java/org/jasig/cas/CentralAuthenticationServiceImpl.java:152-169 | destroying marks and drops a stored granting ticket and logs out exactly the services that it granted, each with one message if it was not logged out and has a client |
| `Runs.DestroyIsFinal` | cas-server-core/src/main/java/org/jasig/cas/CentralAuthenticationServiceImpl.java:152-169 | after a stored granting ticket is destroyed, everything that ever hangs below it, made before or after, is expired at every time in every later state, whatever the policies, and no later grant, validation or delegation on any of it succeeds |
| `Runs.ExpiryIsPermanent` | cas-server-core/src/main/java/org/jasig/cas/ticket/AbstractTicket.java:104-132 | with policies that last for the tickets they judge, a ticket expired when somebody looks at one state of a run is expired at all later times in all later states, own use and use of its ancestors included |
| `Witnesses.PermanentIffGrantingLasts` | cas-server-core/src/main/java/org/jasig/cas/ticket/AbstractTicket.java:104-132 | expiry is permanent in all runs of a policy for granting tickets, whatever lasting policy service tickets have, exactly if it is lasting |
| `Witnesses.PermanentIffServiceLasts` | cas-server-core/src/main/java/org/jasig/cas/ticket/AbstractTicket.java:104-132 | the same for policies of service tickets, which carry no authentication |
| `Runs.NeverValidatedTwice` | cas-server-core/src/main/java/org/jasig/cas/CentralAuthenticationServiceImpl.java:339-414 | with the one-use policy, two validations of one ticket never both get past its expiry check, successful or not; attempts refused before that check are the subject of the rows on spending |
| `Validation.AttemptSpendsIff` | cas-server-core/src/main/java/org/jasig/cas/CentralAuthenticationServiceImpl.java:343-368 | with the one-use policy an attempt on a stored ticket takes it out of the registry exactly if the calling service is registered and enabled; any other attempt changes nothing |
| `Validation.AttemptSpendsForGood` | cas-server-core/src/main/java/org/jasig/cas/CentralAuthenticationServiceImpl.java:343-368 | the same in runs: an attempt that uses the ticket up does so for good |
| `Validation.RequestSpendsIff` | cas-server-core/src/main/java/org/jasig/cas/web/ServiceValidateController.java:130-146 | with the one-use policy a validation request uses the ticket up exactly if the calling service is registered and enabled and no callback came along that ends the request: one with good credentials on a live ticket that may not proxy or did so before |
| `Validation.UnauthorizedCallbackSparesTicket` | cas-server-core/src/main/java/org/jasig/cas/web/ServiceValidateController.java:134-146 | a callback for a live ticket whose service may not proxy ends the request: the view fails and nothing has changed |
| `Witnesses.UnregisteredAttempt` | cas-server-core/src/main/java/org/jasig/cas/CentralAuthenticationServiceImpl.java:345-350 | a concrete run: an unregistered service tries a one-use ticket, which is validated afterwards all the same |
| `Witnesses.UnauthorizedCallback` | cas-server-core/src/main/java/org/jasig/cas/web/ServiceValidateController.java:134-146 | a concrete request that fails for its callback; the same request without it succeeds afterwards |
| `Runs.AtMostNValidations` | cas-server-core/src/main/java/org/jasig/cas/ticket/support/MultiTimeUseOrTimeoutExpirationPolicy.java:60-64 | with the n-use policy a service ticket gets past the expiry check at most n times in any run, attempts for the wrong service counted, and after the n-th time it is out of the registry |
| `Runs.UsesCountPasses` | cas-server-core/src/main/java/org/jasig/cas/ticket/ServiceTicketImpl.java:97-100 | in every run the use count of a service ticket is the number of validations that got past its expiry check |
| `Runs.Reachable` | cas-server-core/src/main/java/org/jasig/cas/CentralAuthenticationServiceImpl.java:152-414 | every state of every run satisfies the invariant: the tickets form a forest, identifiers tell the kind, use counts, services maps and service tickets agree, logout messages agree with logged-out services; and only issued identifiers exist |
| `Runs.TicketsPersist` | cas-server-core/src/main/java/org/jasig/cas/ticket/AbstractTicket.java:88-116 | between two points of a run a ticket keeps its policy, parent, creation time and service or authentication; use counts only grow and flags are only set |
| `Runs.LinksPersist` | cas-server-core/src/main/java/org/jasig/cas/ticket/TicketGrantingTicketImpl.java:151-163 | ancestors, authentication chain and root of a ticket never change in a run |
| `Runs.RunsAreExecutions` | cas-server-core/src/main/java/org/jasig/cas/CentralAuthenticationServiceImpl.java:152-414 | a sequence of calls determines all states and answers of its run |
| `Simulation.RegistriesAreIndistinguishable` | cas-server-core/src/main/java/org/jasig/cas/ticket/registry/JpaTicketRegistry.java:68-106 | for every sequence of calls with well-typed identifiers, a lasting policy for granting tickets and any policy for service tickets, the service answers the same identifiers, assertions and errors over the registry that deletes one ticket as over the one that deletes subtrees |
| `Witnesses.IndistinguishableIffLasting` | cas-server-core/src/main/java/org/jasig/cas/ticket/registry/DefaultTicketRegistry.java:93-102 | a policy for granting tickets makes the two registries indistinguishable for all well-typed calls and all policies for service tickets exactly if it is lasting |
| `Witnesses.RevivingPolicyTellsApart` | cas-server-core/src/main/java/org/jasig/cas/ticket/registry/JpaTicketRegistry.java:68-106 | for every other policy, four well-typed calls that get different answers |
| `Simulation.AnswersDifferIffConfused` | cas-server-core/src/main/java/org/jasig/cas/ticket/registry/AbstractTicketRegistry.java:44-61 | without the typing condition: the answers to a call differ exactly if its identifier is of the wrong kind and names a stored ticket of the map registry with an ancestor that is no longer stored there (a delegation must also authenticate) |
| `Simulation.StoredIffNotOrphaned` | cas-server-core/src/main/java/org/jasig/cas/ticket/registry/JpaTicketRegistry.java:86-106 | the cascading registry holds exactly those tickets of the map registry whose ancestors are all stored there |
| `Simulation.TwinsStayPaired` | cas-server-core/src/main/java/org/jasig/cas/ticket/registry/DefaultTicketRegistry.java:93-102 | along two such runs the map registry holds every ticket of the cascading one, unchanged, and above whatever it holds beyond them some granting ticket is expired by itself |
| `Simulation.StepTogether` | cas-server-core/src/main/java/org/jasig/cas/CentralAuthenticationServiceImpl.java:152-414 | one call on both services keeps that relation, and the answers differ exactly for calls of the wrong kind on a ticket that only the map registry holds |
| `Simulation.DeleteTogether` | cas-server-core/src/main/java/org/jasig/cas/ticket/registry/JpaTicketRegistry.java:68-106 | deleting one expired ticket here and its whole subtree there keeps that relation |
| `Simulation.AgreeingExpiry` | cas-server-core/src/main/java/org/jasig/cas/ticket/AbstractTicket.java:130-132 | expiry of a ticket depends on it and its ancestors only |
| `Witnesses.MistypedCallTellsApart` | cas-server-core/src/main/java/org/jasig/cas/ticket/registry/AbstractTicketRegistry.java:54-58 | a concrete run: after a logout, a service-ticket identifier passed as a granting ticket gets different answers from the two registries |
| `Provenance.SessionBound` | cas-server-core/src/main/java/org/jasig/cas/ticket/support/TicketGrantingTicketExpirationPolicy.java:77-95 | under the two-window policy every ticket in the tree of a login, proxy tickets included, is expired once the clock reaches login time plus maximum time to live, whatever happened in between |
| `Provenance.AssertedChain` | cas-server-core/src/main/java/org/jasig/cas/CentralAuthenticationServiceImpl.java:370-408 | a validated assertion has the chain of the granting ticket, same length and order, all entries but the last untouched, the last being the root login as disclosed; length one exactly for tickets straight from a login |
| `Provenance.Origin` | cas-server-core/src/main/java/org/jasig/cas/CentralAuthenticationServiceImpl.java:181-327 | every ticket of a reachable state was made by exactly the kind of call that can make it, under the conditions that call checked then |
| `Provenance.StepMakes` | cas-server-core/src/main/java/org/jasig/cas/CentralAuthenticationServiceImpl.java:181-327 | a ticket that a call makes has the parent, service or authentication, creation time and new-login flag that the request and the tickets before it determine, and the checks had passed |
| `Provenance.GrantsAreCounted` | cas-server-core/src/main/java/org/jasig/cas/ticket/TicketGrantingTicketImpl.java:112-127 | in every reachable state use count, services map and service tickets of a granting ticket agree |
| `Provenance.NewLoginIffFirst` | cas-server-core/src/main/java/org/jasig/cas/CentralAuthenticationServiceImpl.java:208-212 | a service ticket is from a new login exactly if credentials came with the request or its granting ticket had granted nothing before; always for services without single sign-on |
| `Provenance.ProxyGrantingOrigin` | cas-server-core/src/main/java/org/jasig/cas/CentralAuthenticationServiceImpl.java:302-321 | every proxy-granting ticket was delegated from a service ticket of its parent, whose service was enabled and allowed to proxy at that time |
| `Provenance.DelegatesOnce` | cas-server-core/src/main/java/org/jasig/cas/ticket/ServiceTicketImpl.java:102-115 | no service ticket yields two proxy-granting tickets in any run |
| `Provenance.ProxyTicketsAreAuthorized` | cas-server-core/src/main/java/org/jasig/cas/CentralAuthenticationServiceImpl.java:215-222 | every service ticket below a proxy-granting ticket was granted to a service that was enabled and allowed to proxy at that time |
| `Provenance.AtMostOneLogoutMessage` | cas-server-core/src/main/java/org/jasig/cas/authentication/principal/AbstractWebApplicationService.java:150-170 | in every reachable state a service object was sent exactly one logout message if it was logged out and has an HTTP client, none otherwise |
| `Provenance.LogoutsPersist` | cas-server-core/src/main/java/org/jasig/cas/authentication/principal/AbstractWebApplicationService.java:150-170 | a service object once logged out stays so |
| `Provenance.DestroyLogsOut` | cas-server-core/src/main/java/org/jasig/cas/ticket/TicketGrantingTicketImpl.java:129-145 | destroying a stored granting ticket logs out, for good, the service of every ticket it granted, each with one message in all |
| `Validation.AttributeRelease` | cas-server-core/src/main/java/org/jasig/cas/CentralAuthenticationServiceImpl.java:377-461 | the released attributes are exactly those of the root user that the service may see, with unchanged values; the released name comes from an attribute exactly if that attribute is configured and visible; anonymous services get the persistent id; date and authentication attributes are those of the login, the latter empty when attributes are not filtered |
| `Validation.AuthenticationsAreKept` | cas-server-core/src/main/java/org/jasig/cas/CentralAuthenticationServiceImpl.java:377-408 | no call changes the authentication of a stored ticket |
| `Validation.WithoutSsoAlwaysRenewed` | cas-server-core/src/main/java/org/jasig/cas/validation/AbstractCasProtocolValidationSpecification.java:65-68 | a ticket granted while its service had no single sign-on satisfies every later check for a new login |
| `Validation.RequestSucceedsIff` | cas-server-core/src/main/java/org/jasig/cas/web/ServiceValidateController.java:119-183 | a request succeeds exactly if its identifier is that of a stored service ticket, no callback ends it, the ticket is live, the caller is registered and enabled and the service of the ticket, the user name is not null, the ticket is straight from a login unless proxies are welcome, and from a new login if that is asked for; the proxy-granting ticket is handed over exactly if the callback was served |
| `Validation.SuccessIff` | cas-server-core/src/main/java/org/jasig/cas/web/ServiceValidateController.java:146-168 | the view is a success exactly if no callback ended the request, the validation answered an assertion and the specification is met, renew or not; a specification failure exactly if only that is missing; the state is that of the delegation if it ended the request, and of the validation after it otherwise |
| `Validation.FailureIff` | cas-server-core/src/main/java/org/jasig/cas/web/ServiceValidateController.java:168-177 | a failure view shows exactly ticket exceptions and unauthorized services; illegal states, class casts and null pointers escape |
| `Validation.SuccessMeansRoot` | cas-server-core/src/main/java/org/jasig/cas/validation/Cas10ProtocolValidationSpecification.java:43-45 | section 2.4 of the CAS protocol: a success view under the version 1 rules means a ticket straight from a login, and under renew one from a new login, whether or not a delegation came first |
| `Validation.SuccessHandsOverSibling` | cas-server-core/src/main/java/org/jasig/cas/web/ServiceValidateController.java:130-168 | a proxy-granting ticket handed over with a success view is stored, hangs below the ticket that granted the validated one, and its service might proxy |
| `Validation.DelegationOutlivesFailure` | cas-server-core/src/main/java/org/jasig/cas/web/ServiceValidateController.java:134-157 | the proxy-granting ticket stays registered exactly if the delegation issued it, even when the view then reports a failure |
| `Validation.FailureKeepsProxyTicket` | cas-server-core/src/main/java/org/jasig/cas/web/ServiceValidateController.java:134-146 | a delegation that issued, then a service that is not registered: the view fails and the proxy-granting ticket is registered |
| `Witnesses.FailureLeavesProxyTicket` | cas-server-core/src/main/java/org/jasig/cas/web/ServiceValidateController.java:134-146 | a concrete such request |
| `ServiceValidate.ServiceValidateController.Delegate` | cas-server-core/src/main/java/org/jasig/cas/web/ServiceValidateController.java:131-144 | the delegation before the validation: a ticket exception is swallowed, other errors end the request |
| `ServiceValidate.ServiceValidateController.HandleRequestInternal` | cas-server-core/src/main/java/org/jasig/cas/web/ServiceValidateController.java:119-183 | view and final state are those of delegating, validating and checking the specification in this order; a request without ticket or service changes nothing |
| `Steps.StepKeeps` | cas-server-core/src/main/java/org/jasig/cas/CentralAuthenticationServiceImpl.java:152-414 | every call keeps the invariant, the cascading registry also that a stored ticket has a stored parent, and changes tickets only as far as usage, services map and flags |
| `Steps.DeleteKeeps` | cas-server-core/src/main/java/org/jasig/cas/ticket/registry/JpaTicketRegistry.java:68-106 | deletion in either registry keeps the invariant, stored parents included |
| `Tickets.ChainShape` | cas-server-core/src/main/java/org/jasig/cas/ticket/TicketGrantingTicketImpl.java:151-163 | the chain of a granting ticket has one entry per level, starts with its own authentication, ends with its root's, and has length one exactly for roots |
| `Tickets.ChainEntry` | cas-server-core/src/main/java/org/jasig/cas/ticket/TicketGrantingTicketImpl.java:151-163 | the i-th entry of a chain is the authentication of the ancestor i levels up |
| `Tickets.RootIsAbove` | cas-server-core/src/main/java/org/jasig/cas/ticket/TicketGrantingTicketImpl.java:138-140 | every ticket hangs below a granting ticket without parent |
| `Tickets.NoCycles` | cas-server-core/src/main/java/org/jasig/cas/ticket/AbstractTicket.java:88-98 | no two different tickets hang below each other |
| `Tickets.ExpiredIff` | cas-server-core/src/main/java/org/jasig/cas/ticket/AbstractTicket.java:130-132 | a ticket is expired exactly if it or one of its ancestors is by its own policy or flag |
| `Tickets.ExpiryIsInherited` | cas-server-core/src/main/java/org/jasig/cas/ticket/AbstractTicket.java:130-132 | what hangs below an expired ticket is expired |
| `Expiration.LastingIffNeverRevives` | cas-server-core/src/main/java/org/jasig/cas/ticket/support/ThrottledUseAndTimeoutExpirationPolicy.java:58-83 | read at or after the last use, a policy never takes an expiry back exactly if every throttled policy in it waits at least until its own timeout, or not at all; the other policies always qualify |
| `Expiration.OnlyGetsOlder` | cas-server-core/src/main/java/org/jasig/cas/ticket/support/RememberMeDelegatingExpirationPolicy.java:47-55 | the same for one authentication: only the branch that it selects matters |
| `Expiration.RevivesInside` | cas-server-core/src/main/java/org/jasig/cas/ticket/support/ThrottledUseAndTimeoutExpirationPolicy.java:76-82 | for every other policy, a ticket that is live when made, expired at some time after one use, and not a millisecond later |
| `TicketObjects.TicketObject.IsExpired` | cas-server-core/src/main/java/org/jasig/cas/ticket/AbstractTicket.java:130-132 | the recursion up the references computes inherited expiry |
| `TicketObjects.TicketObject.GetChainedAuthentications` | cas-server-core/src/main/java/org/jasig/cas/ticket/TicketGrantingTicketImpl.java:151-163 | the recursion up the references computes the chain of the ticket |
| `TicketObjects.TicketObject.GrantServiceTicket` | cas-server-core/src/main/java/org/jasig/cas/ticket/TicketGrantingTicketImpl.java:112-127 | the granted ticket and the whole new state of the granting one; the service learns the user at the root |
| `TicketObjects.TicketObject.Expire` | cas-server-core/src/main/java/org/jasig/cas/ticket/TicketGrantingTicketImpl.java:129-145 | marks the ticket and logs out of every service it granted, each messaged once if it was not logged out before |
| `TicketObjects.TicketObject.IsValidFor` | cas-server-core/src/main/java/org/jasig/cas/ticket/ServiceTicketImpl.java:97-100 | counts the attempt before comparing the services |
| `TicketObjects.TicketObject.GrantTicketGrantingTicket` | cas-server-core/src/main/java/org/jasig/cas/ticket/ServiceTicketImpl.java:102-115 | one proxy-granting ticket under the same parent; a second attempt changes nothing |
| `Domain.WebApplicationService.LogOutOfService` | cas-server-core/src/main/java/org/jasig/cas/authentication/principal/AbstractWebApplicationService.java:150-170 | a message at the first call only, and only with an HTTP client; the answer is whether the service need not be reported |
| `CentralAuthenticationService.DefaultTicketRegistry.GetTicket` | cas-server-core/src/main/java/org/jasig/cas/ticket/registry/AbstractTicketRegistry.java:44-61 | missing, of another class, or the very object that is stored |
| `CentralAuthenticationService.CentralAuthenticationServiceImpl.Process` | cas-server-core/src/main/java/org/jasig/cas/CentralAuthenticationServiceImpl.java:152-414 | over ticket objects and the map registry a whole run gives the answers of the protocol and ends in its state, so all statements about runs hold of the objects |
| `CentralAuthenticationService.CentralAuthenticationServiceImpl.Handle` | cas-server-core/src/main/java/org/jasig/cas/CentralAuthenticationServiceImpl.java:152-414 | one call on the objects does what the protocol step says and keeps its invariant |
| `CentralAuthenticationService.CentralAuthenticationServiceImpl.CreateTicketGrantingTicket` | cas-server-core/src/main/java/org/jasig/cas/CentralAuthenticationServiceImpl.java:472-489 | refines the login step |
| `CentralAuthenticationService.CentralAuthenticationServiceImpl.CheckGrant` | cas-server-core/src/main/java/org/jasig/cas/CentralAuthenticationServiceImpl.java:200-236 | the checks before a grant, in their order: service, single sign-on, proxying, credentials |
| `CentralAuthenticationService.CentralAuthenticationServiceImpl.GrantServiceTicket` | cas-server-core/src/main/java/org/jasig/cas/CentralAuthenticationServiceImpl.java:181-266 | refines the grant step; an expired granting ticket is dropped, and the service of an issued ticket learns the user at the root |
| `CentralAuthenticationService.CentralAuthenticationServiceImpl.DelegateTicketGrantingTicket` | cas-server-core/src/main/java/org/jasig/cas/CentralAuthenticationServiceImpl.java:289-327 | refines the delegation step |
| `CentralAuthenticationService.CentralAuthenticationServiceImpl.ReleaseAttributes` | cas-server-core/src/main/java/org/jasig/cas/CentralAuthenticationServiceImpl.java:377-400 | the loop computes the allowed attributes that have a value |
| `CentralAuthenticationService.CentralAuthenticationServiceImpl.BuildAssertion` | cas-server-core/src/main/java/org/jasig/cas/CentralAuthenticationServiceImpl.java:370-408 | the loop copies the chain, the last entry replaced by what the service may see |
| `CentralAuthenticationService.CentralAuthenticationServiceImpl.ValidateServiceTicket` | cas-server-core/src/main/java/org/jasig/cas/CentralAuthenticationServiceImpl.java:339-414 | refines the validation step; on every way out after the check of the service an expired ticket is dropped |
| `CentralAuthenticationService.CentralAuthenticationServiceImpl.ExpireTicket` | cas-server-core/src/main/java/org/jasig/cas/ticket/TicketGrantingTicketImpl.java:129-145 | flags and message counters of the service objects match the message log of the protocol |
| `CentralAuthenticationService.CentralAuthenticationServiceImpl.DestroyTicketGrantingTicket` | cas-server-core/src/main/java/org/jasig/cas/CentralAuthenticationServiceImpl.java:152-169 | refines the logout step |
| `JpaRegistry.JpaTicketRegistry.GetRawTicket` | cas-server-core/src/main/java/org/jasig/cas/ticket/registry/JpaTicketRegistry.java:125-136 | looking into the table that the prefix names finds every row |
| `JpaRegistry.JpaTicketRegistry.DeleteTicketAndChildren` | cas-server-core/src/main/java/org/jasig/cas/ticket/registry/JpaTicketRegistry.java:86-106 | loops and recursion terminate and remove the ticket and exactly its descendants; every other row is untouched and still has its parent |
| `JpaRegistry.JpaTicketRegistry.DeleteTicket` | cas-server-core/src/main/java/org/jasig/cas/ticket/registry/JpaTicketRegistry.java:68-84 | the same for any identifier: a missing one removes nothing, a service ticket only itself; says whether there was a ticket |
| `JpaRegistry.CascadeDeletesSubtree` | cas-server-core/src/main/java/org/jasig/cas/ticket/registry/JpaTicketRegistry.java:68-106 | on the rows of a reachable state that is what the cascading protocol does |
| `JpaRegistry.RowsDecide` | cas-server-core/src/main/java/org/jasig/cas/ticket/registry/JpaTicketRegistry.java:121-136 | answers and new rows depend on the present rows only, not on deleted tickets |
| `DistributedTickets.TicketDelegator.IsExpired` | cas-server-core/src/main/java/org/jasig/cas/ticket/registry/AbstractDistributedTicketRegistry.java:84-92 | without callbacks, inherited expiry over the rows |
| `DistributedTickets.TicketDelegator.GetChainedAuthentications` | cas-server-core/src/main/java/org/jasig/cas/ticket/registry/AbstractDistributedTicketRegistry.java:180-182 | the chain over the rows |
| `DistributedTickets.TicketDelegator.IsValidFor` | cas-server-core/src/main/java/org/jasig/cas/ticket/registry/AbstractDistributedTicketRegistry.java:140-144 | the counted use is in the row afterwards, whatever the answer |
| `DistributedTickets.TicketDelegator.GrantTicketGrantingTicket` | cas-server-core/src/main/java/org/jasig/cas/ticket/registry/AbstractDistributedTicketRegistry.java:146-150 | the spent flag is in the row afterwards; an illegal second grant writes nothing |
| `DistributedTickets.TicketDelegator.GrantServiceTicket` | cas-server-core/src/main/java/org/jasig/cas/ticket/registry/AbstractDistributedTicketRegistry.java:165-169 | use and service are in the row of the granting ticket afterwards, and the service learns the user at the root |
| `DistributedTickets.TicketDelegator.Expire` | cas-server-core/src/main/java/org/jasig/cas/ticket/registry/AbstractDistributedTicketRegistry.java:171-174 | the flag is in the row afterwards |
| `JpaService.ProcessOnBoth` | cas-server-core/src/main/java/org/jasig/cas/CentralAuthenticationServiceImpl.java:152-414 | the service over ticket objects and the service over rows, both given the same well-typed calls and a lasting policy for granting tickets, return the same answers |
| `JpaService.CentralAuthenticationServiceImpl.Process` | cas-server-core/src/main/java/org/jasig/cas/CentralAuthenticationServiceImpl.java:152-414 | over the database a whole run gives the answers of the cascading protocol, and leaves the rows of its state |
| `JpaService.CentralAuthenticationServiceImpl.GetTicket` | cas-server-core/src/main/java/org/jasig/cas/ticket/registry/JpaTicketRegistry.java:121-136 | finds a delegator on the current row, nothing, or a ticket of another class |
| `JpaService.CentralAuthenticationServiceImpl.DeleteTicket` | cas-server-core/src/main/java/org/jasig/cas/ticket/registry/JpaTicketRegistry.java:68-106 | the recursive delete leaves the rows of the cascading state |
| `JpaService.CentralAuthenticationServiceImpl.CreateTicketGrantingTicket` | cas-server-core/src/main/java/org/jasig/cas/CentralAuthenticationServiceImpl.java:472-489 | refines the login step on rows |
| `JpaService.CentralAuthenticationServiceImpl.GrantServiceTicket` | cas-server-core/src/main/java/org/jasig/cas/CentralAuthenticationServiceImpl.java:181-266 | refines the grant step on rows: the granting ticket is written back, the new one added, an expired one deleted with its subtree; the service learns the user at the root |
| `JpaService.CentralAuthenticationServiceImpl.DelegateTicketGrantingTicket` | cas-server-core/src/main/java/org/jasig/cas/CentralAuthenticationServiceImpl.java:289-327 | refines the delegation step on rows |
| `JpaService.CentralAuthenticationServiceImpl.ValidateServiceTicket` | cas-server-core/src/main/java/org/jasig/cas/CentralAuthenticationServiceImpl.java:339-414 | refines the validation step on rows: the use is written back before the assertion is built |
| `JpaService.CentralAuthenticationServiceImpl.DestroyTicketGrantingTicket` | cas-server-core/src/main/java/org/jasig/cas/CentralAuthenticationServiceImpl.java:152-169 | refines the logout step on rows |
| `UrlParameters.FilterIff` | cas-server-webapp/src/main/java/com/shtd/cas/util/CasUtility.java:27-74 | for a base without separators, a well-formed list, closed or ending in a separator, and unwanted values without `?name=`: the string surgery removes exactly the parameters with an unwanted name, duplicates included, keeps the rest in order and leaves no dangling separator, or leaves the URL as it is if nothing is unwanted, if and only if no wanted value has a `?name=` and the last wanted one is not trimmed; it is trimmed exactly if it ends in a question mark and some unwanted name needs more passes than every unwanted name behind it and an open end |
| `UrlParameters.OneNameFilterIff` | cas-server-webapp/src/main/java/com/shtd/cas/util/CasUtility.java:27-74 | for one unwanted name, any unwanted values, and wanted ones that do not end in a question mark: the same holds if and only if no wanted value has a `?name=`, and no unwanted value that has one stands between two wanted parameters |
| `UrlParameters.CleanedIsNoLonger` | cas-server-webapp/src/main/java/com/shtd/cas/util/CasUtility.java:61-70 | with nothing hit, cleaning keeps at most what the filter keeps |
| `UrlParameters.HitBreaksFilter` | cas-server-webapp/src/main/java/com/shtd/cas/util/CasUtility.java:41-43 | in every list a wanted value with `?name=` for an unwanted name is damaged |
| `UrlParameters.ResetUrl` | cas-server-webapp/src/main/java/com/shtd/cas/util/CasUtility.java:13-18 | resetting is cleaning for lt, error_message and get-lt |
| `UrlParameters.ResetFilterIff` | cas-server-webapp/src/main/java/com/shtd/cas/util/CasUtility.java:13-18 | the equivalence for the three login parameters |
| `UrlParameters.HitInUnwantedValue` | cas-server-webapp/src/main/java/com/shtd/cas/util/CasUtility.java:41-56 | a concrete URL with a removed value that takes a wanted parameter along |
| `UrlParameters.CutIsMerge` | cas-server-webapp/src/main/java/com/shtd/cas/util/CasUtility.java:41-56 | a cut at a `?name=` in a value takes what follows it there and joins the next parameter to the value |
| `UrlParameters.RemoveHttpGetParameters` | cas-server-webapp/src/main/java/com/shtd/cas/util/CasUtility.java:27-74 | the loop inside the recursion computes the cleaned URL, and terminates because a repeated call is shorter |
| `UrlParameters.NothingUnwantedLeft` | cas-server-webapp/src/main/java/com/shtd/cas/util/CasUtility.java:66-70 | on any string whatever, the result has no question mark or no unwanted name that a pass would find |
| `UrlParameters.UntouchedIff` | cas-server-webapp/src/main/java/com/shtd/cas/util/CasUtility.java:31-68 | any string stays as it is exactly if it has no question mark, or none of the names is found in it |
| `UrlParameters.CleaningTwiceIsCleaningOnce` | cas-server-webapp/src/main/java/com/shtd/cas/util/CasUtility.java:66-70 | on any string, cleaning is idempotent |
| `UrlParameters.CutAllShrinks` | cas-server-webapp/src/main/java/com/shtd/cas/util/CasUtility.java:48-56 | a pass that finds a name makes the string shorter, any other leaves it alone |
| `UrlParameters.StartOfFirst` | cas-server-webapp/src/main/java/com/shtd/cas/util/CasUtility.java:41-47 | the position found is that of the first parameter with the name |
| `UrlParameters.CutIsWithoutFirst` | cas-server-webapp/src/main/java/com/shtd/cas/util/CasUtility.java:48-56 | cutting the text removes that parameter from the list |
| `UrlParameters.TrimCloses` | cas-server-webapp/src/main/java/com/shtd/cas/util/CasUtility.java:61-64 | trimming closes an open query, drops the question mark of an empty one, and otherwise shortens a last value that ends in one |
| `Throttle.AtMostThresholdFailures` | cas-server-core/src/main/java/org/jasig/cas/web/support/AbstractInMemoryThrottledSubmissionHandlerInterceptorAdapter.java:47-58 | for attempts on a key that do not overlap, every half-open window of the range holds at most threshold recorded failures, wherever the cleaner runs; with threshold zero at most one |
| `Throttle.OverlapBoundsFailures` | cas-server-core/src/main/java/org/jasig/cas/web/support/AbstractThrottledSubmissionHandlerInterceptorAdapter.java:70-104 | with at most m failing attempts on a key under way at any time, every half-open window of the range holds at most m times as many recorded failures as moments fit into it that are range over threshold apart, rounded up to milliseconds, wherever the cleaner runs; so at most m times threshold, or m with threshold zero |
| `Throttle.AlwaysWithinIff` | cas-server-core/src/main/java/org/jasig/cas/web/support/AbstractThrottledSubmissionHandlerInterceptorAdapter.java:70-104 | that bound is exact for every setting and every m: nothing smaller holds in all runs |
| `Throttle.BoundIsReached` | cas-server-core/src/main/java/org/jasig/cas/web/support/AbstractThrottledSubmissionHandlerInterceptorAdapter.java:70-104 | a run with m attempts under way that reaches it |
| `Throttle.ThresholdHoldsIff` | cas-server-core/src/main/java/org/jasig/cas/web/support/AbstractThrottledSubmissionHandlerInterceptorAdapter.java:70-104 | where the gap is a whole number of milliseconds, all runs with at most m attempts under way keep at most threshold failures in every window exactly if m is at most one |
| `Throttle.FailuresAreSpaced` | cas-server-core/src/main/java/org/jasig/cas/web/support/AbstractThrottledSubmissionHandlerInterceptorAdapter.java:70-104 | with at most m failing attempts on a key under way, failures that are m apart in order are at least range over threshold apart in time |
| `Throttle.CleaningIsInvisible` | cas-server-core/src/main/java/org/jasig/cas/web/support/AbstractInMemoryThrottledSubmissionHandlerInterceptorAdapter.java:65-79 | whenever the cleaner runs in a run, present and future answers are those without it |
| `Throttle.SweptIff` | cas-server-core/src/main/java/org/jasig/cas/web/support/AbstractInMemoryThrottledSubmissionHandlerInterceptorAdapter.java:73-76 | the cleaner drops exactly the entries older than range over threshold, and leaves the others as they are; for zero ranges and thresholds, too |
| `Throttle.SweptNeverExceeds` | cas-server-core/src/main/java/org/jasig/cas/web/support/AbstractInMemoryThrottledSubmissionHandlerInterceptorAdapter.java:73-76 | an entry that the cleaner may drop would never throttle again |
| `Throttle.ExceedsIff` | cas-server-core/src/main/java/org/jasig/cas/web/support/AbstractInMemoryThrottledSubmissionHandlerInterceptorAdapter.java:47-53 | with a positive range a key is throttled exactly while its last failure is closer than range over threshold |
| `Throttle.ZeroRangeNeverThrottles` | cas-server-core/src/main/java/org/jasig/cas/web/support/AbstractThrottledSubmissionHandlerInterceptorAdapter.java:64-66 | a range of zero switches throttling off |
| `Throttle.MapHoldsLastFailure` | cas-server-core/src/main/java/org/jasig/cas/web/support/AbstractInMemoryThrottledSubmissionHandlerInterceptorAdapter.java:56-58 | without the cleaner the map holds exactly the last recorded failure of a key |
| `Throttle.ThrottledSubmissionHandler.PreHandle` | cas-server-core/src/main/java/org/jasig/cas/web/support/AbstractThrottledSubmissionHandlerInterceptorAdapter.java:70-83 | only POSTs over the threshold are stopped |
| `Throttle.ThrottledSubmissionHandler.PostHandle` | cas-server-core/src/main/java/org/jasig/cas/web/support/AbstractThrottledSubmissionHandlerInterceptorAdapter.java:86-104 | exactly POSTs that end in an event other than success are recorded |
| `Throttle.ThrottledSubmissionHandler.DecrementCounts` | cas-server-core/src/main/java/org/jasig/cas/web/support/AbstractInMemoryThrottledSubmissionHandlerInterceptorAdapter.java:65-79 | the loop removes exactly the entries below the threshold rate |
| `TicketIds.DrawnIdsAreLegal` | cas-server-core/src/main/java/org/jasig/cas/util/DefaultUniqueTicketIdGenerator.java:108-125 | identifiers drawn from one generator per prefix, over a whole period, meet the conditions that runs put on identifiers: unused, and typed by prefix |
| `TicketIds.NoIdTwice` | cas-server-core/src/main/java/org/jasig/cas/util/DefaultUniqueTicketIdGenerator.java:108-125 | one generator hands out no identifier twice in 2^63 consecutive calls, whatever prefixes it is asked for |
| `TicketIds.NumbersTell` | cas-server-core/src/main/java/org/jasig/cas/util/DefaultUniqueTicketIdGenerator.java:114-122 | identifiers with equal suffixes and equally long random parts differ if their numbers do |
| `TicketIds.ReadIffReadable` | cas-server-core/src/main/java/org/jasig/cas/util/DefaultUniqueTicketIdGenerator.java:114-122 | prefix, number, random part and suffix can be read back from an identifier exactly if prefix and random part have no dash and the number is not negative |
| `TicketIds.TypedByPrefix` | cas-server-core/src/main/java/org/jasig/cas/ticket/registry/JpaTicketRegistry.java:125-136 | an identifier starts like a granting ticket's exactly if its dash-free prefix does |
| `TicketIds.DashInPrefixIsAmbiguous` | cas-server-core/src/main/java/org/jasig/cas/util/DefaultUniqueTicketIdGenerator.java:114-122 | with a dash in a prefix two generators can hand out the same identifier |
| `TicketIds.NthIs` | cas-server-core/src/main/java/org/jasig/cas/util/DefaultLongNumericGenerator.java:67-72 | the k-th value from any start: up to zero first, then through 0 to 2^63-1 over and over |
| `TicketIds.RepeatsIff` | cas-server-core/src/main/java/org/jasig/cas/util/DefaultLongNumericGenerator.java:67-72 | two values of one counter are equal exactly if they are whole periods apart and not negative |
| `TicketIds.DefaultLongNumericGenerator.GetNextValue` | cas-server-core/src/main/java/org/jasig/cas/util/DefaultLongNumericGenerator.java:67-72 | hands out the count and never leaves the range of a long |
| `TicketIds.ConvertBytesToString` | cas-server-core/src/main/java/org/jasig/cas/util/DefaultRandomStringGenerator.java:78-86 | the loop maps every byte to the letter at the remainder of its absolute value; no index is out of bounds |
| `TicketIds.LetterIs` | cas-server-core/src/main/java/org/jasig/cas/util/DefaultRandomStringGenerator.java:78-86 | a byte stands for the letter at the remainder of its absolute value, in the alphabet as it is written |
| `TicketIds.AlphabetIs` | cas-server-core/src/main/java/org/jasig/cas/util/DefaultRandomStringGenerator.java:35-36 | the letters that can come up are exactly letters and digits without the digit eight; so no dash |
| `TicketIds.DefaultUniqueTicketIdGenerator.GetNewTicketId` | cas-server-core/src/main/java/org/jasig/cas/util/DefaultUniqueTicketIdGenerator.java:108-125 | joins prefix, next number, random part and suffix |
| `ServicesManager.SettledIffClear` | cas-server-core/src/main/java/org/jasig/cas/services/DefaultServicesManagerImpl.java:93-121 | the answer is the same for every iteration order of the map exactly if nothing else has the key of the least matching service |
| `ServicesManager.ClearAnswer` | cas-server-core/src/main/java/org/jasig/cas/services/DefaultServicesManagerImpl.java:93-107 | then the answer is the least matching service, and none exactly if nothing matches |
| `ServicesManager.DistinctKeysAreClear` | cas-server-core/src/main/java/org/jasig/cas/services/DefaultServicesManagerImpl.java:119-121 | with distinct keys that is so for whatever service is looked up |
| `ServicesManager.TieIsUnsettled` | cas-server-core/src/main/java/org/jasig/cas/services/DefaultServicesManagerImpl.java:119-121 | a tie with the least matching key: inserting either service first gives different answers |
| `ServicesManager.BeforeIff` | cas-server-core/src/main/java/org/jasig/cas/services/AbstractRegisteredService.java:308-313 | a service comes before another exactly if its evaluation order is smaller, or equal and its lower-case name is a proper prefix or has the smaller character at the first difference |
| `ServicesManager.Trichotomy` | cas-server-core/src/main/java/org/jasig/cas/services/AbstractRegisteredService.java:308-313 | any two services are ordered one way, the other way, or have the same evaluation order and lower-case name |
| `ServicesManager.BeforeIsTransitive` | cas-server-core/src/main/java/org/jasig/cas/services/AbstractRegisteredService.java:308-313 | the order is transitive |
| `ServicesManager.TreeSetIsSorted` | cas-server-core/src/main/java/org/jasig/cas/services/DefaultServicesManagerImpl.java:119-121 | the set is strictly sorted and holds only what was added |
| `ServicesManager.TreeSetRepresents` | cas-server-core/src/main/java/org/jasig/cas/services/DefaultServicesManagerImpl.java:119-121 | it holds a service with the key of everything that was added, and never drops the first one |
| `ServicesManager.DefaultServicesManagerImpl.ConvertToTreeSet` | cas-server-core/src/main/java/org/jasig/cas/services/DefaultServicesManagerImpl.java:119-121 | for some iteration order of the map, the set of all services added in it |
| `ServicesManager.DefaultServicesManagerImpl.FindServiceBy` | cas-server-core/src/main/java/org/jasig/cas/services/DefaultServicesManagerImpl.java:93-107 | the loop finds the answer of some iteration order: the default service without services, and where nothing ties with it the least matching one, with the lowest evaluation order of all that match, none only if nothing matches; with ties, a matching service of lower order is passed over only if a service with its key does not match |

## Left out

- Null arguments (`IllegalArgumentException`) and services whose class has no identifier generator.
- Overflow of use counts and of millisecond arithmetic: counts and times are unbounded integers.
- One registry for all tickets: a separate service-ticket registry is not part of this model.
- Expiration.OnlyGetsOlder: a service ticket under the remember-me policy, which has no authentication and makes the code throw, counts as not remembered; a remember-me attribute that is not boolean counts as remembered.
- TicketObjects.TicketObject: one class for the abstract ticket and its two subclasses; a field holds what the subclass adds.
- CentralAuthenticationService.CentralAuthenticationServiceImpl.Process: service objects that come with a grant are new, or known to the service; one that something else logged out is excluded, since the code makes a service object for each request and logs out of stored ones only.
- DistributedTickets.TicketDelegator.Expire: marks the row only; logging out of the services is left out as in the next line.
- JpaService.CentralAuthenticationServiceImpl.DestroyTicketGrantingTicket: logging out of services works on copies stored with the ticket there, so logout messages over the database are not part of this model.
- JpaRegistry.JpaTicketRegistry.RemoveTicket: removals succeed; the code logs and swallows failures, and likewise failed lookups. Locks and transactions are not modelled.
- Subclasses of web application services that override logging out or matching; the text of the logout message.
- Validation.AttributeRelease: a blank username attribute counts as none, which the setter of the registered service sees to.
- ServiceValidate.ServiceValidateController.HandleRequestInternal: the proxy callback request, the binding of the renew parameter and the text of the views.
- Thread interleavings inside a call, and the race of two threads at the largest counter value.
- UrlParameters.FilterIff: unwanted values with `?name=` in them are excluded, since what they take along depends on the order in which several names are removed; `OneNameFilterIff` is exact for one name.
- Throttle.AtMostThresholdFailures: rates are exact, rounding of doubles is not modelled; the key of a request is a parameter.
- TicketIds.DrawnIdsAreLegal: one generator makes all service tickets; several of them, for different service classes, rely on the random parts to differ.
- ServicesManager.DefaultServicesManagerImpl.FindServiceBy: saving, deleting and loading services, and how a registered service matches (Ant and regular expressions).
- Registries with callbacks, the ticket cleaner, ticket counts and health monitors.
- SAML, HTTP, cookies, LDAP, web flows, persistent identifier hashing, JavaScript.
