# Group-event scheduling services — a Dafny model

This project models the sequential core of a small set of scheduling microservices:

- **group-event-service.** Group events are created only when the owner and every participant
  resolve through the user service. A lookup translates a 404 into `UserNotFound` and other
  Feign failures into a generic error carrying the HTTP status. The lookup method and the
  busy-interval fetch are annotated with a circuit breaker whose fallback reports the remote
  service as unavailable; the model assumes that annotation takes effect (see "Left out": both
  methods are only called from inside their own class). Slot recommendation
  loads an event's participants, fetches their busy events from the event service, runs the
  free-slot calculator and returns at most five of its slots. Booking confirms a slot on a stored
  event.
- **Refresh-token store.** The two `AuthService` classes (auth-service and user-service) keep an
  in-memory map from login to the single refresh token currently accepted for it. Login, register
  and refresh write that map; logout removes from it. Logout, access-token issue and refresh all
  act only when the presented token validates and equals the stored one.
- **User and role registries.** `AuthUserService` enforces unique logins/e-mails on registration
  and adds roles by set union. `UserService` keeps usernames unique, looks users up by id or
  username, deletes by id and searches usernames ignoring case.
- **Bearer parsing.** `JwtFilter` takes the token after the exact prefix `"Bearer "`. This is the
  inverse of the header the group-event service's Feign interceptor attaches.

Modules, one per source file or component:

| module | file | models |
|---|---|---|
| `Outcomes` | outcomes.dfy | `Option`, `Result`, `Unit` (null, exceptions, `void`) |
| `GroupEventStore` | group_event_store.dfy | `GroupEvent`, its status, the error kinds, the repository as a class over a map |
| `GroupEventCreation` | group_event_creation.dfy | `GroupEventService` |
| `Recommendation` | recommendation.dfy | `RecommendationService` |
| `Jwt` | jwt.dfy | the JWT/password collaborators, and the refresh-store guard and logout transition |
| `AuthUsers` | auth_users.dfy | auth-service `AuthUserService`, generic in the role type |
| `AuthServiceTokens` | auth_service_tokens.dfy | auth-service `AuthService` |
| `UserServiceTokens` | user_service_tokens.dfy | user-service `AuthService` |
| `BearerAuth` | bearer_auth.dfy | user-service `JwtFilter` and the Feign `Authorization` header |
| `UserDirectory` | user_directory.dfy | user-service `UserService` |

Collaborators the source only calls are parameters of the model:

- the Feign user and event clients become functions from request to outcome
  (`Found | NotFound | Fault(status) | BreakerOpen`, `Busy(events) | Fault(status) | BreakerOpen`);
- the free-slot calculator is a function argument of type `SlotCalculator`;
- the JWT library and the password encoder are records of functions (`JwtProvider`, `PasswordEncoder`);
- the tokens minted during one call, which depend on the clock, are passed in as `IssuedTokens`.

Behaviour of the code worth knowing, which the model keeps:

- A new group event stores the participant list exactly as given. The owner is not added and
  duplicates are kept.
- An empty participant list is accepted: only the owner is looked up, and the event is saved
  with no participants (`addGroupEvent` never checks the list's length).
- `bookSlot` checks neither that the slot is free nor that start precedes end.

## Model

| member | source | states |
|---|---|---|
| GroupEventCreation.UserFallback | group-event-service/src/main/java/com/hs/lab3/groupeventservice/service/GroupEventService.java:81-83 | the user-service fallback always fails with UserServiceUnavailable and takes no client |
| GroupEventCreation.GetUserByIdWithCircuitBreaker | group-event-service/src/main/java/com/hs/lab3/groupeventservice/service/GroupEventService.java:60-65 | success exactly on a found user; UserNotFound exactly on a 404; the generic status-carrying error exactly on other Feign faults; UserServiceUnavailable exactly on an open breaker; no other error kind escapes |
| GroupEventCreation.ResolveAll | group-event-service/src/main/java/com/hs/lab3/groupeventservice/service/GroupEventService.java:40-43 | the participant fan-out succeeds iff every id resolves, returning the users in list order; on failure its error is the translated error of some unresolved participant |
| GroupEventCreation.NewGroupEvent | group-event-service/src/main/java/com/hs/lab3/groupeventservice/service/GroupEventService.java:46-52 | the built event is PENDING with no slot, with the given name, description, owner and participant list |
| GroupEventCreation.GroupEventService.AddGroupEvent | group-event-service/src/main/java/com/hs/lab3/groupeventservice/service/GroupEventService.java:32-58 | saves iff owner and all participants resolve; then exactly one new row under a fresh id, PENDING, participant list as given, and getGroupEventById then returns it; on the owner's or a participant's failure that error is returned and the repository is unchanged |
| GroupEventCreation.GroupEventService.GetGroupEventById | group-event-service/src/main/java/com/hs/lab3/groupeventservice/service/GroupEventService.java:67-71 | returns the stored row iff the id is present, otherwise EventNotFound for that id |
| GroupEventCreation.GroupEventService.DeleteGroupEventById | group-event-service/src/main/java/com/hs/lab3/groupeventservice/service/GroupEventService.java:73-79 | an absent id raises EventNotFound with the repository unchanged; otherwise exactly that id is removed; afterwards a lookup of the id raises EventNotFound |
| GroupEventCreation.OneUnresolvedParticipantFailsFanOut | group-event-service/src/main/java/com/hs/lab3/groupeventservice/service/GroupEventService.java:40-44 | one participant answering 404 makes the whole fan-out fail with a user-lookup error, so nothing is saved |
| GroupEventCreation.MissingParticipantsReportUserNotFound | group-event-service/src/main/java/com/hs/lab3/groupeventservice/service/GroupEventService.java:40-64 | when the only failures are 404s, creation reports UserNotFound for one of the listed participants |
| Recommendation.ToIntervals | group-event-service/src/main/java/com/hs/lab3/groupeventservice/service/RecommendationService.java:51 | each remote busy event maps one-to-one, in order, to an interval with the same date, start and end |
| Recommendation.FetchBusyIntervalsFallback | group-event-service/src/main/java/com/hs/lab3/groupeventservice/service/RecommendationService.java:54-57 | the event-service fallback always fails with EventServiceUnavailable and takes no client |
| Recommendation.FetchBusyIntervals | group-event-service/src/main/java/com/hs/lab3/groupeventservice/service/RecommendationService.java:49-52 | succeeds iff the remote call returned events, with those events as intervals; every remote failure becomes EventServiceUnavailable |
| Recommendation.RecommendSlots | group-event-service/src/main/java/com/hs/lab3/groupeventservice/service/RecommendationService.java:36-46 | unknown event: EventNotFound; fetch failure: EventServiceUnavailable; NoAvailableSlots iff the calculator returns nothing; otherwise between 1 and 5 slots, exactly the calculator's first min(5, n), in its order |
| Recommendation.RecommendationKeepsCalculatorOrder | group-event-service/src/main/java/com/hs/lab3/groupeventservice/service/RecommendationService.java:44 | a chronological calculator result gives a chronological recommendation, and every recommended slot is one the calculator produced |
| Recommendation.FewSlotsAreAllRecommended | group-event-service/src/main/java/com/hs/lab3/groupeventservice/service/RecommendationService.java:43-44 | when the calculator finds between one and five slots, all of them are returned unchanged |
| Recommendation.Booked | group-event-service/src/main/java/com/hs/lab3/groupeventservice/service/RecommendationService.java:65-68 | the booked event is CONFIRMED with date, start and end set to the given values; id, name, description, owner and participants are unchanged |
| Recommendation.RebookingLastWriteWins | group-event-service/src/main/java/com/hs/lab3/groupeventservice/service/RecommendationService.java:60-73 | booking an event twice leaves the second slot (last write wins) |
| Recommendation.RecommendationService.BookSlot | group-event-service/src/main/java/com/hs/lab3/groupeventservice/service/RecommendationService.java:59-74 | an unknown id raises EventNotFound and saves nothing; otherwise only that row is replaced by its booked version, and the pending/confirmed slot invariant is kept |
| Jwt.AfterLogout | auth-service/src/main/java/com/hs/lab3/authservice/service/AuthService.java:60-71 | after logout the token is no longer accepted; only its subject's entry can disappear; nothing changes when the token is not the stored valid one |
| Jwt.LogoutIdempotent | auth-service/src/main/java/com/hs/lab3/authservice/service/AuthService.java:60-71 | logging out twice with one token is the same as once |
| Jwt.StoredTokenIsTheOnlyOneAccepted | auth-service/src/main/java/com/hs/lab3/authservice/service/AuthService.java:31-96 | storing a valid token for its login makes it the only token accepted for that login, leaving other logins as they were |
| Jwt.RotationRevokesPresentedToken | auth-service/src/main/java/com/hs/lab3/authservice/service/AuthService.java:87-101 | once refresh stores a new token, the presented one is no longer accepted |
| AuthUsers.WithRole | auth-service/src/main/java/com/hs/lab3/authservice/service/AuthUserService.java:28-31 | the new role set is the old one plus the role, and no other field changes |
| AuthUsers.WithRoleKeepsExistingRoles | auth-service/src/main/java/com/hs/lab3/authservice/service/AuthUserService.java:29 | adding a role keeps every role held before and adds only that one |
| AuthUsers.WithRoleIdempotent | auth-service/src/main/java/com/hs/lab3/authservice/service/AuthUserService.java:29 | adding a role already held leaves the user unchanged |
| AuthUsers.AuthUserService.GetByLogin | auth-service/src/main/java/com/hs/lab3/authservice/service/AuthUserService.java:16-18 | empty iff no stored user has the login; otherwise a stored user with that login |
| AuthUsers.AuthUserService.CheckExistedUser | auth-service/src/main/java/com/hs/lab3/authservice/service/AuthUserService.java:20-22 | true iff some stored user has the login or some stored user has the e-mail |
| AuthUsers.AuthUserService.SaveNewUser | auth-service/src/main/java/com/hs/lab3/authservice/service/AuthUserService.java:24-26 | the user is stored under its login, and the lookup by that login then returns it |
| AuthUsers.AuthUserService.AddNewRole | auth-service/src/main/java/com/hs/lab3/authservice/service/AuthUserService.java:28-31 | the saved user is the given one with the role added; the lookup returns it |
| AuthServiceTokens.AuthService.GetUser | auth-service/src/main/java/com/hs/lab3/authservice/service/AuthService.java:111-114 | AuthException "User was not found" iff no stored user has the login; otherwise the stored user with that login |
| AuthServiceTokens.AuthService.Login | auth-service/src/main/java/com/hs/lab3/authservice/service/AuthService.java:26-36 | unknown login or wrong password: AuthException and the store unchanged; otherwise the issued refresh token is stored under the login and both issued tokens are returned |
| AuthServiceTokens.AuthService.Register | auth-service/src/main/java/com/hs/lab3/authservice/service/AuthService.java:38-58 | existing login or e-mail: RegisterException, nothing saved, store unchanged; otherwise the user is saved with the encoded password and role set exactly {VIEWER}, and its refresh token is stored |
| AuthServiceTokens.AuthService.Logout | auth-service/src/main/java/com/hs/lab3/authservice/service/AuthService.java:60-71 | the store becomes AfterLogout of the old store; the response is always (null, null) |
| AuthServiceTokens.AuthService.GetAccessToken | auth-service/src/main/java/com/hs/lab3/authservice/service/AuthService.java:73-85 | never writes the store; an access token is returned iff the refresh token is valid, equals the stored one and its user exists; never a refresh token |
| AuthServiceTokens.AuthService.Refresh | auth-service/src/main/java/com/hs/lab3/authservice/service/AuthService.java:87-101 | succeeds iff the token is the stored valid one and its user exists, then replaces only that login's token with the new one; otherwise AuthException with the store unchanged |
| AuthServiceTokens.AuthService.AddRoleToUser | auth-service/src/main/java/com/hs/lab3/authservice/service/AuthService.java:102-105 | unknown login: AuthException, users unchanged; otherwise that user's roles gain the role |
| UserServiceTokens.AuthService.GetUser | user-service/src/main/java/com/hs/lab3/userservice/service/AuthService.java:114-117 | UserNotFoundException iff no stored user has the login; otherwise the stored user with that login |
| UserServiceTokens.AuthService.Login | user-service/src/main/java/com/hs/lab3/userservice/service/AuthService.java:29-39 | unknown login: UserNotFoundException; wrong password: WrongCredentialsException; both leave the store unchanged; otherwise the issued refresh token is stored and returned |
| UserServiceTokens.AuthService.Register | user-service/src/main/java/com/hs/lab3/userservice/service/AuthService.java:41-61 | existing login or e-mail: WrongCredentialsException, nothing saved; otherwise the user is saved with role set exactly {USER} and its refresh token is stored |
| UserServiceTokens.AuthService.Logout | user-service/src/main/java/com/hs/lab3/userservice/service/AuthService.java:63-74 | the entry is removed only on an exact match with a valid token; the response is always (null, null) |
| UserServiceTokens.AuthService.GetAccessToken | user-service/src/main/java/com/hs/lab3/userservice/service/AuthService.java:76-88 | never writes the store; an access token is returned iff the refresh token is the stored valid one and its user exists |
| UserServiceTokens.AuthService.Refresh | user-service/src/main/java/com/hs/lab3/userservice/service/AuthService.java:90-104 | rotates the stored token for that login only, on a match; otherwise JWTNotValidException with the store unchanged |
| UserServiceTokens.AuthService.AddRoleToUser | user-service/src/main/java/com/hs/lab3/userservice/service/AuthService.java:105-108 | unknown login: UserNotFoundException; otherwise that user's roles gain the role |
| BearerAuth.BearerHeader | group-event-service/src/main/java/com/hs/lab3/groupeventservice/client/FeignConfig.java:14 | the header starts with the prefix "Bearer " and the rest of it is exactly the token |
| BearerAuth.GetTokenFromRequest | user-service/src/main/java/com/hs/lab3/userservice/jwt/JwtFilter.java:39-49 | a token iff the header is present and starts with the exact case-sensitive "Bearer "; the token is then everything after those 7 characters; a missing or blank header gives null |
| BearerAuth.BearerRoundTrip | user-service/src/main/java/com/hs/lab3/userservice/jwt/JwtFilter.java:44-45 | parsing the Feign header built for any token returns that token |
| BearerAuth.BearerHeaderDeterminedByToken | user-service/src/main/java/com/hs/lab3/userservice/jwt/JwtFilter.java:44-46 | a header yields a token only if it is exactly the Feign header for that token |
| BearerAuth.Filter | user-service/src/main/java/com/hs/lab3/userservice/jwt/JwtFilter.java:21-37 | an authentication is attached iff a token was extracted and validates as an access token, and it is marked authenticated and carries that token's claims; otherwise the request passes through |
| BearerAuth.ServiceCallAuthentication | user-service/src/main/java/com/hs/lab3/userservice/jwt/JwtFilter.java:24-36 | a call carrying the Feign header is authenticated iff its token is a valid access token |
| UserDirectory.LowerIdempotent | user-service/src/main/java/com/hs/lab3/userservice/service/UserService.java:65 | case folding applied twice equals folding once |
| UserDirectory.UserService.ExistsByUsername | user-service/src/main/java/com/hs/lab3/userservice/service/UserService.java:26 | true iff some stored user has the username |
| UserDirectory.UserService.AddUser | user-service/src/main/java/com/hs/lab3/userservice/service/UserService.java:24-37 | a taken username raises UserAlreadyExists with the store unchanged; otherwise exactly one new user with the given username, name and surname under a fresh id, which getUserByUsername then returns; usernames stay unique |
| UserDirectory.UserService.GetUserById | user-service/src/main/java/com/hs/lab3/userservice/service/UserService.java:39-44 | the user with that id, or UserNotFound iff absent |
| UserDirectory.UserService.GetUserByUsername | user-service/src/main/java/com/hs/lab3/userservice/service/UserService.java:46-51 | the stored user with that username, or UserNotFound iff none has it |
| UserDirectory.UserService.DeleteUserById | user-service/src/main/java/com/hs/lab3/userservice/service/UserService.java:53-61 | an absent id raises UserNotFound with no change; otherwise exactly that id is removed; afterwards a lookup of the id raises UserNotFound |
| UserDirectory.UserService.SearchByUsername | user-service/src/main/java/com/hs/lab3/userservice/service/UserService.java:63-68 | exactly the stored users whose username contains the query, ignoring case |
| UserDirectory.UserService.SearchIgnoresQueryCase | user-service/src/main/java/com/hs/lab3/userservice/service/UserService.java:63-68 | searching for a query and for its lower-case form gives the same users |
| UserDirectory.UserService.EmptyQueryFindsEveryone | user-service/src/main/java/com/hs/lab3/userservice/service/UserService.java:63-68 | the empty query matches every stored user |

## Left out

- The free-slot calculator (`util/SlotCalculator`) is not part of this model. It is a function
  argument, and the recommendation properties are stated relative to its output.
- `GroupEventLoader` is not part of this model. The participant ids are read from the same
  repository, and an unknown event is `EventNotFound`.
- Circuit-breaker internals are left out: the closed/open/half-open states, failure counting and
  thresholds belong to the library and its configuration. Each remote call is given as its outcome.
- GroupEventCreation.GetUserByIdWithCircuitBreaker: the method is only ever called from inside
  `GroupEventService` (`addGroupEvent` calls it directly and through `this::` for the owner and
  the participants), and Spring's proxy-based aspects do not intercept a call an object makes on
  itself. As written, the breaker and `userFallback` therefore never run and `BreakerOpen` does
  not occur; the model assumes the `@CircuitBreaker` annotation applies anyway.
- GroupEventCreation.GetUserByIdWithCircuitBreaker: follows the error translation written in the
  method. With the library's default settings the annotated fallback may also receive the
  translated `UserNotFound`/status errors and replace them with `UserServiceUnavailable`. That
  depends on configuration that is not available, so the model does not capture it.
- Recommendation.FetchBusyIntervals: the method is only ever called from inside
  `RecommendationService` (by `recommendSlots`), which Spring's proxy-based aspects do not
  intercept. As written, the breaker and `fetchBusyIntervalsFallback` never run, and an event
  service failure reaches the caller as the raw client error rather than
  `EventServiceUnavailable`; the model assumes the `@CircuitBreaker` annotation applies anyway.
- Recommendation.FetchBusyIntervals: the fallback's declared parameters (`LocalDate` dates) differ
  from the guarded method's (`String` dates). The model assumes the fallback is found and applies.
- The reactive scheduling (`subscribeOn`, concurrent `flatMap`) is modelled sequentially. The contract
  of `ResolveAll` only says the error is that of some failing participant, since with concurrent
  lookups whichever fails first wins; its sequential body takes the first failure in list order.
- Concurrency between requests is left out: the unsynchronised `HashMap` refresh stores, and racing
  bookings beyond "last write wins".
- JWT signing, validation and claim parsing, and password hashing and matching, are left abstract.
  `JwtUtils.generate` is not part of this model; an authentication is represented by the claims it
  is built from.
- `AuthRepository` is a login-keyed map. A direct `saveNewUser` of an already-taken login overwrites
  in the model, where the database would add a second row; the only caller, `register`, checks first.
- The user-service `AuthUserService`, its repository and its `Role` enum are not part of this
  model. The user-service `AuthService` uses the same generic store as the auth-service, and roles
  other than `USER` are carried by name.
- The `User` entity's link between the `AuthService` view (login, password, e-mail, roles) and the
  `UserService` view (id, username, name, surname) is not modelled.
- UserDirectory.UserService.SearchByUsername: case folding covers ASCII letters only, not
  Unicode case mapping. Pagination (`Pageable`, `Page`) is left out: the result is the set of all
  matches.
- Listing all group events (`getAllGroupEvents`) and listing all users (`getAllUsers`) are
  pass-through reads and are left out.
- `getAuthInfo` is left out; it reads the framework's security context.
- Exception messages are kept only where the text is a constant or a login. Messages that print
  numeric ids or HTTP status text are replaced by the id or status itself.
- `@Transactional` and JPA semantics are left out beyond "saved or not saved".
