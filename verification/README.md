# Token authentication and role gate, modelled in Dafny

This project models the two Express middlewares of `src/middleware/auth.middleware.js`:

- `authenticateToken` takes the bearer token out of the `Authorization` header. It has the JWT
  library verify the token and loads the token's user. Then it either continues with that user on
  `req.user`, or answers with one of five fixed `{error, message}` bodies.
- `requireRole(allowedRoles)` lets a request continue only when `req.user` is present and its
  role is on the allow-list. Otherwise it answers 401 or 403. The 403 message lists the allowed
  roles.

The Express objects are replaced by values:

- the request by `Context(user)`;
- `next()` and `res.status(..).json(..)` by `Outcome = Next(ctx) | Halt(Response(status, error, message))`;
- `jwt.verify` by a function parameter `string -> VerifyResult`;
- `getUserById` by a function parameter `Option<UserId> -> LookupResult`.

A thrown error is `JsError(name, message)`. Because the collaborators are parameters, "the
verifier is never called" is stated as "the result is the same whatever verifier is passed".

Modules:

- `Optional` (`optional.dfy`): `Option`, which stands for JavaScript's `undefined`.
- `Text` (`text.dfy`): `String.prototype.split` with a one-character separator and
  `Array.prototype.join`. It proves that split and join undo each other, and that every joined
  element occurs in the joined string.
- `AuthMiddleware` (`auth_middleware.dfy`): the data model, token extraction, error
  classification, `Authenticate` and `RequireRole`.
- `AuthProperties` (`auth_properties.dfy`): the exact shape of the token, the cases that count as
  a missing token, independence from the collaborators, and the content of the denial message.
- `Pipeline` (`pipeline.dfy`): a protected route, meaning authentication followed by the role gate.
- `TaggedDesign` (`tagged_design.dfy`): a reference design that switches on tagged failures
  instead of error names and messages. It proves a sufficient condition under which the
  middleware's string matching agrees with that design.

The model follows the code on these points:

- The header is split on every single space character, not on runs of whitespace. So
  `"Bearer  tok"` yields the empty token and is answered 401. The scheme word is never checked, so
  `"Basic xyz"` yields `"xyz"`.
- An empty header is falsy. `authHeader && ...` then yields the empty string, which also counts as
  missing.
- `allowedRoles` is a list and may be empty. An empty list denies every user, with the message
  `"Access restricted to: "` (`AuthMiddleware.RequireRole`).
- The middleware recognises a missing user only by the error message `'User not found'`
  (line 41). It tests the error's name first, whichever collaborator threw it.
  `TaggedDesign.StringMatchingMeetsDesign` gives a sufficient condition under which this matches a
  tagged design. `TaggedDesign.LookupErrorNamedLikeJwt` gives an error on which the two differ.

## Model

| member | source | states |
|---|---|---|
| AuthMiddleware.RawToken | src/middleware/auth.middleware.js:7-8 | no header gives undefined; an empty header passes through as ""; otherwise a token exists exactly when the header holds a space, and the token never holds a space |
| AuthMiddleware.ClassifyError | src/middleware/auth.middleware.js:24-51 | name JsonWebTokenError gives 403 invalid token and name TokenExpiredError gives 403 expired, whatever the message; 'User not found' gives the stale-user 403 only when neither name matched; everything else is the fixed 500 body |
| AuthMiddleware.Present | src/middleware/auth.middleware.js:10 | `!token` holds exactly when the token is undefined or the empty string |
| AuthMiddleware.Authenticate | src/middleware/auth.middleware.js:5-53 | a missing token gives 401 "Access token is missing" and is the only 401; the request continues exactly when the token is present, verifies and its user is found, with exactly that user attached; an error thrown by the verifier or by the lookup is answered with that error's classification; every answer is 401, 403 or the fixed 500 body |
| AuthMiddleware.DenialMessage | src/middleware/auth.middleware.js:76 | the denial message starts with "Access restricted to: "; an empty list gives exactly that prefix, one role gives the prefix followed by that role, and two or more roles give the prefix, the first role and ", " |
| AuthMiddleware.RequireRole | src/middleware/auth.middleware.js:55-82 | no user gives 401 "User must be authenticated" whatever the list; a user continues iff the list holds their role; the request passes on unchanged; a denial is 403 "Access denied" with the denial message of the whole list, and for an empty list that message is exactly "Access restricted to: " |
| Text.Join | src/middleware/auth.middleware.js:76 | `join` of the empty list is "" and of a one-element list is that element |
| Text.Split | src/middleware/auth.middleware.js:8 | `split(' ')` returns at least one field, more than one exactly when the separator occurs, no field holds the separator, and joining the fields with it gives the string back |
| Text.SplitJoin | src/middleware/auth.middleware.js:8 | splitting a joined list gives the list back when no element holds the separator |
| Text.FirstField | src/middleware/auth.middleware.js:8 | the first field of a split is everything up to the first separator |
| Text.JoinContainsEach | src/middleware/auth.middleware.js:76 | every element of a joined list occurs in the joined string |
| Text.JoinLongSeparator | src/middleware/auth.middleware.js:76 | joining with ", " is joining with "," after a space is put in front of every element but the first |
| AuthProperties.TokenIsSecondField | src/middleware/auth.middleware.js:7-8 | for any space-free scheme and token, followed by nothing or by a space and anything, the token extracted is exactly the text between the first and second space |
| AuthProperties.SchemeIgnored | src/middleware/auth.middleware.js:8 | two headers that differ only in their first field give the same token |
| AuthProperties.OtherSchemeAccepted | src/middleware/auth.middleware.js:8 | "Basic xyz" yields the token "xyz" |
| AuthProperties.ExtraFieldsDropped | src/middleware/auth.middleware.js:8 | "Bearer a b" yields the token "a" |
| AuthProperties.EmptyTokens | src/middleware/auth.middleware.js:8-10 | "Bearer " and "Bearer  tok" both yield the empty token |
| AuthProperties.EmptySecondFieldIsMissing | src/middleware/auth.middleware.js:7-15 | a header whose second field is empty is answered with the missing-token 401, whatever the verifier and lookup do |
| AuthProperties.MissingTokenConsultsNothing | src/middleware/auth.middleware.js:10-17 | without a present token the answer is the missing-token 401 and does not depend on the verifier or the lookup |
| AuthProperties.RejectedTokenSkipsLookup | src/middleware/auth.middleware.js:17-32 | when verification throws, the answer is that error's classification and does not depend on the lookup |
| AuthProperties.LookupErrorClassified | src/middleware/auth.middleware.js:20-51 | an error thrown by the lookup after a successful verification is answered exactly as if the verifier had thrown it: both go through the one catch block |
| AuthProperties.ErrorMessageNotLeaked | src/middleware/auth.middleware.js:41-51 | two errors with the same name and messages other than 'User not found' get the same response |
| AuthProperties.DenialNamesEveryRole | src/middleware/auth.middleware.js:74-77 | every allowed role occurs in the denial message |
| AuthProperties.DenialMessageParses | src/middleware/auth.middleware.js:76 | after the "Access restricted to: " prefix, splitting the denial message on ',' gives back the allowed roles, each after the first preceded by a space, when no role holds a comma |
| AuthProperties.RoleGateExamples | src/middleware/auth.middleware.js:64-80 | role "user" against ["admin"] is a 403 naming "admin"; against ["admin", "user"] it continues with the request unchanged |
| Pipeline.ResolvedUser | src/middleware/auth.middleware.js:17-23 | a user is resolved for a header exactly when authentication continues, and it is the user authentication attaches |
| Pipeline.Protect | src/middleware/auth.middleware.js:5-82 | authentication then the role gate: the handler runs iff the token resolves to a user whose role is allowed, and it then sees that looked-up user; an authentication failure is answered with authentication's own response, and a denial with 403 "Access denied" and the denial message of the whole list; the gate's own 401 can never be returned, given that a lookup which does not throw yields a user |
| TaggedDesign.Recognise | src/middleware/auth.middleware.js:10-51 | a response is read back as a failure exactly when it is one of the five authentication bodies |
| TaggedDesign.Render | src/middleware/auth.middleware.js:10-51 | each failure kind has its own response, recovered by reading it back; 401 only for a missing credential and 500 only for an internal fault |
| TaggedDesign.Decide | src/middleware/auth.middleware.js:5-53 | the tagged design answers only with recognisable failure bodies, and when it continues it changes nothing but the attached user |
| TaggedDesign.TagVerify | src/middleware/auth.middleware.js:27-39 | a verifier result is tagged as claims exactly when verification succeeded, keeping the claims; a thrown error is a generic fault exactly when its name is neither JWT name; the tag's rendered failure equals the middleware's classification of the error, unless a generic fault says 'User not found' |
| TaggedDesign.TagLookup | src/middleware/auth.middleware.js:41-46 | a lookup result is tagged as resolved exactly when a user was found, keeping the user; a thrown error is tagged not-found exactly when its message is 'User not found'; for an error without a JWT name the tag's rendered failure equals the middleware's classification |
| TaggedDesign.StringMatchingMeetsDesign | src/middleware/auth.middleware.js:24-51 | a sufficient condition: when no verifier error outside the JWT names says 'User not found', and no lookup error has a JWT name, the middleware answers exactly as the tagged design does |
| TaggedDesign.LookupErrorNamedLikeJwt | src/middleware/auth.middleware.js:34-46 | a lookup error named TokenExpiredError with message 'User not found' is answered "Token expired" by the middleware, while the tagged design reports a stale user |

## Left out

- Logging: `logger.error` (line 25) and `logger.warn` (lines 65-72) only write to the log, and no decision depends on them.
- The JWT library's internals: signature checking, expiry, the token format and the secret from `process.env.JWT_SECRET`. `jwt.verify` is an arbitrary function from the token to a payload or a thrown error.
- The user service and database: `getUserById` is an arbitrary function from `decoded.id` to a user or a thrown error. Its source is not part of this model. A lookup that resolves to `null` instead of throwing is not modelled.
- Express plumbing: header-name lower-casing, repeated headers, `async`/`await` scheduling, and an exception thrown by `next()` inside the `try` block. Values thrown that are not `Error` objects are also left out.
- JavaScript dynamic typing: a header, role or allow-list element that is not a string.
- Pipeline.Protect: the promise that the role gate's 401 never reaches the client relies on every non-throwing lookup yielding a user; a `getUserById` that resolves to `null` or `undefined` would make line 22 attach no user, and the gate would then answer 401, which this model does not represent.
- Idempotence across two requests: the model is a pure function of its inputs. Two calls with the same header and the same lookup therefore give the same user.
