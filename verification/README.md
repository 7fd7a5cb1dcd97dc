# A chat server and its tokens, in Dafny

The repository is a WebSocket chat server whose clients must present a JSON Web Token. This project
models four parts of it and proves what they promise.

* **The chat** (`Chat`, `ChatSafety`, `ChatStreams`, `ChatRuns`, `ChatEndings`,
  `ChatDrain`, `ChatLog`, `ChatServer`, `Gatekeeping`). One event loop runs the completion handlers of any number of sessions. Each session has
  an outgoing queue with at most one write in flight; all share a registry from connection ids to sessions;
  a session is destroyed when its last handler ends, and its destructor tells the others. `Chat` says what
  each handler does as a function on values; the laws about runs are proved of those functions; and the
  classes of `ChatServer`, which update their fields in place as the C++ classes do, are proved to compute
  exactly those functions, method by method.
* **The base64 codec** (`Base64`, `Base64Laws`) of RFC 4648, sections 4 and 5: its loops are proved against
  the functions `Encoded` and `Decoded`; the functions, against the number that the octets write and
  against a grammar of encoded strings.
* **The tokens** (`UrlDecoding`, `Claims`, `Algorithms`, `Tokens`, `TokenLaws`, `Verification`,
  `VerificationLaws`, `Admission`) of RFC 7519 and of section 3.1 of RFC 7515: building, signing, carrying
  in a URL, splitting, decoding and verifying, up to the decision of `websocket_session::run`.
* **Three smaller pieces**: the names of static files (`StaticFiles`), the fixed-width ECDSA signature of
  section 3.4 of RFC 7518 (`Ecdsa`), and the reference counts of key handles (`KeyCounts`, `PkeyHandles`).

## How the model is set up

* A C++ `char` is an `octet`, a Dafny character below 256, and a `std::string` a sequence of them. Unsigned
  shifts and masks are divisions and remainders; no value in the codec reaches 2^24, so none wraps, and its
  one bitwise OR joins numbers that share no bit, so it is a sum.
* Times are nanoseconds, as `system_clock` counts them. The clock, the draws of the random generator, HMAC,
  the other signature primitives, and the JSON printer and parser are parameters. Of the printer and parser
  only one law is ever assumed, and only for the two maps of the token in question: `Restores`, that a printed
  value parses back to itself.
* The iteration order of an `unordered_map` is a parameter too, so what is proved holds for every order.
* Sessions and handles are named by numbers that are never used twice; ids are not: an accepted session
  may be given an id that another has, since the generator is seeded with the second.
* A handler and the release of its reference are one turn. The event that ends an operation says whether it
  succeeded. A session that was refused has two operations outstanding, the close and the answer, and nothing else.
* The ghost fields of `WebsocketSession` and `SharedState` record what was queued, delivered and broadcast.

## Where the code and its promise differ

Six promises do not hold of all inputs. The code is kept; for each, an input that fails is given and the
condition is proved exact.

* The registry is not always the set of live accepted sessions. It is, at every state of a run, if and only
  if no session is given the id of a live accepted one (`RegistryIsCompleteUnlessIdsCollide`). `RepeatedId` is a
  run in which the surviving session hears nothing more, because the destructor of another with the same id
  erased its entry.
* `is_subset_claim` does not treat a single audience as a set of one when nothing is expected: it then refuses
  where every set has the empty subset (`AudienceCheck`, and `EmptyExpectationIsRefused` for such a token).
* With an empty document root the target is opened from the top of the file system, so legal targets stay at
  or below the root exactly if it is not empty or the server works in the top directory
  (`ContainedExactlyWhen`, and `EmptyRootIsNotContained` for the target).
* Assigning a raw key to the handle that holds the only reference to it frees the key before using it
  (`RawAssignment`, and `FreedBeforeUse` for the run). The other assignments check for themselves and have
  no such case.
* A string that `decode` accepts need not be what `encode` writes: it is exactly when the unused bits of its
  last letter are zero (`Canonical`; `NotCanonical` and `NotCanonicalExample` give strings that are not).
* A fixed-width signature of the wrong length is not refused, as section 3.4 of RFC 7518 asks: it is cut in the
  middle whatever its length, and joining its halves again restores it exactly if the length was right
  (`HalvesRoundTrip`, and `LengthIsNotChecked` for a longer signature that is read as the same pair).

One restriction on clients is stated nowhere in the repository: the token must be the last thing in the target.
`run` takes everything after the mark, so a further parameter makes it refuse any token
(`FurtherParameterIsRefused`).

The comment on `as_date` (include/jwt-cpp/jwt.h:2355) says that a decimal is rounded up; the code rounds to the
nearest second, halves away from zero, and the model follows the code.

## Model

| member | source | states |
|---|---|---|
| ChatServer.WebsocketSession.constructor | websocket_session.cpp:3-9 | A new session has empty buffers, no id and nothing outstanding |
| ChatServer.WebsocketSession.Send | websocket_session.cpp:79-97 | `send` appends to the queue and starts a write of the front only if the queue was empty: the machine's `Push` |
| ChatServer.WebsocketSession.GenerateRandomString | websocket_session.cpp:126-143 | The loop writes, for each draw, that character of the 62 of the table |
| ChatServer.RandomText | websocket_session.cpp:126-143 | The id has the length asked for, and each character is the table's at the number drawn |
| ChatServer.CharsetIs | websocket_session.cpp:129-130 | The table is the ten digits, the capitals and the small letters, in that order |
| ChatServer.WebsocketSession.Run | websocket_session.hpp:59-88 | `run` starts the handshake exactly if the token decision is a pass; otherwise it starts the close and the answer |
| ChatServer.WebsocketSession.OnAccept | websocket_session.cpp:28-46 | `on_accept` changes the whole server as the machine's `OnAccept` says: id, registry entry, welcome, first read |
| ChatServer.WebsocketSession.OnRead | websocket_session.cpp:56-77 | `on_read` broadcasts what the buffer holds to everyone registered, empties it and reads again; an error does nothing |
| ChatServer.WebsocketSession.OnWrite | websocket_session.cpp:105-124 | `on_write` drops the front and starts the next write; an error keeps the queue and starts nothing; no other session changes |
| ChatServer.WebsocketSession.OnClosed | websocket_session.cpp:48-54 | A handler of a refused session ends, and nothing else changes |
| ChatServer.WebsocketSession.Release | websocket_session.cpp:10-15 | When the last reference goes the session is destroyed: its id is erased, then the notice broadcast |
| ChatServer.SharedState.Get | shared_state.cpp:64-69 | The session registered under an id, or null exactly if there is none |
| ChatServer.SharedState.Send | shared_state.cpp:39-48 | One message to the session with the id; nothing if there is none |
| ChatServer.SharedState.Connect | shared_state.cpp:19-24 | The id now names this session, whoever had it before, and the welcome is queued |
| ChatServer.SharedState.SendToAll | shared_state.cpp:50-62 | In whatever order the map is walked, each registered session is sent the message exactly once |
| ChatServer.SharedState.Broadcast | shared_state.cpp:50-62 | Every registered session is queued the message, no other session changes, and the log grows by it |
| ChatServer.SharedState.Disconnect | shared_state.cpp:26-37 | For a non-empty id the entry is erased and everyone left is told; for the empty id nothing happens |
| ChatServer.Upgrade | http_session.cpp:281-289 | An upgrade request is one step of the machine, opening a session on the decision made about its target, and keeps the invariant |
| ChatServer.Dispatch | websocket_session.cpp:28-124 | Running a handler on the classes is exactly one step of the machine, keeps the invariant, and never erases from an empty queue |
| ChatServer.SharedState.OneEntryEach | shared_state.cpp:19-24 | No session is in the registry twice |
| ChatSafety.WrittenKeeps | websocket_session.cpp:105-124 | A completed write, failed or not, keeps the queue invariant |
| ChatSafety.PushKeeps | websocket_session.cpp:79-97 | So does a send |
| ChatSafety.DyingIsUnregistered | websocket_session.cpp:10-15 | Once its id is erased a dying session has no entry left, so its own notice cannot reach it |
| ChatSafety.HandleKeeps | websocket_session.cpp:28-124 | Every handler keeps the queue, lifetime and registry invariants while its reference is held |
| ChatSafety.ReapKeeps | websocket_session.cpp:10-15 | Destruction restores them for all sessions |
| ChatSafety.StepKeeps | websocket_session.cpp:28-124 | Every turn keeps: one read and one write outstanding at most; the buffer in flight is the front; the queue is non-empty exactly if a write is in flight or has failed; alive exactly while a handler is pending; every entry points to a live session with that id |
| ChatStreams.AcceptFollows | websocket_session.cpp:28-46 | An accept queues the welcome to the new session only and takes the entry of at most the one with its id |
| ChatStreams.StepFollows | shared_state.cpp:50-62 | Over one turn a registered session's stream grows by exactly the broadcasts logged in it, and any other accepted session's by nothing |
| ChatRuns.Safety | websocket_session.cpp:28-124 | All of this holds at every state of every run, with repeated ids too, and no completion that can arrive finds an empty queue |
| ChatRuns.Extends | websocket_session.cpp:28-124 | No reachable state is stuck: each completion that can arrive can be handled |
| ChatRuns.StreamIsAWindow | shared_state.cpp:19-62 | What a session was queued is "you connected as :" and its id of 16 characters, then every broadcast from its acceptance to the last state at which it was registered: contiguous, no gap, no repeat, no reordering |
| ChatEndings.WindowCloses | shared_state.cpp:19-37 | The window closes in exactly the turns in which another session takes the id or a session with the id is destroyed |
| ChatEndings.DestroyedExactlyWhen | websocket_session.cpp:56-124 | An accepted session is destroyed in exactly the turn of a failed read, failed write or final write that was its last handler |
| ChatEndings.FailedAcceptEnds | websocket_session.cpp:28-33 | A handshake that fails destroys its session, and changes nothing else: nobody is told |
| ChatEndings.FailedReadIsLast | websocket_session.cpp:56-61 | After a failed read nothing more is read; what was read is dropped, and what is queued goes on being written |
| ChatEndings.RefusedIsSilent | websocket_session.cpp:169-194 | In every run, all that ever happens to a refused session is that its close and its answer end; it is destroyed with the second, is told nothing and is not told of |
| ChatEndings.SendReaches | shared_state.cpp:39-48 | A message for an id is queued to exactly the session registered under it, and nothing else changes |
| ChatEndings.RepeatedId | shared_state.cpp:19-37 | A run in which a repeated id leaves a live accepted session without an entry and the registry empty |
| ChatRuns.AcceptedOnce | websocket_session.cpp:28-46 | Every accepted session was accepted in some turn with the id it has, so the stream law covers it |
| ChatRuns.DeliveredIsAPrefix | websocket_session.cpp:79-124 | What was delivered is a prefix of what was queued; a session destroyed with no failed write was delivered everything |
| ChatRuns.EndsAreFinal | websocket_session.cpp:105-124 | Delivery only grows, stops for good at a failed write, and nothing of a destroyed session ever changes |
| ChatDrain.WriteTurn | websocket_session.cpp:105-124 | Without a failed write a waiting queue can always be written, and one success takes exactly its front |
| ChatDrain.Drains | websocket_session.cpp:79-124 | From every reachable state as many successful writes as the queue is long deliver everything the session was ever queued |
| ChatRuns.DeliveredIsLogged | shared_state.cpp:50-62 | Each delivered message is the broadcast that its place in the stream says: a relayed text as it is, a notice as "a client disconnected :" and the id |
| ChatRuns.WelcomeComesFirst | shared_state.cpp:19-24 | The first message a client gets is "you connected as :" and its id |
| ChatRuns.SameOrderForAll | shared_state.cpp:50-62 | Any two clients that got two broadcasts got the same two texts in the same order, the order they were made in |
| ChatRuns.Conservation | websocket_session.cpp:10-46 | Disconnect notices plus live accepted sessions equal accepts, at every state |
| ChatLog.StepLogs | shared_state.cpp:26-62 | A turn broadcasts what was read, or the notice of the session it destroys, or nothing; never two things |
| ChatLog.LoggedBy | websocket_session.cpp:10-77 | Every entry of the log was broadcast in one turn: a message, by the session that had just read exactly it; a notice, by the destructor of a live accepted session with that id whose last handler ran |
| ChatLog.DeliveredWasRead | websocket_session.cpp:56-77 | Whatever a client gets after its welcome is, as it is, what was read from a session in one turn, or tells that a session with that id was destroyed in it |
| ChatRuns.CollisionIsIncomplete | shared_state.cpp:19-24 | Giving out the id of a live session leaves the registry incomplete at once |
| ChatRuns.RegistryIsCompleteUnlessIdsCollide | shared_state.cpp:19-37 | The registry is the set of live accepted sessions throughout a run if and only if no id is given out twice while in use |
| Gatekeeping.AdmittedWasAuthorized | websocket_session.hpp:70-87 | In every run, a session that is accepted or being accepted was opened with a passing decision |
| Gatekeeping.RegisteredHasToken | websocket_session.hpp:59-88 | In every run, whoever a broadcast can reach presented a token signed with the secret, for this issuer and audience, in time |
| Gatekeeping.RelayedHadToken | websocket_session.hpp:59-88 | In every run, every message ever broadcast was read from a session that presented such a token |
| Gatekeeping.DeliveredHadToken | websocket_session.hpp:59-88 | In every run, whatever a client is delivered after its welcome was caused by a session that presented such a token |
| Base64.Index | include/jwt-cpp/base.h:92-97 | The first position of the symbol, none exactly if it is not in the alphabet |
| Base64.MatchingFill | include/jwt-cpp/base.h:120-131 | A fill of the list that ends the string, none exactly if none does |
| Base64.CountPadding | include/jwt-cpp/base.h:120-131 | It terminates, counts nothing exactly if no fill ends the string, and never more than the string holds |
| Base64.EncodeGroups | include/jwt-cpp/base.h:139-151 | The loop writes the letters of the whole groups of three |
| Base64.Encode | include/jwt-cpp/base.h:133-180 | The result is the letters of the sextets and then the fills |
| Base64.DecodeGroups | include/jwt-cpp/base.h:194-209 | The loop decodes the whole groups of four, or stops at a character outside the alphabet, reading in bounds |
| Base64.DecodeRest | include/jwt-cpp/base.h:211-226 | The last two or three letters give one or two bytes |
| Base64.Decode | include/jwt-cpp/base.h:182-226 | Both errors of the length checks, the alphabet error, or the bytes of all the letters |
| Base64.Pad | include/jwt-cpp/base.h:233-243 | The fall-through switch appends as many fills as complete a group of four |
| Base64Laws.Tables | include/jwt-cpp/base.h:33-88 | Each table has 64 distinct characters, its fills have one length, and each starts outside the table |
| Base64Laws.StandardFill | include/jwt-cpp/base.h:41-44 | "QQ==" decodes in the standard table |
| Base64Laws.UrlFill | include/jwt-cpp/base.h:64-67 | "QQ%3d%3d" decodes in base64url |
| Base64Laws.PercentFills | include/jwt-cpp/base.h:85-88 | With the helper's fills either case of each decodes, mixed too |
| Base64Laws.Regrouped | include/jwt-cpp/base.h:145-150 | The shifts and masks of `encode` cut three octets into four sextets without loss |
| Base64Laws.Ungrouped | include/jwt-cpp/base.h:203-208 | Those of `decode` cut four sextets into three octets without loss |
| Base64Laws.SextetsAreTheNumber | include/jwt-cpp/base.h:133-180 | The sextets are the base-64 digits of the number that the octets write in base 256, shifted by the zero bits added |
| Base64Laws.BytesOfSextets | include/jwt-cpp/base.h:133-226 | Decoding the sextets of a byte string gives it back |
| Base64Laws.CountPaddingCounts | include/jwt-cpp/base.h:120-131 | On letters followed by any mixture of fills, `count_padding` counts those fills and nothing of the letters |
| Base64Laws.DecodeDomain | include/jwt-cpp/base.h:182-226 | `decode` succeeds exactly on letters of the alphabet followed by at most two fills, in groups of four |
| Base64Laws.DecodeErrors | include/jwt-cpp/base.h:182-196 | Too much fill exactly for more than two fills, else a wrong size exactly if it makes no groups of four, else a stray character exactly if there is one |
| Base64Laws.EveryStringIsCut | include/jwt-cpp/base.h:120-131 | That law speaks of every string: each is fills after something that ends in none |
| Base64Laws.FillsAreCounted | include/jwt-cpp/base.h:120-131 | `count_padding` counts the fills of such a string, whatever comes before them |
| Base64Laws.DecodedValue | include/jwt-cpp/base.h:182-226 | The value of such a string is that of its letters, however it is cut |
| Base64Laws.EncodedShape | include/jwt-cpp/base.h:133-180 | An encoding is such a string |
| Base64Laws.DecodeEncode | include/jwt-cpp/base.h:133-226 | `decode(encode(b)) == b` for every byte string, every alphabet and fill |
| Base64Laws.TrimEncoded | include/jwt-cpp/base.h:245-248 | `trim` removes the fills of an encoding and nothing of its letters |
| Base64Laws.PadTrim | include/jwt-cpp/base.h:233-248 | `pad(trim(encode(b))) == encode(b)` |
| Base64Laws.UrlRoundTrip | include/jwt-cpp/base.h:55-68 | `decode(pad(trim(encode(b)))) == b` in base64url, whose text has letters only |
| Base64Laws.PadOneOver | include/jwt-cpp/base.h:182-243 | `decode(pad(s))` always fails with too much fill when the length is one over a multiple of four |
| Base64Laws.StrayFails | include/jwt-cpp/base.h:182-226 | A string with any character outside alphabet and fill never decodes |
| Base64Laws.SextetsOfBytes | include/jwt-cpp/base.h:133-226 | Encoding what sextets decode to gives them back with the unused bits cleared |
| Base64Laws.Canonical | include/jwt-cpp/base.h:133-226 | A decodable string is the encoding of its value exactly if the unused bits of its last letter are zero (RFC 4648, section 3.5) |
| Base64Laws.NotCanonical | include/jwt-cpp/base.h:133-226 | In every scheme there is a string that decodes but is not the encoding of its value |
| Base64Laws.NotCanonicalExample | include/jwt-cpp/base.h:133-226 | One such string of the standard alphabet: "QR==" |
| UrlDecoding.UrlDecode | websocket_session.cpp:145-167 | The loop computes the decoding, piece after piece |
| UrlDecoding.DecodeUndoesEncoding | websocket_session.cpp:145-167 | `url_decode` undoes every percent-encoding (RFC 3986, section 2.1) with '+' for a space, whatever was escaped and in either case |
| UrlDecoding.EveryStringHasAnEncoding | websocket_session.cpp:145-167 | That law speaks of every string: each is the decoding of its encodings, for any choice of case of every digit |
| UrlDecoding.HexDigits | websocket_session.cpp:151-154 | Each of "0123456789ABCDEF" and "0123456789abcdef" is a digit and worth its place |
| UrlDecoding.NoOtherDigits | websocket_session.cpp:151-154 | And no other character is one |
| UrlDecoding.BrokenEscapeStands | websocket_session.cpp:151-164 | A percent sign that two digits do not follow stands for itself, at the end too |
| UrlDecoding.NothingToDecode | websocket_session.cpp:145-167 | A string with neither '%' nor '+' is unchanged |
| UrlDecoding.StandsForItself | websocket_session.cpp:145-167 | Such a string is one of its own encodings |
| UrlDecoding.DecodesAround | websocket_session.cpp:145-167 | No escape, not even a broken one, reaches over a character that is neither a percent sign nor a digit; it stands for itself, and '+' for a space |
| Claims.AsSet | include/jwt-cpp/jwt.h:2378-2384 | The set of the strings of an array of strings; a bad cast for anything else |
| Claims.SetMembers | include/jwt-cpp/jwt.h:2378-2384 | Only an array of strings has a set, and a string is in it exactly if the array holds it |
| Claims.AudienceNames | include/jwt-cpp/jwt.h:2550-2555 | A string is in the audience exactly if "aud" is that string or an array that holds it; each way of having none has its own exception |
| Claims.RoundsToNearest | include/jwt-cpp/jwt.h:2360-2364 | A fraction goes to a nearest whole second, of two as near to the one farther from zero |
| Claims.DatesAre | include/jwt-cpp/jwt.h:2360-2364 | Exactly whole numbers and fractions are dates |
| Algorithms.Matches | include/jwt-cpp/jwt.h:1154-1157 | The accumulating comparison is equality, byte for byte and in length |
| Algorithms.VerifySignature | include/jwt-cpp/jwt.h:1149-1162 | HMAC passes exactly on the code of the data; "none", exactly on the empty signature |
| VerificationLaws.SignsWith | include/jwt-cpp/jwt.h:1089-1142 | What each algorithm signs with, the error when that fails, and the name it goes by |
| VerificationLaws.SignatureErrors | include/jwt-cpp/jwt.h:1104-1162 | HMAC: no error exactly for the code of the data, HMAC failure exactly if there is none, else an invalid signature; "none": exactly the empty signature |
| Tokens.EncodeUrl | include/jwt-cpp/jwt.h:3055-3057 | The encoder of `sign` writes base64url without its fill |
| Tokens.DecodeUrl | include/jwt-cpp/jwt.h:2711-2714 | The decoder of a token restores the fill and decodes |
| Tokens.Builder.constructor | include/jwt-cpp/jwt.h:2824-2828 | A new builder has no claims |
| Tokens.Builder.SetHeaderClaim | include/jwt-cpp/jwt.h:2835-2838 | One header claim is set, the others and the payload stay |
| Tokens.Builder.SetPayloadClaim | include/jwt-cpp/jwt.h:2856-2859 | One payload claim is set, the others and the header stay |
| Tokens.Builder.SignToken | include/jwt-cpp/jwt.h:3026-3040 | The compact form with "alg" filled in, or the error of the algorithm; the builder is unchanged |
| Tokens.Split | include/jwt-cpp/jwt.h:2727-2734 | Three parts that join to the token, the first two without a dot; none exactly if there are fewer than two dots |
| Tokens.DecodeToken | include/jwt-cpp/jwt.h:2727-2742 | The fields of a decoded token, or the first exception in the order of the constructor |
| TokenLaws.DecodedFields | include/jwt-cpp/jwt.h:2727-2742 | Whoever wrote the token: it is its three parts joined by dots, each decoded field is what its own part decodes to, and both claim maps are what the header and the payload parse to |
| TokenLaws.PartsExist | include/jwt-cpp/jwt.h:2728-2734 | A text has three parts exactly if it has two dots |
| TokenLaws.DecodeThrows | include/jwt-cpp/jwt.h:2728-2742 | Fewer than two dots are an invalid token; else the exception is that of the first part that does not decode, else of the first of two without claims |
| TokenLaws.Decodes | include/jwt-cpp/jwt.h:2727-2742 | And every text with three parts that decode, two of them to claims, is a token |
| TokenLaws.SplitJoined | include/jwt-cpp/jwt.h:2727-2734 | Splitting finds again the parts that were joined |
| TokenLaws.TokenIsUrlSafe | include/jwt-cpp/jwt.h:3026-3059 | A signed token has only base64url characters and exactly two dots, and `url_decode` leaves it alone |
| TokenLaws.TokenRoundTrip | include/jwt-cpp/jwt.h:2727-2742 | Decoding a signed token gives the payload, the caller's header claims with "alg" added only if it is absent, and the raw signature of exactly the text that `verify` recomputes |
| Verification.RunIsSubset | include/jwt-cpp/jwt.h:3179-3203 | The loop over the expected members finds whether they are a subset, in whatever order it visits them; each error as coded |
| Verification.RunCheck | include/jwt-cpp/jwt.h:3493-3497 | Calling a function object has the outcome that the laws speak of |
| Verification.Verifier.constructor | include/jwt-cpp/jwt.h:3306-3328 | Three default checks, no algorithm, no leeway |
| Verification.Verifier.Leeway | include/jwt-cpp/jwt.h:3335-3338 | Only the default leeway changes |
| Verification.Verifier.ExpiresAtLeeway | include/jwt-cpp/jwt.h:3345-3348 | Only the "exp" check changes: the claim is then required |
| Verification.Verifier.NotBeforeLeeway | include/jwt-cpp/jwt.h:3355-3358 | Only the "nbf" check changes |
| Verification.Verifier.IssuedAtLeeway | include/jwt-cpp/jwt.h:3365-3368 | Only the "iat" check changes |
| Verification.Verifier.WithClaim | include/jwt-cpp/jwt.h:3439-3442 | Only the check of that name changes |
| Verification.Verifier.WithIssuer | include/jwt-cpp/jwt.h:3391-3393 | "iss" must equal the given string |
| Verification.Verifier.WithAudience | include/jwt-cpp/jwt.h:3420-3424 | "aud" must include the given string |
| Verification.Verifier.AllowAlgorithm | include/jwt-cpp/jwt.h:3459-3463 | The algorithm is allowed under its own name |
| Verification.Verifier.Verify | include/jwt-cpp/jwt.h:3480-3498 | For a given iteration order: the exception or error of the algorithm and signature stage, else of the first check that does not pass, else a pass |
| VerificationLaws.RunAllDecides | include/jwt-cpp/jwt.h:3493-3497 | The loop passes exactly if every check does; otherwise it ends as some failing check did |
| VerificationLaws.OrderIndependence | include/jwt-cpp/jwt.h:3480-3498 | Whatever the order, a token is accepted exactly if its algorithm is allowed, its signature right and every check passes; a rejection is what a failing stage or check said |
| VerificationLaws.AnyFailureCanBeReported | include/jwt-cpp/jwt.h:3493-3497 | Any failing check is the answer in some order that lists every key once, so no more can be promised about which |
| VerificationLaws.HmacStage | include/jwt-cpp/jwt.h:1149-1162 | Whatever else is allowed, a token that names an allowed HMAC passes the first stage exactly if its signature equals the code of the signed text |
| VerificationLaws.StageErrors | include/jwt-cpp/jwt.h:3482-3490 | No "alg", a bad cast, a wrong algorithm or the error of the signature: which one, and when |
| VerificationLaws.StageNamesAlgorithm | include/jwt-cpp/jwt.h:3484-3490 | No token passes the first stage without naming an allowed algorithm |
| VerificationLaws.OwnTokenPasses | include/jwt-cpp/jwt.h:3026-3040 | A signed token passes a verifier that allows its algorithm alone, exactly if the builder's header did not name another |
| VerificationLaws.AcceptsOwnSignature | include/jwt-cpp/jwt.h:1089-1162 | "none" and every HMAC accept the signatures they make |
| VerificationLaws.AcceptanceWindow | include/jwt-cpp/jwt.h:3306-3368 | In every order, an otherwise good token is accepted exactly if its dates can be read and the time is within the later of "iat" and "nbf" less the leeway and "exp" plus the leeway, ends included; default checks leave the side of an absent claim open and round fractions, checks with their own leeway require an integer |
| VerificationLaws.EndOutcome | include/jwt-cpp/jwt.h:3145-3155 | The "exp" check: expired exactly after its end; missing, mistyped and unreadable claims each their own answer |
| VerificationLaws.StartOutcome | include/jwt-cpp/jwt.h:3162-3172 | The "iat" and "nbf" checks: too early exactly before their start, and the same answers otherwise |
| VerificationLaws.ConfiguringKeepsDates | include/jwt-cpp/jwt.h:3306-3368 | The window law speaks of every verifier made by the constructor, the leeway setters and checks under other names |
| VerificationLaws.WindowIsAnInterval | include/jwt-cpp/jwt.h:3480-3498 | The accepted times have no gap, whatever the claims, the checks and the orders, if each check of the caller's own has none |
| VerificationLaws.LeewayOnlyWidens | include/jwt-cpp/jwt.h:3335-3338 | A larger default leeway never rejects an accepted token, whatever the claims, the checks and the order, if each check of the caller's own is no stricter with more leeway |
| VerificationLaws.AudienceCheck | include/jwt-cpp/jwt.h:3179-3203 | The check means "expected is a subset of `get_audience`", that is, "aud" is or holds each expected string, exactly if something is expected or "aud" is an array |
| VerificationLaws.SubsetErrors | include/jwt-cpp/jwt.h:3179-3203 | A missing claim, a null, an array with something else than strings, another type: each its own answer, in header or payload |
| VerificationLaws.EqualsCheck | include/jwt-cpp/jwt.h:3115-3138 | It passes exactly on the expected value, arrays and objects too if they survive printing; missing, null, other kind and other value are each their own answer |
| VerificationLaws.EmptyExpectationIsRefused | include/jwt-cpp/jwt.h:3185-3189 | A token with a single audience that is refused although nothing is expected |
| Admission.Issue | http_session.cpp:125-130 | The token handed out is the signed form of the four claims, at the two times read from the clock |
| Admission.ToTimeTTruncates | include/jwt-cpp/jwt.h:2313 | Dates are written in whole seconds, the fraction dropped |
| Admission.Configure | websocket_session.hpp:73 | The verifier of `run` holds exactly the three default checks, the issuer, the audience and HS256 |
| Admission.Authorize | websocket_session.hpp:63-74 | The token after the first mark of the target, URL-decoded, decoded and verified; without a mark, the empty token |
| Admission.ChecksMean | websocket_session.hpp:73-74 | What the five checks demand of a decoded token, claim by claim |
| Admission.AcceptedExactly | websocket_session.hpp:63-87 | Any target is accepted exactly if its token decodes, is signed as "HS256" with "secret", names "auth0" and "aud0", and is presented in time; one that does not decode is refused with the exception of the decoding |
| Admission.TokenInTarget | websocket_session.hpp:64-69 | A token that follows the first mark is found, whatever precedes it and however it was percent-encoded |
| Admission.NoMarkIsRefused | websocket_session.hpp:63-72 | A target without "?token=" is refused as an invalid token |
| Admission.FurtherParameterIsRefused | websocket_session.hpp:64-74 | A target with an ampersand anywhere after a mark is refused at any time, however good the token: `run` takes everything to the end |
| Admission.IssuedIsGenuine | http_session.cpp:125-130 | Whatever the clock said, an issued token survives `url_decode` and decodes to the four claims it was issued with under a genuine signature |
| Admission.EndToEnd | http_session.cpp:125-130 | An issued token, in any percent-encoding, is accepted exactly from the second of its issue to the second its hour ends in, for two reads of the clock |
| Admission.TokenNeedsNoEscapes | http_session.cpp:125-130 | The token as issued is one of those encodings |
| Admission.HourOfValidity | http_session.cpp:125-130 | Issued at one instant it is accepted over exactly 3600 seconds from the whole second, so for at least 3599 seconds after issue |
| StaticFiles.PathCat | http_session.cpp:75-98 | The target appended to the root without its last separator; the target alone for an empty root |
| StaticFiles.BuildPath | http_session.cpp:185-194 | The name to open, or a bad request exactly if the target is not absolute or holds ".." |
| StaticFiles.LegalExactly | http_session.cpp:185-189 | Served are exactly the targets that start with a separator and have no two dots side by side |
| StaticFiles.LegalGoesDown | http_session.cpp:185-194 | No component of a legal target, index file included, goes up |
| StaticFiles.Containment | http_session.cpp:75-98 | For any working directory and non-empty root, with or without its last separator, a legal target resolves to the root followed by the components the target names |
| StaticFiles.OpensFile | http_session.cpp:185-194 | The file opened is the root, what the target names, and "index.html" exactly if the target ends in a separator |
| StaticFiles.LastSeparator | http_session.cpp:82-97 | A root with one more separator at its end gives the same name, with one separator there |
| StaticFiles.EmptyRoot | http_session.cpp:80-81 | With an empty root the target is resolved from the top of the file system, whatever the working directory |
| StaticFiles.EmptyRootIsNotContained | http_session.cpp:80-81 | For every working directory but the top one, a legal target that leaves it under an empty root |
| StaticFiles.ContainedExactlyWhen | http_session.cpp:75-98 | Every legal target stays at or below the root exactly if the root is not empty or the working directory is the top one |
| Ecdsa.DerToP1363 | include/jwt-cpp/jwt.h:1424-1450 | The padded concatenation, or the decoding error, or the length error |
| Ecdsa.FixedWidthRoundTrip | include/jwt-cpp/jwt.h:1424-1456 | It exists exactly if both numbers are below 256 to half the length, has exactly that length, and its halves read back are the two numbers |
| Ecdsa.HalvesRoundTrip | include/jwt-cpp/jwt.h:1424-1456 | Splitting a signature of any length and joining it again for a given length restores it exactly if it had that length, rounded down to even |
| Ecdsa.HalvesAreTheNumber | include/jwt-cpp/jwt.h:1452-1456 | A signature of any length, as one big-endian number, is r times a power of 256 plus s, the shorter half first |
| Ecdsa.LengthIsNotChecked | include/jwt-cpp/jwt.h:1452-1456 | For every signature of even length there is one two bytes longer that is read as the same pair |
| Ecdsa.SizeBound | include/jwt-cpp/jwt.h:816-818 | The shortest bytes of a number are at most k exactly if it is below 256 to the k |
| KeyCounts.LettingGo | include/jwt-cpp/jwt.h:472-474 | A handle that lets go of its key never frees a freed key, and the counts stay right |
| KeyCounts.TakingHold | include/jwt-cpp/jwt.h:469-471 | So do they when a handle takes another reference to a live key |
| KeyCounts.HandingOver | include/jwt-cpp/jwt.h:436-439 | And when a reference is moved |
| KeyCounts.ReplacingKeeps | include/jwt-cpp/jwt.h:440-446 | Copy assignment drops the old key first; the copied one survives that, even if it is the same |
| KeyCounts.ExecKeepsBalance | include/jwt-cpp/jwt.h:424-475 | Every operation keeps count = handles holding it + outside references, with one free exactly at zero, and never uses a freed key |
| KeyCounts.ExecMeans | include/jwt-cpp/jwt.h:424-475 | After each operation every handle holds the key that the operation's name says, self-assignment included, and the counts follow |
| KeyCounts.AlwaysBalanced | include/jwt-cpp/jwt.h:424-475 | So at every state of every run of constructions, copies, moves, assignments and destructions, to self and on shared keys included |
| KeyCounts.RawAssignment | include/jwt-cpp/jwt.h:454-459 | Assigning a live raw key is safe exactly if the reference dropped first is not its only one |
| KeyCounts.FreedBeforeUse | include/jwt-cpp/jwt.h:454-459 | A run after which assigning a handle the key it alone holds uses a freed key |
| PkeyHandles.EvpPkeyHandle.constructor | include/jwt-cpp/jwt.h:409 | A default handle holds nothing |
| PkeyHandles.EvpPkeyHandle.Adopt | include/jwt-cpp/jwt.h:428 | The caller's reference, if the key is not null, becomes the handle's, and no count changes |
| PkeyHandles.EvpPkeyHandle.Copy | include/jwt-cpp/jwt.h:429-431 | The copy holds the same key, whose count grows by one |
| PkeyHandles.EvpPkeyHandle.Move | include/jwt-cpp/jwt.h:436-439 | The reference changes hands and the other handle is emptied |
| PkeyHandles.EvpPkeyHandle.IncrementRefCount | include/jwt-cpp/jwt.h:469-471 | A key that is not null has one reference more, and nothing else changes |
| PkeyHandles.EvpPkeyHandle.DecrementRefCount | include/jwt-cpp/jwt.h:472-474 | A key that is not null has one reference less, freed at zero |
| PkeyHandles.EvpPkeyHandle.AssignCopy | include/jwt-cpp/jwt.h:440-446 | In place, what `CopyAssigned` says, self-assignment included |
| PkeyHandles.EvpPkeyHandle.AssignMove | include/jwt-cpp/jwt.h:447-453 | In place, what `MoveAssigned` says, self-assignment included |
| PkeyHandles.EvpPkeyHandle.AssignRaw | include/jwt-cpp/jwt.h:454-459 | In place, what `RawAssigned` says, for a key with a reference to spare |
| PkeyHandles.EvpPkeyHandle.Destroy | include/jwt-cpp/jwt.h:460 | The handle goes and its reference with it |

## Left out

* Sockets, TLS, the listener, `main.cpp` and the HTML client: input and output. A completion is an event that succeeds or fails.
* `ioc.stop()`: it drops pending handlers, so what is said of destroyed sessions is about runs without it.
* What `close_with_401` sends and the shutdown after it: a refused session is two outstanding operations that never reach the registry.
* The read and write alternation, the opening of files and `mime_type` in `http_session.cpp`; the branch of `path_cat` for MSVC.
* Links in the file system: resolution of names is lexical.
* An address used again after a session or handle is destroyed: handles are numbers used once, and a destroyed session stays as a record.
* HMAC, the signature primitives and the DER form inside OpenSSL: a DER signature is a pair of numbers or undecodable, and allocation failures in `raw2bn` do not happen.
* The JSON printer and parser. Whatever exception a parse error raises is `InvalidJson`.
* `double` precision, the cast of large unsigned claims to `int64_t`, and overflow of times and leeways: integers and reals are unbounded.
* `with_type` and its comparison by locale; the subject and id checks, which are `WithClaim` under another name.
* Texts of error categories, template checks of traits, and the JWK classes.
* `std::isxdigit` on a negative `char`, which C++ leaves undefined: octets are unsigned here.
* An empty fill given to `count_padding`, for which it recurses without end; no table has one, and the model requires it.
* A failing `EVP_PKEY_up_ref`, and the branches for OpenSSL 1.0.
* `std::move` of a reference to const in `send` and `broadcast`, which copies.
