# Notes demo: a verified model of its server and client state

This project is a Dafny model of the notes demo application. It covers:

- The in-memory Express backend (`backend/src`). This has a notes store with its validation service and HTTP handlers, a one-user directory with password hashing, a bearer-token store with login/logout/"who am I", and a three-page selector.
- The older notes backend (`backend/models`, `backend/controllers`). It keeps integer ids from a counter, appends notes, and requires a title.
- The client's state machines. These are the local-storage notes list (`frontend/src/features/notes/hooks/useNotes.js`), the server-backed notes cache (`frontend/src/hooks/useNotes.js`) and the login session (`frontend/src/hooks/useUser.js`), together with the request helper they share (`frontend/src/services/apiClient.js`).

Every operation is a pure function from the old state and the request to the new state and a result (`Outcomes.Step`). Errors are `Failure(status, message)` values. The original signals them by throwing `Error` objects with an optional `status`. Things the code reads from outside become parameters:

- a generated note id (`genId`)
- the 24 random token bytes
- the clock
- the SHA-256 function (`Hash = string -> string`)
- the outcome of every remote call the client hooks make

JavaScript behaviour the code depends on is written out in modules `Json`, `Text`, `Seqs` and `ParseInt`:

- truthiness, `?.`, `??`, `===`
- object spread (right-biased map union)
- `split(' ')`, `trim()`, `toLowerCase()`
- `find`, `findIndex`, `filter`, `splice`
- `parseInt`

Being values, the lists the model returns cannot be changed by later operations. This is the "copy" that `list()` promises, and the reason `toPublicJSON` cannot modify its user.

Note ids are not kept unique. In `create` the draft is spread after the defaults (backend/src/repositories/notesRepository.js:19), so a draft that carries an `id` overrides the generated one, and two notes can then share an id. `NotesRepository.CreateCanDuplicateId` exhibits this, and the uniqueness results (`CreateKeepsIdsUnique`, the client mirror lemmas) assume drafts without ids or a store with unique ids.

## Model

| member | source | states |
|---|---|---|
| NotesRepository.List | backend/src/repositories/notesRepository.js:10-12 | the list holds every stored note, in stored order |
| NotesRepository.FindById | backend/src/repositories/notesRepository.js:14-16 | the first note whose id equals the argument, and None exactly when no note has it |
| NotesRepository.IndexOf | backend/src/repositories/notesRepository.js:25 | the position `findIndex` returns is the first note with the id, and None exactly when there is none |
| NotesRepository.NewNote | backend/src/repositories/notesRepository.js:19 | the new note has the draft's keys plus id, title and html; every draft field wins, so does a draft id; 'Untitled', '' and the generated id are used only for missing keys |
| NotesRepository.Create | backend/src/repositories/notesRepository.js:18-22 | the store grows by one, the new note is first, the older notes follow in their order, and the new note is returned |
| NotesRepository.Merge | backend/src/repositories/notesRepository.js:27 | the merged note has the note's and the patch's keys; patch fields win over the stored ones, and the route id wins over both |
| NotesRepository.Update | backend/src/repositories/notesRepository.js:24-29 | an unknown id answers None with the store unchanged; otherwise only the first matching note is replaced, by the patch merged over it with its id kept, and length and all other notes are unchanged |
| NotesRepository.Remove | backend/src/repositories/notesRepository.js:31-36 | an unknown id answers false with the store unchanged; otherwise exactly the first matching note is cut out and the answer is true |
| NotesRepository.CreateThenRemove | backend/src/repositories/notesRepository.js:18-36 | removing the id of a note just created without a draft id, under an unused generated id, restores the store and answers true |
| NotesRepository.CreateKeepsIdsUnique | backend/src/repositories/notesRepository.js:18-22 | creating from a draft without an id under an unused generated id keeps the store's ids unique |
| NotesRepository.CreateCanDuplicateId | backend/src/repositories/notesRepository.js:19 | a draft carrying an existing note's id produces a second note with that id, so ids are no longer unique |
| NotesRepository.UpdateIdempotent | backend/src/repositories/notesRepository.js:24-29 | applying the same patch twice under the same id gives the same store and answer as applying it once |
| NotesRepository.RemoveLeavesNoneWithId | backend/src/repositories/notesRepository.js:31-36 | with unique ids, no note with the id remains after removal |
| NotesRepository.AlwaysShaped | backend/src/repositories/notesRepository.js:18-36 | from the empty store at process start, after any sequence of creates, updates and removes, every stored note has an id, a title and an html property |
| NotesService.ListNotes | backend/src/services/notesService.js:4-6 | the service answers the whole store, every note in stored order |
| NotesService.GetNote | backend/src/services/notesService.js:8-10 | the lookup passes through: a missing note is None, not an error |
| NotesService.CreateNote | backend/src/services/notesService.js:12-19 | fails with 400 'Nothing to create' and an untouched store exactly when the data is missing or has neither a truthy title nor a truthy html; otherwise it is the repository's create |
| NotesService.UpdateNote | backend/src/services/notesService.js:21-34 | the patch is checked before the lookup: no title and no html gives 400 even for an unknown id; a valid patch on an unknown id gives 404 'Note not found' with nothing changed; otherwise it is the repository's update |
| NotesService.DeleteNote | backend/src/services/notesService.js:36-44 | answers `{ ok: true }` exactly when a note was removed, and otherwise 404 'Note not found' with the store unchanged |
| NotesService.CreateDeleteGet | backend/src/services/notesService.js:8-44 | creating, then deleting the new id, succeeds, restores the store, and the note can no longer be found |
| NotesController.NotesJson | backend/src/controllers/notesController.js:4-7 | the JSON list holds exactly the stored notes in order |
| NotesController.ListHandler | backend/src/controllers/notesController.js:4-7 | 200 with exactly the service's list |
| NotesController.GetOne | backend/src/controllers/notesController.js:9-13 | a missing note gives 404 `{ error: 'Note not found' }`; otherwise 200 with the first note with that id |
| NotesController.CreateHandler | backend/src/controllers/notesController.js:15-22 | a missing body counts as `{}` and gives the service's 400; success gives 201 with the created note; errors give their status or 500 with their message or 'Create failed' |
| NotesController.UpdateHandler | backend/src/controllers/notesController.js:24-31 | an empty or missing body gives 400 'Nothing to update'; an unknown id 404; success 200 with the updated note, with the store as the service leaves it |
| NotesController.RemoveHandler | backend/src/controllers/notesController.js:33-40 | an existing id gives 200 `{ ok: true }` with the first match removed; otherwise 404 `{ error: 'Note not found' }` with the store untouched |
| NotesController.CreateThenRename | backend/src/controllers/notesController.js:15-31 | posting a note and then putting a new title under its id answers 201 then 200, and the result keeps the id and the untouched content |
| Http.FailureResponse | backend/src/controllers/notesController.js:19-21 | status is the error's status unless it is missing or 0, then 500; body is `{ error }` with the error's message, or the fallback when the message is empty |
| UserEntity.NewUser | backend/src/entities/User.js:3-9 | id, username, name, roles and password hash are stored as given; roles default to empty |
| UserEntity.PublicView | backend/src/entities/User.js:11-18 | exactly the keys id, username, name and roles, each equal to the user's field, and never passwordHash |
| UserEntity.PublicViewIgnoresHash | backend/src/entities/User.js:8-18 | users differing only in their password hash have the same public view |
| UserEntity.PublicViewDeterminesFields | backend/src/entities/User.js:11-18 | equal public views mean equal id, username, name and roles |
| UserRepository.FindByUsernameIn | backend/src/repositories/userRepository.js:21-24 | the first user whose name equals the argument ignoring case, and None exactly when there is none |
| UserRepository.FindByIdIn | backend/src/repositories/userRepository.js:26-29 | the first user with exactly that id, and None exactly when there is none |
| UserRepository.FindByUsername | backend/src/repositories/userRepository.js:21-24 | a user found is a user of the directory whose name matches ignoring case; None exactly when no name matches |
| UserRepository.FindById | backend/src/repositories/userRepository.js:26-29 | a user found is a user of the directory with exactly that id; None exactly when no user has it |
| UserRepository.Users | backend/src/repositories/userRepository.js:11-19 | the directory holds exactly one user: id '1', username 'admin', name 'Administrator', roles USER and ADMIN, hash = sha256('heslo') |
| UserRepository.FindAdminByName | backend/src/repositories/userRepository.js:11-24 | the administrator is found under every capitalisation of 'admin' and under no other name |
| UserRepository.FindAdminById | backend/src/repositories/userRepository.js:11-29 | the administrator is found under id '1' and under no other id |
| Hex.Encode | backend/src/services/authService.js:9 | `toString('hex')`: two lower-case hex digits per byte |
| Hex.DecodeEncode | backend/src/services/authService.js:9 | decoding the hex rendering gives back the bytes |
| Hex.EncodeInjective | backend/src/services/authService.js:9 | different byte strings render differently |
| AuthService.MakeToken | backend/src/services/authService.js:8-10 | a token is 48 hex characters that decode back to the 24 random bytes |
| AuthService.Login | backend/src/services/authService.js:18-42 | a missing or empty username or password gives 400 'Missing credentials'; an unknown user or a wrong password gives 401 'Invalid credentials'; in these cases the store is unchanged; a present username whose user is found, with a password hashing to the stored hash, always succeeds; success adds token → user id, keeps every other entry, and returns the token and the public view |
| AuthService.Logout | backend/src/services/authService.js:44-49 | removes only the given token, keeps every other entry, and always answers `{ ok: true }`, also for an unknown or absent token |
| AuthService.GetUserFromToken | backend/src/services/authService.js:51-56 | an unknown token, or one mapped to an empty id, gives None; otherwise the public view of the mapped user, or None if there is no such user |
| AuthService.LogoutIdempotent | backend/src/services/authService.js:44-49 | logging out twice with the same token is the same as logging out once |
| AuthService.LoginFailuresIndistinguishable | backend/src/services/authService.js:25-37 | an unknown username and a wrong password give identical answers and states |
| AuthService.LoginThenResolve | backend/src/services/authService.js:39-56 | after a successful login the token resolves to that user's public view |
| AuthService.LogoutRevokes | backend/src/services/authService.js:44-56 | after logout the token resolves to no user |
| AuthService.AdminCanLogIn | backend/src/services/authService.js:18-42 | the seeded credentials log in under any capitalisation of 'admin', for every hash function |
| AuthService.LoginKeepsTokensKnown | backend/src/services/authService.js:39-41 | a login maps its new token to the id of the user it found, so every token stays mapped to a user of the directory |
| AuthService.LogoutKeepsTokensKnown | backend/src/services/authService.js:44-49 | a logout only drops entries, so every token stays mapped to a user of the directory |
| AuthService.TokensAlwaysResolve | backend/src/services/authService.js:5-56 | from the empty store at process start, after any sequence of logins and logouts, every stored token maps to a user of the directory and resolves to the administrator's public view |
| Text.Split | backend/src/controllers/authController.js:6 | `split(' ')`: at least one piece, no piece contains a space, and joining with ' ' gives back the text |
| Text.SplitJoin | backend/src/controllers/authController.js:6 | splitting the join of space-free pieces gives back the pieces |
| Text.ToLower | backend/src/controllers/authController.js:7 | ASCII lower-casing, character by character, keeping length |
| AuthHeader.ReadToken | backend/src/controllers/authController.js:4-9 | a missing header gives None; a token read is non-empty and has no space |
| AuthHeader.ReadsWellFormedHeader | backend/src/controllers/usersController.js:4-9 | `<scheme> <token>[ <rest>]` with scheme 'bearer' in any case and a non-empty token gives the token, and later pieces are ignored |
| AuthHeader.WellFormedWhenRead | backend/src/controllers/authController.js:4-9 | whenever a token is read, the header has exactly that shape |
| AuthHeader.DoubleSpaceYieldsNothing | backend/src/controllers/authController.js:6-7 | 'Bearer' followed by two spaces and a token gives no token |
| AuthHeader.ReadsClientHeader | backend/src/controllers/usersController.js:4-9 | the header the client sends, 'Bearer ' and a non-empty token without spaces, reads as exactly that token |
| AuthController.LoginJson | backend/src/controllers/authController.js:14-15 | the login answer has exactly the keys token and user, holding the token and the public user view |
| AuthController.LoginHandler | backend/src/controllers/authController.js:11-19 | 200 `{ token, user }` on success; otherwise the error's status or 500 with its message or 'Login failed'; a missing body counts as `{}` and gives 400 |
| AuthController.LogoutHandler | backend/src/controllers/authController.js:21-29 | always 200 `{ ok: true }`; a readable token is dropped from the store, and without one the store is unchanged |
| UsersController.GetMe | backend/src/controllers/usersController.js:11-17 | no readable token gives 401; a token unknown to the store gives 401; a live token gives 200 with the public user view |
| UsersController.LoginMeLogout | backend/src/controllers/usersController.js:11-17 | after the administrator logs in, `Bearer <token>` gets 200 with the public view; after logging out with that header it gets 401 |
| PagesController.InitialValid | backend/src/controllers/pagesController.js:10 | the current page starts as 'home', a catalogue id |
| PagesController.CatalogueJson | backend/src/controllers/pagesController.js:4-8 | the catalogue as JSON, page by page in order |
| PagesController.ListPages | backend/src/controllers/pagesController.js:12-14 | 200 with exactly the unchanged catalogue and the current id |
| PagesController.GetCurrent | backend/src/controllers/pagesController.js:16-19 | the current id, with the catalogue page of that id when it exists; the page is dropped only when the current id is not in the catalogue |
| PagesController.SetCurrent | backend/src/controllers/pagesController.js:21-29 | a catalogue id becomes the current page and answers `{ ok: true, current }`; any other id, including a missing id or body, gives 400 with the allowed ids in catalogue order and leaves the current page; validity is preserved |
| PagesController.AlwaysValid | backend/src/controllers/pagesController.js:4-29 | after any sequence of requests from the start, the current id is a catalogue id |
| LegacyNotes.NewNote | backend/models/entities/Notes.js:1-8 | id, title and content are stored verbatim with no checks; createdAt is kept when given and is the current time when omitted |
| LegacyNotes.FindAll | backend/models/repositories/notesRepository.js:9-11 | every saved note, in insertion order |
| LegacyNotes.FindById | backend/models/repositories/notesRepository.js:13-15 | the first note with an equal id, and None exactly when there is none |
| LegacyNotes.Save | backend/models/repositories/notesRepository.js:17-21 | appends a note with the counter as id and the current time, returns it, and moves the counter on by one; validity is preserved |
| LegacyNotes.IdsIncreasing | backend/models/repositories/notesRepository.js:17-20 | ids strictly increase along the list, so they are unique |
| LegacyNotes.FindByIdInValid | backend/models/repositories/notesRepository.js:13-15 | in a valid repository id k finds the k-th saved note, and any id outside 1..n finds nothing |
| LegacyNotes.SavedInOrder | backend/models/repositories/notesRepository.js:4-21 | from the start, the n-th save gives id n and the list only grows by appending, keeping each title and content |
| LegacyNotesService.GetNote | backend/models/services/notesService.js:8-12 | a NaN or unknown id gives 'Note not found'; otherwise the note |
| LegacyNotesService.CreateNote | backend/models/services/notesService.js:14-17 | a falsy title gives 'Title is required' with the store unchanged; a truthy title saves, whatever the content is |
| LegacyNotesService.GetNotes | backend/models/services/notesService.js:4-6 | the repository's whole list, in insertion order |
| ParseInt.ParseDecimal | backend/controllers/notesController.js:10 | `parseInt` of the decimal rendering of a natural number gives that number |
| ParseInt.ParseNegative | backend/controllers/notesController.js:10 | a leading minus sign negates the number |
| ParseInt.LeadingSpaceIgnored | backend/controllers/notesController.js:10 | leading white space does not change the result |
| ParseInt.NonNumericIsNaN | backend/controllers/notesController.js:10 | a parameter starting with a non-digit that is no sign or white space is NaN |
| ParseInt.ParseInt | backend/controllers/notesController.js:10 | a number is read only when the first character after the leading white space is a sign or a digit; an empty or blank parameter is NaN |
| LegacyNotesController.GetAllNotes | backend/controllers/notesController.js:3-6 | 200 with all notes in insertion order |
| LegacyNotesController.GetNote | backend/controllers/notesController.js:8-15 | 200 exactly when the parsed id finds a note, and then it is that note; otherwise, NaN included, 404 with 'Note not found' |
| LegacyNotesController.CreateNote | backend/controllers/notesController.js:17-25 | no body or a falsy title gives 400 with the error message and nothing saved; a truthy title gives 201 with the new note appended |
| LegacyNotesController.GetByDecimalId | backend/controllers/notesController.js:8-15 | in a valid repository the decimal id k answers 200 exactly when 1 <= k <= n, with the k-th note |
| LegacyNotesController.CreateThenGet | backend/controllers/notesController.js:8-25 | a note created with a title can be fetched back under its id written in decimal |
| LocalNotes.TrimOrEmpty | frontend/src/features/notes/hooks/useNotes.js:13-14 | null or undefined becomes '', otherwise the trimmed text; the result is trimmed |
| Text.Trim | frontend/src/features/notes/hooks/useNotes.js:13-14 | the result is trimmed, is a slice of the input flanked only by white space, and is empty exactly when the input is all white space |
| LocalNotes.AddNote | frontend/src/features/notes/hooks/useNotes.js:12-24 | both trimmed texts empty leaves the list unchanged; otherwise a note with the trimmed title (or 'Untitled') and trimmed content is prepended before the unchanged list; well-formedness is kept |
| LocalNotes.RemoveNote | frontend/src/features/notes/hooks/useNotes.js:26-28 | no note with the id remains and every other note is kept as often as before; well-formedness is kept |
| LocalNotes.ClearNotes | frontend/src/features/notes/hooks/useNotes.js:30-32 | the list becomes empty |
| LocalNotes.RemoveAbsent | frontend/src/features/notes/hooks/useNotes.js:26-28 | removing an id no note carries changes nothing |
| LocalNotes.AddThenRemove | frontend/src/features/notes/hooks/useNotes.js:12-28 | removing the note just added under a fresh id gives back the list |
| LocalNotes.RemoveKeepsOrder | frontend/src/features/notes/hooks/useNotes.js:26-28 | removal distributes over concatenation, so the survivors keep their order |
| NotesCache.Initial | frontend/src/hooks/useNotes.js:14-18 | empty list, no open note, not loading, no error, and the stored last note id |
| NotesCache.LoadNotes | frontend/src/hooks/useNotes.js:20-33 | success replaces the list with the answer, or with empty when it is no array; failure records the error and changes nothing else; loading ends either way |
| NotesCache.OpenNote | frontend/src/hooks/useNotes.js:35-50 | a falsy id answers null and touches nothing; success opens the fetched note and remembers the id; failure records the error and changes nothing else |
| NotesCache.CreateNote | frontend/src/hooks/useNotes.js:52-67 | success prepends the created note, opens it and remembers its id or null; failure records the error and changes nothing else |
| NotesCache.ReplaceById | frontend/src/hooks/useNotes.js:79 | each entry with the updated note's id becomes the updated note and the others stay as they were |
| NotesCache.SaveCurrent | frontend/src/hooks/useNotes.js:69-87 | without a truthy open id it is create of the open note merged with the patch; otherwise success opens the updated note and replaces every list entry with that id, and failure changes nothing but the error |
| NotesCache.DeleteNote | frontend/src/hooks/useNotes.js:89-106 | a falsy id does nothing; success removes every entry with the id and keeps the others, and clears the open note and remembered id only if the open note had that id; failure changes nothing but the error |
| NotesCache.Without | frontend/src/hooks/useNotes.js:95 | no entry with the id remains, and every other entry is kept as often as before |
| NotesCache.WithoutAppend | frontend/src/hooks/useNotes.js:95 | dropping an id from a list made of two parts drops it from each part, so the surviving entries keep their order |
| NotesCache.Mount | frontend/src/hooks/useNotes.js:108-118 | without auto-load nothing changes; otherwise the list is loaded and the remembered id kept; after a successful load a remembered id reopens its note, and a failed reopen records its error and leaves the open note as it was |
| NotesCache.LoadMirrors | frontend/src/hooks/useNotes.js:20-33 | loading the server's list makes the cache hold exactly the server's notes |
| NotesCache.CreateKeepsMirror | frontend/src/hooks/useNotes.js:52-67 | creating through the cache and on the server keeps the cache equal to the server's list, whether the server accepts or refuses |
| NotesCache.SaveKeepsMirror | frontend/src/hooks/useNotes.js:69-87 | saving the open note keeps the cache equal to the server's list when server ids are unique |
| NotesCache.DeleteKeepsMirror | frontend/src/hooks/useNotes.js:89-106 | deleting keeps the cache equal to the server's list when server ids are unique |
| NotesCache.OpenFromServer | frontend/src/hooks/useNotes.js:35-50 | opening an id against the server's `GET /notes/:id` opens the server's first note with that id and remembers the id; an id the server lacks records the 404 'Note not found' and changes nothing else |
| NotesCache.MountReopens | frontend/src/hooks/useNotes.js:108-118 | mounting with a remembered id loads the server's list and reopens the server's note with that id; if the server lacks it, the open note stays and the 404 is recorded |
| Session.Initial | frontend/src/hooks/useUser.js:15-18 | the stored token, no user, not loading, no error |
| Session.RefreshUser | frontend/src/hooks/useUser.js:35-48 | success sets the user to the answer; failure records the error and keeps the user; the token is untouched |
| Session.DoLogin | frontend/src/hooks/useUser.js:50-67 | a truthy answer token replaces the stored token and a missing one leaves it; the user becomes the answer's user or null; an empty answer or a failed call records the error and keeps user and token |
| Session.DoLogout | frontend/src/hooks/useUser.js:69-82 | whatever the remote answer, the session ends with no token, no user, not loading and unauthenticated |
| Session.Mount | frontend/src/hooks/useUser.js:21-33 | without a token the user is cleared; with one, a successful refresh sets the user and a failed one logs out |
| Session.IsAuthenticated | frontend/src/hooks/useUser.js:110 | never authenticated without a user or with a missing or empty token; always authenticated with a user object and a non-empty token |
| ApiClient.Authorization | frontend/src/services/apiClient.js:45-47 | a non-empty string token is sent as 'Bearer ' and the token; a falsy one sends no header |
| ApiClient.Delivered | frontend/src/services/apiClient.js:69-81 | a 2xx response resolves to its payload; any other fails with its status, and its message is the payload's message, else its error, else the status text, else 'HTTP ' and the status |
| ApiClient.FailureReachesClient | frontend/src/services/apiClient.js:69-81 | an error a handler answers with reaches the client with the same status and the same message, or the handler's fallback when the error had none |
| Session.AdminLoginAuthenticates | frontend/src/hooks/useUser.js:50-67 | signing in with the seeded credentials through the server's login handler authenticates the session with the minted token and the administrator's public view |
| Session.RefusedLoginKeepsSession | frontend/src/hooks/useUser.js:61-64 | a login refused by the server records the 401 'Invalid credentials' and keeps user, token and authentication as they were |
| Session.RefreshAfterAdminLogin | frontend/src/hooks/useUser.js:35-67 | after the administrator signs in, refreshing against the server's `GET /users/me` sets the user to the administrator's public view and stays authenticated |
| Session.MountWithLiveToken | frontend/src/hooks/useUser.js:21-33 | mounting with a stored token the server still knows ends signed in as that token's user, with the token kept |
| Session.MountWithRevokedToken | frontend/src/hooks/useUser.js:21-33 | mounting with a stored token the server no longer knows ends signed out; a non-empty such token is dropped and no error is left |

## Left out

- Express wiring, routing, CORS, static files and logging are not modelled. Handlers take the request's parameters and body as arguments and return a status and a body.
- Asynchrony is not modelled. Every service call and every hook operation is one atomic transition, with no interleaving.
- React rendering is not modelled. The `setX` calls of a hook are applied together, and a hook reads the state it was called on.
- Persistence to local storage is not modelled. `useLocalStorage` and JSON (de)serialisation are outside the model.
- `genId`, `generateId`, `crypto.randomBytes`, `new Date()` and `Date.now` are parameters. Nothing is claimed about the freshness of ids or tokens, since the code checks for no collision.
- `sha256` is a parameter of type `string -> string`. It is therefore deterministic by construction, and the results hold for every hash function.
- JSON numbers are integers. Floating point, and the precision `parseInt` loses above 2^53, are not modelled.
- Login credentials are optional strings. A non-string username or password is left out (the code would apply `String(..)` or the hash to it).
- ParseInt.ParseInt: `-0` is the integer 0, which the lookup treats the same way the code does.
- Text.ToLower: only ASCII letters are lower-cased. Unicode case mapping is left out.
- Text.Trim: the white-space set is the ECMAScript one. Unicode normalisation is not modelled.
- Json.Spread: spreading a string or an array (which would contribute its indices) is not modelled. Only objects and null are spread by the code.
- NotesCache.SaveCurrent: a list entry that is `null`, or an update answer that is `null`, would throw inside the React updater. The model reads their `id` as undefined instead.
- NotesCache.DeleteNote: a list entry that is `null` would make the filter throw. The model reads its `id` as undefined and keeps the entry (the same holds for NotesCache.Without). The mirror lemmas only concern lists of objects, which is what the server sends.
- ApiClient.Delivered: a truthy `message` or `error` that is not a string would become the message in its string form. The model gives the empty message for it. The server only sends strings there.
- ApiClient.Authorization: a truthy token that is not a string would be sent in its string form. The model sends no header for it. Tokens the server mints are strings.
- `updateProfile` in `useUser.js` is left out. It is a remote call plus `setUser`, with the same shape as `RefreshUser`.
- The token slot of `apiClient.js` (`setAuthToken`/`clearAuthToken`) is not a separate state. In every flow the hooks put the session's token there before a request, so requests carry `ApiClient.Authorization` of the session's token. The thin fetch wrappers of the services are left out.
- JSON objects are maps, so the order of their keys is not modelled. For example, clients receive a new note's keys in the order `{ id, title, html, ...note }` builds them, and the model does not record that order.
- The formatting helpers and presentation components of the client are left out.
