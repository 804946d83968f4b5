# Election engine, thermostat rules and ATM bookkeeping in Dafny

This project models the rule logic of three small systems kept in one repository, and proves properties of that model.

- **The e-voting server and its console clients.**
  - Elections move `not_started → active → closed` under the owning official.
  - Ballots are checked in full and then stored as one unit.
  - The tally ranks candidates by votes, then by id, and records a winner only for a positive count.
  - The read side lists and groups elections.
  - Users and credentials are created, passwords are checked, and sessions are kept in memory.
  - The HTTP layer maps errors to status codes.
  - The voter and official clients build ballots and drive the lifecycle.
- **The smart-thermostat backend.**
  - Sessions expire after a fixed TTL.
  - Homeowners, guests and technicians log in by different rules.
  - Technicians get time-limited access windows.
  - Guests go through a verification request that moves `pending → approved/denied → consumed`.
  - Handlers for guests, profiles, schedules, diagnostics, sensors, energy and HVAC each check role and ownership.
  - The HVAC mode rule writes to a key/value state table.
- **The thermostat frontend.**
  - The dashboards apply due schedules, clamp the target temperature and show the mode.
  - A keyword chatbot answers questions.
  - The sign-in page counts failures.
  - A middleware redirects to sign-in when there is no token.
- **The console ATM.**
  - A PIN lockout after three failures.
  - The ID-card role check.
  - Deposit and withdraw bookkeeping.
  - The input validators.

**How the model is built**

- The database is a Dafny class (`EvotingTables.Database`, `AtmAccounts.AtmDatabase`, and the repository classes of the thermostat) whose tables are `seq` fields.
- Each transactional operation is a method. It either returns an error and leaves the tables as they were, or commits the new tables, and its `ensures` says which.
- Where the source is a decision chain, the model is a pure function, and the method that changes state is proved equal to it. Examples are `ThermoAuth.HomeownerDecision`, `AtmLogin.LoginStep` and `GuestVerification.VerifyStep`.
- These things become parameters, or uninterpreted functions passed in:
  - time, as an integer;
  - hashes (SHA-256, bcrypt) and random tokens;
  - date parsing;
  - HTTP calls made by the clients.

## Model

| member | source | states |
|---|---|---|
| EvotingTables.ElectionIndex | Team_MGA_Software_Package_II_evoting/internal/server/election_management.go:29-32 | the election row with a given id is found if and only if one exists, and the index found holds that id |
| EvotingTables.VotesFor | Team_MGA_Software_Package_II_evoting/internal/server/election_management.go:129-139 | the vote count of a candidate is 0 exactly when no vote names it, and never exceeds the number of votes |
| ElectionManagement.GetElectionInfo | Team_MGA_Software_Package_II_evoting/internal/server/election_management.go:22-41 | a missing election gives ElectionNotFound; an existing one owned by another official gives NotAuthorized, whatever its status; otherwise its name and status |
| ElectionManagement.OpenTransition | Team_MGA_Software_Package_II_evoting/internal/server/election_management.go:51-64 | open succeeds exactly from `not_started` and moves one stage forward; `active` gives ElectionAlreadyActive; every other status gives InvalidStatus |
| ElectionManagement.CloseTransition | Team_MGA_Software_Package_II_evoting/internal/server/election_management.go:75-88 | close succeeds exactly from `active` and moves one stage forward; `closed` gives ElectionAlreadyClosed; every other status gives InvalidStatus |
| ElectionManagement.NoTransitionReverses | Team_MGA_Software_Package_II_evoting/internal/server/election_management.go:45-89 | after any sequence of open and close requests the stage never goes back, and a closed election stays closed |
| ElectionManagement.OpenElection | Team_MGA_Software_Package_II_evoting/internal/server/election_management.go:45-65 | ownership is checked before status; on any error the tables are unchanged; on success only that election changes, to `active` with its start date set |
| ElectionManagement.CloseElection | Team_MGA_Software_Package_II_evoting/internal/server/election_management.go:69-89 | as OpenElection, moving `active` to `closed` with the end date set |
| ElectionManagement.PositionsOfSpec | Team_MGA_Software_Package_II_evoting/internal/server/election_management.go:92-121 | the positions read for an election are exactly its positions, in ascending id order |
| ElectionManagement.CandidatesOfSpec | Team_MGA_Software_Package_II_evoting/internal/server/election_management.go:126-155 | the candidates read for a position are exactly its candidates, in ascending id order |
| ElectionManagement.CandidateVotesRanked | Team_MGA_Software_Package_II_evoting/internal/server/election_management.go:129-139 | the ranked candidate list is a permutation of the counted candidates, ordered by votes descending and then id ascending |
| ElectionManagement.CandidateVotesComplete | Team_MGA_Software_Package_II_evoting/internal/server/election_management.go:129-139 | every candidate of the position appears exactly once, with its count (0 when it has no votes), and nothing else appears |
| ElectionManagement.CandidateOrderIsUnique | Team_MGA_Software_Package_II_evoting/internal/server/election_management.go:129-139 | any list that is a permutation of the counted candidates and is ordered by (votes descending, id ascending) is the ranked list, so the order is fully determined |
| ElectionManagement.RankedMembers | Team_MGA_Software_Package_II_evoting/internal/server/election_management.go:129-155 | the ranked list holds exactly the counted candidates of the position |
| ElectionManagement.WinnerExistsIff | Team_MGA_Software_Package_II_evoting/internal/server/election_management.go:203-214 | a winner is recorded if and only if some candidate of the position has a vote |
| ElectionManagement.WinnerIsTop | Team_MGA_Software_Package_II_evoting/internal/server/election_management.go:203-214 | the recorded winner is a candidate of the position with a positive count that no other candidate beats, ties going to the lower id |
| ElectionManagement.SetWinner | Team_MGA_Software_Package_II_evoting/internal/server/election_management.go:210-214 | the winner update changes exactly the position with that id and keeps every other row |
| ElectionManagement.WriteWinners | Team_MGA_Software_Package_II_evoting/internal/server/election_management.go:183-222 | the loop over the positions succeeds if and only if no winner update fails, and then yields the tallied table and the computed results |
| ElectionManagement.WriteWinner | Team_MGA_Software_Package_II_evoting/internal/server/election_management.go:190-217 | one position's step fails exactly when its winner's UPDATE fails; otherwise the table afterwards holds the tallied winner of that position as well as of those done before |
| ElectionManagement.TallyResults | Team_MGA_Software_Package_II_evoting/internal/server/election_management.go:159-225 | ownership, then `closed` (ElectionNotClosed otherwise); a failed update leaves the positions unchanged; on commit every position of the election holds its computed winner and the results are returned |
| ElectionManagement.GetResults | Team_MGA_Software_Package_II_evoting/internal/server/election_management.go:228-291 | writes nothing; IsActive is `status == active`; the stored winners are reported, not recomputed; positions come in ascending id order |
| ElectionManagement.ResultsAfterTallyAgree | Team_MGA_Software_Package_II_evoting/internal/server/election_management.go:203-214 | after a tally, the read-only results report the same winners the tally returned |
| ElectionManagement.TallyIdempotent | Team_MGA_Software_Package_II_evoting/internal/server/election_management.go:203-214 | tallying a position twice gives the same row as tallying it once |
| Ballots.SelectionErrorNoneIff | Team_MGA_Software_Package_II_evoting/internal/server/ballots.go:72-92 | the selection loop finds no error if and only if every position is in the election, no position repeats, and every candidate belongs to its position |
| Ballots.ValidateBallotNoneIff | Team_MGA_Software_Package_II_evoting/internal/server/ballots.go:33-92 | a ballot passes validation if and only if the voter and election id are given, it is non-empty, the election exists and is active, and its selections are well formed |
| Ballots.ValidateBallot | Team_MGA_Software_Package_II_evoting/internal/server/ballots.go:33-92 | the first validation error in the handler's order: a missing voter or election id, an empty ballot, an unknown or inactive election, then the selections; ValidateBallotNoneIff states when none is found |
| Ballots.CastBallot | Team_MGA_Software_Package_II_evoting/internal/server/ballots.go:32-128 | every check runs before any insert, so a validation error leaves the votes untouched; a duplicate vote or a foreign-key failure rolls back everything and returns 0; on success exactly one vote row per selection is added and the count equals the number of selections |
| Ballots.InsertVotes | Team_MGA_Software_Package_II_evoting/internal/server/ballots.go:95-127 | the transaction adds all the ballot's votes or none |
| Ballots.InsertLoop | Team_MGA_Software_Package_II_evoting/internal/server/ballots.go:105-122 | the insert loop stops at the first duplicate or unknown voter with that error; otherwise it appends one row per selection, in order, with consecutive ids |
| Ballots.InsertKeepsInvariants | Team_MGA_Software_Package_II_evoting/internal/server/ballots.go:105-127 | a committed ballot keeps vote ids increasing, keeps at most one vote per voter and position, keeps every voter a user and every candidate in its position, and records a vote for every selected position |
| ElectionCreation.BlankIsTrimmedEmpty | Team_MGA_Software_Package_II_evoting/internal/server/election_creation.go:40-50 | a field counts as blank exactly when trimming its white space leaves the empty string, which is the test the checks apply |
| ElectionCreation.CandidateErrorNoneIff | Team_MGA_Software_Package_II_evoting/internal/server/election_creation.go:47-52 | the candidate checks pass if and only if every candidate has a non-blank trimmed name and party |
| ElectionCreation.PositionErrorNoneIff | Team_MGA_Software_Package_II_evoting/internal/server/election_creation.go:39-54 | the per-position checks pass if and only if every position has a non-blank trimmed name, at least 2 candidates, and well-formed candidates |
| ElectionCreation.ValidateElectionNoneIff | Team_MGA_Software_Package_II_evoting/internal/server/election_creation.go:34-54 | validation passes if and only if there are at least 3 positions and each is well formed |
| ElectionCreation.ValidateElection | Team_MGA_Software_Package_II_evoting/internal/server/election_creation.go:34-54 | the first error in the handler's order: fewer than 3 positions, then each position's title and its candidates' names and parties; ValidateElectionNoneIff states when none is found |
| ElectionCreation.NewCandidatesBounds | Team_MGA_Software_Package_II_evoting/internal/server/election_creation.go:81-100 | the candidate rows inserted for the new positions are one per input candidate, with increasing fresh ids, each linked to one of the new positions |
| ElectionCreation.InsertStructure | Team_MGA_Software_Package_II_evoting/internal/server/election_creation.go:81-100 | the nested insert loops produce the new position rows and candidate rows in input order, and consume exactly as many ids as rows |
| ElectionCreation.CreationKeepsInvariants | Team_MGA_Software_Package_II_evoting/internal/server/election_creation.go:57-106 | committing the new election, positions and candidates keeps every table invariant |
| ElectionCreation.CreateElectionWithStructure | Team_MGA_Software_Package_II_evoting/internal/server/election_creation.go:33-107 | validation finishes before the transaction, and a failure leaves the store unchanged; an unknown official (a foreign-key failure) also leaves it unchanged; on success one election is added with status `not_started` and the new id is returned; its positions and candidates follow, linked in input order; reading the election back for a ballot gives the input's structure |
| ElectionCreation.InsertElection | Team_MGA_Software_Package_II_evoting/internal/server/election_creation.go:57-106 | the transaction appends the election row, then its positions, each followed by its candidates |
| ElectionCreation.Commit | Team_MGA_Software_Package_II_evoting/internal/server/election_creation.go:102-106 | the commit installs the new election, position and candidate tables and counters together, and they satisfy the table invariants |
| ElectionCreation.PositionsOfAppend | Team_MGA_Software_Package_II_evoting/internal/server/election_management.go:92-121 | reading the positions of an election distributes over appended tables |
| ElectionCreation.CandidatesOfAppend | Team_MGA_Software_Package_II_evoting/internal/server/election_management.go:126-155 | reading the candidates of a position distributes over appended tables |
| ElectionCreation.CandidatesOfCreated | Team_MGA_Software_Package_II_evoting/internal/server/election_creation.go:81-100 | the candidates read back for the k-th new position are exactly the k-th input position's candidates |
| ElectionCreation.CreatedBallotRoundTrip | Team_MGA_Software_Package_II_evoting/internal/server/election_creation.go:81-100 | grouping the stored rows of a freshly created election for a ballot gives back the positions and candidates that were submitted |
| GetElection.FoldAppend | Team_MGA_Software_Package_II_evoting/internal/server/get_election.go:60-98 | the row loop over two runs of rows is the loop over the first run continued by the second |
| GetElection.FoldSamePosition | Team_MGA_Software_Package_II_evoting/internal/server/get_election.go:71-91 | rows of the position being built only add their candidates to it, in order |
| GetElection.FoldPositionRows | Team_MGA_Software_Package_II_evoting/internal/server/get_election.go:71-91 | the rows of a new position close the entry being built and start one for that position, with an empty candidate list when the join gave none |
| GetElection.FoldJoin | Team_MGA_Software_Package_II_evoting/internal/server/get_election.go:60-98 | on rows ordered by position id, the loop leaves one finished entry per earlier position and the last position still open |
| GetElection.GroupJoinRows | Team_MGA_Software_Package_II_evoting/internal/server/get_election.go:60-101 | the grouping loop, with the last entry pushed, yields one entry per position of the election, each with exactly its candidates |
| GetElection.GetElectionForBallot | Team_MGA_Software_Package_II_evoting/internal/server/get_election.go:27-102 | a missing election gives ElectionNotFound; otherwise its name and its grouped positions, computed by the row loop |
| GetElection.BallotPositionsOrdered | Team_MGA_Software_Package_II_evoting/internal/server/get_election.go:47-98 | positions come in ascending id, each position id once; candidates come in ascending id within their position; each candidate is attached to its own position |
| ListElections.Reverse | Team_MGA_Software_Package_II_evoting/internal/server/list_elections.go:26 | the descending listing holds the table's rows last first: row i is the table's row n-1-i |
| ListElections.ActiveRowsSpec | Team_MGA_Software_Package_II_evoting/internal/server/list_elections.go:16-44 | the open listing's rows are exactly the active elections, each with IsActive 1, ascending before the reversal |
| ListElections.ListOpenElectionsSpec | Team_MGA_Software_Package_II_evoting/internal/server/list_elections.go:16-44 | ListOpenElections returns exactly the active elections, each with IsActive 1, in descending id order |
| ListElections.ListOpenElections | Team_MGA_Software_Package_II_evoting/internal/server/list_elections.go:16-44 | the active elections, newest id first, each with IsActive 1; ListOpenElectionsSpec proves it |
| ListElections.ListAllElectionsSpec | Team_MGA_Software_Package_II_evoting/internal/server/list_elections.go:46-73 | ListAllElections returns every election once, in descending id order, with the code `active`→1, `not_active`→0, anything else→2 |
| ListElections.ListAllElections | Team_MGA_Software_Package_II_evoting/internal/server/list_elections.go:46-73 | every election, newest id first, with the status code as written; ListAllElectionsSpec proves it |
| ListElections.NotStartedListedAsClosed | Team_MGA_Software_Package_II_evoting/internal/server/list_elections.go:53 | a `not_started` election gets the same code, 2, as a `closed` one |
| ListElections.StatusCodeIsStage | Team_MGA_Software_Package_II_evoting/internal/server/election_creation.go:70 | the corrected code is the lifecycle stage: `not_started` 0, `active` 1, `closed` 2 |
| ListElections.ListAllElectionsCorrectedSpec | Team_MGA_Software_Package_II_evoting/internal/server/list_elections.go:46-73 | the corrected listing differs from the one as written only in the code |
| UserCreation.PinnedDobShaped | Team_MGA_Software_Package_II_evoting/internal/server/create_user.go:44-62 | the pinned date "2003-01-02" has the date shape and lies after 1900 |
| UserCreation.ValidateUserInput | Team_MGA_Software_Package_II_evoting/internal/server/create_user.go:30-71 | input is accepted if and only if the user id has 3-50 characters from `[A-Za-z0-9_-]`, both names have 1-100 characters from letters, whitespace, `'` and `-`, the pinned date of birth is not in the future, and the password is exactly 5 digits |
| UserCreation.AnyDobPasses | Team_MGA_Software_Package_II_evoting/internal/server/create_user.go:44-62 | the verdict does not depend on the date of birth sent |
| UserCreation.Sanitize | Team_MGA_Software_Package_II_evoting/internal/server/create_user.go:76-80 | after sanitising, no field starts or ends with a space, the role has no capital letter, and the password is kept as sent |
| UserCreation.SanitizeKeepsClean | Team_MGA_Software_Package_II_evoting/internal/server/create_user.go:76-80 | a form with no spaces at the ends of its fields and no capital in its role passes through sanitising unchanged |
| UserCreation.SanitizeIdempotent | Team_MGA_Software_Package_II_evoting/internal/server/create_user.go:76-80 | sanitising an already sanitised form changes nothing |
| UserCreation.CheckNewUser | Team_MGA_Software_Package_II_evoting/internal/server/create_user.go:83-116 | a new user passes if and only if every field is non-empty, the role is admin, official or voter, the input is valid, and neither the user id nor the (first name, last name, date of birth) triple exists; Unauthorized is never returned |
| UserCreation.CheckInputs | Team_MGA_Software_Package_II_evoting/internal/server/create_user.go:83-95 | the field checks never report an existing user nor Unauthorized |
| UserCreation.AddedUserUnique | Team_MGA_Software_Package_II_evoting/internal/server/create_user.go:98-116 | a user that passes the checks keeps user ids unique |
| UserCreation.CreateUser | Team_MGA_Software_Package_II_evoting/internal/server/create_user.go:73-154 | the error is exactly what the checks report, and then nothing changes; on success one user row and one credentials row (SHA-256 of the password, the role) are both added, and nothing else changes |
| UserCreation.CommitUser | Team_MGA_Software_Package_II_evoting/internal/server/create_user.go:130-152 | the insert installs the new user and credentials tables together, and they satisfy the table invariants |
| UserCreation.NewUserKeepsInvariants | Team_MGA_Software_Package_II_evoting/internal/server/create_user.go:123-151 | adding the user and credentials rows keeps the table invariants |
| EvotingAuth.FindCredential | Team_MGA_Software_Package_II_evoting/internal/server/auth.go:27-31 | the credentials row of a user id is found if and only if one exists |
| EvotingAuth.AuthenticateUser | Team_MGA_Software_Package_II_evoting/internal/server/auth.go:19-45 | login succeeds if and only if the trimmed username and the password are non-empty, a credentials row exists, and its hash is the password's SHA-256; it then returns the stored role; every failure is the same InvalidCredentials |
| EvotingAuth.HashPassword | Team_MGA_Software_Package_II_evoting/internal/server/auth.go:47-56 | a password is hashed if and only if it is exactly 5 digits |
| EvotingAuth.CreatedUserCanLogIn | Team_MGA_Software_Package_II_evoting/internal/server/create_user.go:142-147 | a user just created logs in with the password given at creation and gets the role given |
| EvotingAuth.FindAfterAbsent | Team_MGA_Software_Package_II_evoting/internal/server/auth.go:27-31 | a new credentials row for an absent user id is the one found |
| EvotingSession.SameSecondSameToken | Team_MGA_Software_Package_II_evoting/internal/server/session.go:122-132 | two tokens generated in the same Unix second are equal |
| EvotingSession.Lookup | Team_MGA_Software_Package_II_evoting/internal/server/session.go:62-77 | an unknown token gives SessionNotFound; a session whose expiry has passed gives InvalidToken; at the expiry instant it is still valid |
| EvotingSession.Stored | Team_MGA_Software_Package_II_evoting/internal/server/session.go:55-58 | storing a session puts it under its token and keeps every other entry |
| EvotingSession.UnexpiredValidates | Team_MGA_Software_Package_II_evoting/internal/server/session.go:105-119 | dropping expired sessions changes no validation answer except turning InvalidToken into SessionNotFound |
| EvotingSession.SameSecondLoginsCollide | Team_MGA_Software_Package_II_evoting/internal/server/session.go:41-59 | of two logins in the same second, the later session overwrites the earlier one under the shared token |
| EvotingSession.StoredFreshKeepsOthers | Team_MGA_Software_Package_II_evoting/internal/server/session.go:55-58 | the corrected store refuses a token already in use and otherwise keeps every other session |
| EvotingSession.SessionStore.CreateSession | Team_MGA_Software_Package_II_evoting/internal/server/session.go:41-59 | the token is the one of the current second, and the session is stored under it with expiry now plus the duration |
| EvotingSession.SessionStore.CreateSessionChecked | Team_MGA_Software_Package_II_evoting/internal/server/session.go:41-59 | the corrected store: a token already in use is refused with the map unchanged; otherwise the session is added |
| EvotingSession.SessionStore.ValidateSession | Team_MGA_Software_Package_II_evoting/internal/server/session.go:62-77 | answers as Lookup; an expired session is deleted, and nothing else changes |
| EvotingSession.SessionStore.DeleteSession | Team_MGA_Software_Package_II_evoting/internal/server/session.go:79-83 | removes exactly the given token |
| EvotingSession.SessionStore.RefreshSession | Team_MGA_Software_Package_II_evoting/internal/server/session.go:86-102 | an unknown token fails with the map unchanged; an expired one fails and is deleted; a live one always succeeds, and then only its expiry changes, to now plus the duration |
| EvotingSession.SessionStore.CleanupExpired | Team_MGA_Software_Package_II_evoting/internal/server/session.go:105-119 | one sweep of the cleanup removes exactly the expired sessions |
| ServerRoutes.ExtractToken | Team_MGA_Software_Package_II_evoting/cmd/server/main.go:42-49 | an empty header gives ""; a header starting with "Bearer " gives the rest; any other header is returned unchanged |
| ServerRoutes.ExtractTokenInverse | Team_MGA_Software_Package_II_evoting/cmd/server/main.go:42-49 | a token sent as "Bearer " plus the token is extracted as itself |
| ServerRoutes.RouteElectionsParses | Team_MGA_Software_Package_II_evoting/cmd/server/main.go:317-352 | "GET /elections/{id}" routes to the ballot detail, and "/elections/{id}/{action}" to the official action on that id |
| ServerRoutes.OfficialGate | Team_MGA_Software_Package_II_evoting/cmd/server/main.go:354-368 | an official action goes ahead if and only if it is a POST (or a GET of `results`), a token is present and its session is valid, and it then runs as the session's user; otherwise 405 or 401 |
| ServerRoutes.LifecycleStatus | Team_MGA_Software_Package_II_evoting/cmd/server/main.go:374-389 | NotFound gives 404, NotAuthorized 403, AlreadyActive and AlreadyClosed 409, InvalidStatus and ElectionNotClosed 400, and anything else 500, each in both directions |
| ServerRoutes.ActionStatus | Team_MGA_Software_Package_II_evoting/cmd/server/main.go:390-425 | a successful open or close gives 204, a successful tally or results 200, an error its lifecycle status, and an unknown action 404 |
| ServerRoutes.BallotStatus | Team_MGA_Software_Package_II_evoting/cmd/server/main.go:290-313 | ElectionNotActive gives 403; the four selection errors give 400; a duplicate vote or foreign-key failure gives 409; any other error gives 500; success gives 201 |
| ServerRoutes.CreationStatus | Team_MGA_Software_Package_II_evoting/cmd/server/main.go:198-213 | too few positions or candidates give 400, a foreign-key failure 409, the blank-name errors 500, and success 204 |
| ServerRoutes.UserStatus | Team_MGA_Software_Package_II_evoting/cmd/server/main.go:155-170 | Unauthorized gives 403, an existing user 409, invalid input 400, and success 204 |
| ServerRoutes.UsersNeverForbidden | Team_MGA_Software_Package_II_evoting/cmd/server/main.go:155-170 | since user creation never reports Unauthorized, `/users` never answers 403 |
| ServerRoutes.Login | Team_MGA_Software_Package_II_evoting/cmd/server/main.go:66-106 | valid credentials give 200 and a new 24-hour session under the current second's token; invalid ones give 401 and leave the store unchanged |
| ServerRoutes.Logout | Team_MGA_Software_Package_II_evoting/cmd/server/main.go:109-122 | the session of the extracted token is deleted, and nothing else changes |
| VoterClient.StatusEnum | Team_MGA_Software_Package_II_evoting/internal/client/voter.go:198-209 | the status codes 0, 1 and 2 map to PRE, ACTIVE and POST; any other code is an error |
| VoterClient.ClientSeesStage | Team_MGA_Software_Package_II_evoting/internal/client/voter.go:198-209 | with the corrected listing code, the client's stage is the election's lifecycle stage |
| VoterClient.FetchElections | Team_MGA_Software_Package_II_evoting/internal/client/voter.go:176-221 | a status other than 200 is an error; otherwise every row is converted with its stage, or the first row with an unknown code makes it fail |
| VoterClient.BuildSelections | Team_MGA_Software_Package_II_evoting/internal/client/voter.go:252-276 | one selection per returned position, in order, with no candidate chosen |
| VoterClient.Toggle | Team_MGA_Software_Package_II_evoting/internal/client/voter.go:360-364 | choosing the chosen index clears it; choosing another index selects that index |
| VoterClient.ToggleTwice | Team_MGA_Software_Package_II_evoting/internal/client/voter.go:360-364 | choosing the same candidate twice leaves nothing chosen |
| VoterClient.ChoiceAfterInRange | Team_MGA_Software_Package_II_evoting/internal/client/voter.go:345-368 | whatever the prompts return within the menu, the chosen index stays a candidate index or none |
| VoterClient.PayloadOf | Team_MGA_Software_Package_II_evoting/internal/client/voter.go:380-388 | the payload has at most one entry per selection |
| VoterClient.PayloadMembers | Team_MGA_Software_Package_II_evoting/internal/client/voter.go:380-388 | the payload holds exactly the selections with a chosen candidate, each carrying that candidate's id |
| VoterClient.PayloadAscending | Team_MGA_Software_Package_II_evoting/internal/client/voter.go:380-388 | the payload keeps ballot order, so its positions stay in ascending order |
| VoterClient.FetchedBallotPayloadWellFormed | Team_MGA_Software_Package_II_evoting/internal/client/voter.go:223-279 | a payload built from a fetched ballot passes the server's selection checks |
| VoterClient.FetchBallot | Team_MGA_Software_Package_II_evoting/internal/client/voter.go:223-279 | a nil election is an error, and so is a status other than 200; otherwise a new ballot with one unchosen selection per position |
| VoterClient.Ballot.SelectCandidate | Team_MGA_Software_Package_II_evoting/internal/client/voter.go:345-368 | only the chosen index of that position changes, to what the prompt loop gives |
| VoterClient.Ballot.Payload | Team_MGA_Software_Package_II_evoting/internal/client/voter.go:370-413 | the ballot submitted is its payload |
| OfficialClient.NextAction | Team_MGA_Software_Package_II_evoting/internal/client/official.go:174-178 | each stage offers exactly one forward action: PRE open, ACTIVE close, POST show winners |
| OfficialClient.ActionSuffix | Team_MGA_Software_Package_II_evoting/internal/client/official.go:302-311 | the request suffix is one of `open`, `close` and `tally` |
| OfficialClient.ActionSuffixRoutes | Team_MGA_Software_Package_II_evoting/internal/client/official.go:302-311 | different stages send different suffixes, and each is routed by the server to that official action |
| OfficialClient.SuccessfulOpenCloseReportedAsError | Team_MGA_Software_Package_II_evoting/internal/client/official.go:324-327 | a successful open or close is answered 204, which the client as written does not accept |
| OfficialClient.AcceptedIffSucceeded | Team_MGA_Software_Package_II_evoting/internal/client/official.go:324-327 | with the corrected check, a request is accepted if and only if the server's operation succeeded |
| OfficialClient.AcceptedAsWritten | Team_MGA_Software_Package_II_evoting/internal/client/official.go:324-327 | the client as written accepts only status 200; SuccessfulOpenCloseReportedAsError shows that a successful open or close is therefore reported as a failure |
| OfficialClient.Accepted | Team_MGA_Software_Package_II_evoting/internal/client/official.go:324-327 | the corrected check: 204 for open and close, 200 for tally and results; AcceptedIffSucceeded proves it accepts exactly the successful operations |
| OfficialClient.SelectedElection.RunAction | Team_MGA_Software_Package_II_evoting/internal/client/official.go:172-240 | going forward from PRE sends `open`; from ACTIVE it sends `close`, forces the stage to POST and sends `tally`; from POST it fetches results; other choices send nothing. Each answer is reported as a success only when it is 200 (lines 254, 324-327), so a successful open or close is reported as an error |
| OfficialClient.FirstWithId | Team_MGA_Software_Package_II_evoting/internal/client/official.go:267-274 | the candidate with the winner's id is found if and only if one exists |
| OfficialClient.LinesAreWinners | Team_MGA_Software_Package_II_evoting/internal/client/official.go:242-296 | every line printed belongs to a position and names that position's recorded winner with its votes |
| OfficialClient.WinnerLinesAsWritten | Team_MGA_Software_Package_II_evoting/internal/client/official.go:267-274 | as written, the display needs every position to have a recorded winner |
| OfficialClient.TallyWithoutVotesBreaksDisplay | Team_MGA_Software_Package_II_evoting/internal/client/official.go:267-274 | a position with candidates but no votes has no winner after the tally, so the display as written fails on it |
| OfficialClient.WinnerLines | Team_MGA_Software_Package_II_evoting/internal/client/official.go:242-296 | the corrected display skips positions without a winner and prints the winners' lines |
| ThermoSession.Lookup | MGA/Backend/internal/auth/session_store.go:36-48 | an unknown token gives "invalid token"; a session past its expiry gives "token expired"; otherwise the stored session, which has not expired |
| ThermoSession.CreatedSessionLives | MGA/Backend/internal/auth/session_store.go:19-48 | a session created with the store's TTL is returned up to its expiry and reported expired after it |
| ThermoSession.ExpiredThenInvalid | MGA/Backend/internal/auth/session_store.go:41-46 | once an expired session has been removed by a lookup, its token is unknown |
| ThermoSession.RevokeOnlyThat | MGA/Backend/internal/auth/session_store.go:50-54 | after a revoke the token is unknown, and every other token is answered as before |
| ThermoSession.SessionStore.Create | MGA/Backend/internal/auth/session_store.go:19-34 | without a token it fails with the map unchanged; otherwise the session holds the given fields and expires at now plus the TTL fixed at construction, and it is stored under its token |
| ThermoSession.SessionStore.Get | MGA/Backend/internal/auth/session_store.go:36-48 | answers as Lookup; an expired session is deleted; a live one is returned and the map stays as it was |
| ThermoSession.SessionStore.Revoke | MGA/Backend/internal/auth/session_store.go:50-54 | removes exactly the given token |
| ThermoTables.ByUsername | MGA/Backend/internal/database/users.go:42-49 | the user with a username is found if and only if one exists |
| ThermoTables.ByUsernameAppend | MGA/Backend/internal/database/users.go:28-49 | after a user with a new username is added, lookups find it by that name and answer every other name as before |
| ThermoTables.ById | MGA/Backend/internal/database/users.go:68-75 | the user with an id is found if and only if one exists |
| ThermoTables.ByIdOfRow | MGA/Backend/internal/database/users.go:68-75 | the first row with an id is the one found |
| ThermoTables.UsersRepository.Create | MGA/Backend/internal/database/users.go:28-40 | a taken username fails, leaving the table unchanged; otherwise one row with the next id and the given fields is added and its id returned |
| ThermoTables.UsersRepository.Delete | MGA/Backend/internal/database/users.go:94-97 | removes exactly the user with that id |
| ThermoTables.WithoutUser | MGA/Backend/internal/database/users.go:94-97 | the rows left are exactly those with another id |
| ThermoTables.WithoutUserValid | MGA/Backend/internal/database/users.go:94-97 | deleting a user keeps ids and usernames unique |
| ThermoTables.AttemptLog.Log | MGA/Backend/internal/api/auth.go:213-225 | one login attempt with the given username, role and outcome is appended |
| ThermoAuth.HomeownerDecision | MGA/Backend/internal/api/auth.go:28-42 | homeowner login succeeds if and only if the user exists, is a homeowner, and has a password hash that matches; the session then carries homeowner id 0; every refusal is 401 |
| ThermoAuth.GuestDecision | MGA/Backend/internal/api/auth.go:66-92 | guest login succeeds if and only if the user exists, is a guest, has a matching PIN and is linked to a homeowner, whose id the session carries; the homeowner field of the request plays no part; a missing link is 403, every other refusal 401 |
| ThermoAuth.TechnicianTarget | MGA/Backend/internal/api/auth.go:119-160 | the target is reached if and only if the technician's credentials hold and the named homeowner exists with the homeowner role; a credential failure is 401, a bad target 403 |
| ThermoAuth.TechnicianDecision | MGA/Backend/internal/api/auth.go:119-169 | technician login succeeds if and only if the target is reached and an access window for that pair covers now, inclusively; the session then carries that homeowner's id; a closed window is 403 |
| ThermoAuth.Conclude | MGA/Backend/internal/api/auth.go:42-51 | exactly one attempt is logged, successful only when a session is created; a refusal answers its code; a missing token answers 500; otherwise a session with the decided fields and the store's TTL is stored under the token |
| ThermoAuth.LoginHomeowner | MGA/Backend/internal/api/auth.go:16-52 | any method but POST gives 405 and touches nothing; otherwise the outcome follows HomeownerDecision, with exactly one attempt logged |
| ThermoAuth.LoginGuest | MGA/Backend/internal/api/auth.go:54-102 | any method but POST gives 405 and touches nothing; otherwise the outcome follows GuestDecision, with exactly one attempt logged |
| ThermoAuth.LoginTechnician | MGA/Backend/internal/api/auth.go:104-181 | other methods give 405; otherwise the outcome follows TechnicianDecision, with exactly one attempt logged; once the target is reached, the window check purges the expired windows |
| ThermoAuth.DecideTechnician | MGA/Backend/internal/api/auth.go:119-169 | the decision is TechnicianDecision over the access table as it stood before; the table loses its expired windows exactly when the technician and homeowner were found |
| ThermoAuth.Signup | MGA/Backend/internal/api/auth.go:184-210 | signup creates a homeowner if and only if the request is a POST with a non-empty username and password, the hash succeeds, and the name is free; an empty field is 400, a hashing failure 500, a taken name 409, and a failure adds nothing |
| ThermoAuth.SignedUpHomeownerCanLogIn | MGA/Backend/internal/api/auth.go:184-210 | a homeowner who has just signed up logs in with the same password |
| ThermoApi.SessionFromContext | MGA/Backend/internal/api/schedules.go:14-24 | the session is returned if and only if the context holds one; no value and a value of another type give different errors |
| ThermoApi.EffectiveHomeowner | MGA/Backend/internal/api/HVAC.go:21-24 | a homeowner acts for themself, and anyone else for their session's homeowner |
| ThermoApi.HomeownerForSession | MGA/Backend/internal/api/sensors.go:98-113 | a homeowner gets their own id; anyone else gets their session's homeowner id, valid only when it is not 0 |
| ThermoApi.OwnershipForGuest | MGA/Backend/internal/api/access_control.go:25-28 | a guest linked to a homeowner gives that homeowner and true; anyone else gives (0, false) |
| ThermoApi.TechnicianAllowed | MGA/Backend/internal/api/access_control.go:20-22 | the answer is the access-window check at now, which also purges expired windows |
| ThermoServer.Cors | MGA/Backend/internal/api/server.go:184-201 | CORS headers are set if and only if the origin is http or https localhost:3000 or empty; the allowed origin is always http://localhost:3000; OPTIONS is answered 204 |
| ThermoServer.CorsEchoesOnlyPlainOrigin | MGA/Backend/internal/api/server.go:186-194 | the allowed origin equals the request's origin only for http://localhost:3000 |
| ThermoServer.BearerToken | MGA/Backend/internal/api/server.go:215-220 | a token is taken if and only if the header starts with "Bearer ", and the header is the prefix followed by the token |
| ThermoServer.BearerVariantsAgree | MGA/Backend/internal/api/server.go:232-250 | the Gin middleware's length-and-prefix test takes the same token from every header |
| ThermoServer.BearerTokenGin | MGA/Backend/internal/api/server.go:232-240 | requireAuthGin's token: none for an empty header, one shorter than 7 or one whose first 7 characters are not `Bearer `, else the rest; BearerVariantsAgree proves it agrees with BearerToken |
| ThermoServer.RequireAuth | MGA/Backend/internal/api/server.go:213-229 | no bearer prefix gives 401 "missing token"; an unknown or expired token gives 401 "invalid token"; otherwise the live session for that token is passed on; at most the expired token is removed |
| ThermoServer.GrantTechnician | MGA/Backend/internal/api/server.go:283-288 | an end not after the start is refused with nothing stored; otherwise one window is added and its id returned |
| ThermoServer.CreateGuest | MGA/Backend/internal/api/server.go:267-273 | a guest linked to the homeowner, with the hashed PIN, is added if and only if hashing succeeds and the name is free |
| ThermoServer.CreateTechnician | MGA/Backend/internal/api/server.go:275-281 | a technician with the hashed password is added if and only if hashing succeeds and the name is free |
| ThermoServer.MustHash | MGA/Backend/internal/api/server.go:314-321 | the hash of the text, or the text itself when hashing fails |
| ThermoServer.SeedQuickStart | MGA/Backend/internal/api/server.go:291-312 | nothing happens when "Logan" exists; otherwise the homeowner, technician and guest are created in that order, stopping at the first taken name; when all three names are free, a window from an hour ago to 24 hours ahead is granted too |
| ThermoServer.SeedStaff | MGA/Backend/internal/api/server.go:303-310 | Matt is created unless the name is taken, then Mike unless his is; each failure stops the seeding and keeps what was created |
| ThermoServer.SeedLookup | MGA/Backend/internal/api/server.go:291-312 | after seeding, the three seeded names find the seeded users and every other name is answered as before |
| ThermoServer.SeededTechnicianCanLogIn | MGA/Backend/internal/api/server.go:291-312 | the seeded technician logs in for the seeded homeowner at any time inside the seeded window |
| ThermoServer.SeededGuestCanLogIn | MGA/Backend/internal/api/server.go:291-312 | the seeded guest logs in with the seeded PIN and acts for the seeded homeowner |
| SystemState.ValueOf | MGA/Backend/internal/database/system_state.go:12-20 | a key is found if and only if it is stored, with its stored value; a missing key gives "" and false |
| SystemState.SetThenGet | MGA/Backend/internal/database/system_state.go:12-25 | after a set, the key reads back the new value and every other key reads as before |
| SystemState.SetTwice | MGA/Backend/internal/database/system_state.go:22-25 | the upsert keeps only the last value written |
| SystemState.SystemStateRepository.Get | MGA/Backend/internal/database/system_state.go:12-20 | answers as ValueOf |
| SystemState.SystemStateRepository.Set | MGA/Backend/internal/database/system_state.go:22-25 | inserts or overwrites exactly that key |
| TechnicianAccess.Unexpired | MGA/Backend/internal/database/technician_access.go:72-76 | the rows kept are exactly those whose end is not before now |
| TechnicianAccess.CountAllowingIff | MGA/Backend/internal/database/technician_access.go:34-37 | the count is positive if and only if some window for that homeowner and technician has start <= now <= end |
| TechnicianAccess.PurgeKeepsAllowed | MGA/Backend/internal/database/technician_access.go:27-38 | purging expired windows first never changes the answer of the window check |
| TechnicianAccess.OfHomeowner | MGA/Backend/internal/database/technician_access.go:40-55 | the rows kept are exactly the homeowner's |
| TechnicianAccess.ListingCorrect | MGA/Backend/internal/database/technician_access.go:40-55 | the listing is a permutation of the homeowner's windows, ordered by start time, latest first |
| TechnicianAccess.WithoutAccess | MGA/Backend/internal/database/technician_access.go:66-69 | the rows kept are exactly those with another id |
| TechnicianAccess.AccessById | MGA/Backend/internal/database/technician_access.go:57-64 | a window is found if and only if one has that id, and it is a stored window with that id |
| TechnicianAccess.TechnicianAccessRepository.Grant | MGA/Backend/internal/database/technician_access.go:21-25 | appends one window with the next id, an id no stored window has, and returns that id |
| TechnicianAccess.TechnicianAccessRepository.DeleteExpired | MGA/Backend/internal/database/technician_access.go:72-76 | leaves exactly the unexpired windows |
| TechnicianAccess.TechnicianAccessRepository.IsAllowedNow | MGA/Backend/internal/database/technician_access.go:27-38 | purges the expired windows and answers whether a window for the pair covers now |
| TechnicianAccess.TechnicianAccessRepository.ListForHomeowner | MGA/Backend/internal/database/technician_access.go:40-55 | answers the homeowner's listing |
| TechnicianAccess.TechnicianAccessRepository.GetById | MGA/Backend/internal/database/technician_access.go:57-64 | answers as AccessById |
| TechnicianAccess.TechnicianAccessRepository.Revoke | MGA/Backend/internal/database/technician_access.go:66-69 | removes exactly the window with that id |
| TechnicianHandlers.ActiveIsAllowed | MGA/Backend/internal/api/technician.go:50-54 | a window shown as active lets the technician log in, but at its very start a technician may log in while it is shown inactive; the two tests differ only at the two ends |
| TechnicianHandlers.IsActive | MGA/Backend/internal/api/technician.go:50-54 | a window is shown active strictly between its start and its end; ActiveIsAllowed compares it with the login check |
| TechnicianHandlers.Views | MGA/Backend/internal/api/technician.go:41-64 | one view per window, in order, with the technician's name and the active flag |
| TechnicianHandlers.ShownIsCallersLive | MGA/Backend/internal/api/technician.go:28-35 | the windows shown are exactly the caller's unexpired ones, latest start first |
| TechnicianHandlers.ListAccess | MGA/Backend/internal/api/technician.go:15-66 | without a session 401, a non-homeowner 403, both changing nothing; a homeowner gets 200 with the views of their unexpired windows, and the expired windows are purged |
| TechnicianHandlers.GrantAccess | MGA/Backend/internal/api/technician.go:68-128 | 201 if and only if a homeowner names an existing technician and gives a start and an end after it; then one window for that pair is added with the next id; 401 without a session, 403 for others, 404 for an unknown technician, 400 for missing or inverted times; every failure changes nothing |
| TechnicianHandlers.RevokeAccess | MGA/Backend/internal/api/technician.go:130-168 | 200 if and only if a homeowner names a positive id of a window that is theirs, which is then removed; 401, 403, 400 for a bad id and 404 for an unknown one otherwise, changing nothing |
| TechnicianHandlers.TechnicianViews | MGA/Backend/internal/api/technician.go:193-201 | one id, username and role view per technician, in order |
| TechnicianHandlers.Technicians | MGA/Backend/internal/database/users.go:77-92 | exactly the users with the technician role |
| TechnicianHandlers.ListTechnicians | MGA/Backend/internal/api/technician.go:175-203 | 401 without a session, 403 for anyone but a homeowner, otherwise 200 with every technician |
| GuestVerification.FirstByToken | MGA/Backend/internal/database/guest_verification.go:25-34 | a request is found if and only if one has that token, and it is a stored request with that token |
| GuestVerification.WithStatus | MGA/Backend/internal/database/guest_verification.go:36-39 | every request with the token gets the new status and the others stay as they were |
| GuestVerification.WithStatusFound | MGA/Backend/internal/database/guest_verification.go:25-39 | after a status update, a lookup of that token finds the same request with the new status, and other tokens are found as before |
| GuestVerification.HashedPinRejectedAsWritten | MGA/Backend/internal/api/guest_verification.go:191-206 | a guest whose bcrypt-hashed PIN lets them log in is still refused by the plaintext comparison when the PIN is not stored in the clear (see Findings) |
| GuestVerification.PinValidAsWritten | MGA/Backend/internal/api/guest_verification.go:191-206 | the PIN check as written: the guest exists and the PIN equals the stored column as plain text; the handler uses it, and HashedPinRejectedAsWritten shows it refuses a guest whose PIN is stored hashed |
| GuestVerification.PinValid | MGA/Backend/internal/api/guest_verification.go:191-206 | the corrected PIN check against the stored hash; GuestWhoCanLogInPassesPin proves that every guest who can log in passes it |
| GuestVerification.GuestWhoCanLogInPassesPin | MGA/Backend/internal/api/guest_verification.go:191-206 | with the PIN checked against its hash, every guest who can log in passes the verification PIN check |
| GuestVerification.VerifyStep | MGA/Backend/internal/api/guest_verification.go:104-139 | 400 if and only if the token is empty or the action is not approve or deny; 404 if and only if no request has the token; 410 if and only if it has expired, and then it is marked denied; otherwise 200 and it is marked approved or denied as asked; 400 and 404 change nothing |
| GuestVerification.StatusStep | MGA/Backend/internal/api/guest_verification.go:142-175 | 400 if and only if the token is empty, 404 if and only if it is unknown, and neither changes anything; an expired pending request is reported and stored as denied; an approved request hands out the drawn token if and only if one was drawn, and is then stored and reported as consumed; any other status is reported as stored |
| GuestVerification.TokenHandedOutOnce | MGA/Backend/internal/api/guest_verification.go:162-171 | once an auth token has been handed out, every later status query answers consumed with no token and changes nothing |
| GuestVerification.ReapprovalHandsOutAgain | MGA/Backend/internal/api/guest_verification.go:104-175 | a consumed request that has not expired can be approved again through the same link and then hands out a second token |
| GuestVerification.RequestLifecycle | MGA/Backend/internal/api/guest_verification.go:39-175 | a new pending request approved within ten minutes hands out a token on the next status query; approved later, it answers 410 and the status query reports denied |
| GuestVerification.FirstOfAppended | MGA/Backend/internal/database/guest_verification.go:19-34 | a request with a fresh token is found once it is appended |
| GuestVerification.VerificationStore.Create | MGA/Backend/internal/database/guest_verification.go:19-23 | appends one pending request with the next id and the given fields |
| GuestVerification.VerificationStore.Get | MGA/Backend/internal/database/guest_verification.go:25-34 | answers as FirstByToken |
| GuestVerification.VerificationStore.SetStatus | MGA/Backend/internal/database/guest_verification.go:36-39 | sets the status of the requests with that token |
| GuestVerification.RequestVerification | MGA/Backend/internal/api/guest_verification.go:39-101 | 200 "pending" if and only if both names are given, the guest exists, the PIN passes validateGuestPin's plain-text comparison (lines 191-206), the homeowner exists and a token was drawn; then one pending request expiring ten minutes from now is stored; 400 for a missing field or unknown user, 401 for a PIN that fails that comparison, 500 without a token; a failure stores nothing |
| GuestVerification.Verify | MGA/Backend/internal/api/guest_verification.go:104-139 | code and new requests are those of VerifyStep |
| GuestVerification.Status | MGA/Backend/internal/api/guest_verification.go:142-175 | reply and new requests are those of StatusStep |
| GuestHandlers.GuestsOf | MGA/Backend/internal/database/users.go:51-66 | exactly the guests linked to the homeowner |
| GuestHandlers.GuestViews | MGA/Backend/internal/api/guests.go:41-50 | one id, username and role view per guest, in order, with no PIN |
| GuestHandlers.ListGuests | MGA/Backend/internal/api/guests.go:17-52 | 401 without a session, 403 for a guest, otherwise 200 with the guests of the homeowner the caller acts for |
| GuestHandlers.CreateGuest | MGA/Backend/internal/api/guests.go:54-104 | 201 if and only if a non-guest gives a username and a PIN, hashing succeeds and the name is free; then a guest with the hashed PIN, linked to the homeowner the caller acts for, is added with the next id; 401, 403, 400, 500 and 409 otherwise, adding nothing |
| GuestHandlers.CreatedGuestCanLogIn | MGA/Backend/internal/api/guests.go:86-103 | a guest just created logs in with that PIN and acts for that homeowner |
| GuestHandlers.DeleteGuest | MGA/Backend/internal/api/guests.go:106-149 | 200 if and only if a non-guest names a positive id of a guest linked to the homeowner they act for, who is then removed; 401, 400 for a bad id, 404 for an unknown id and 403 for a guest caller or someone else's user, removing nothing |
| GuestHandlers.DeletedGuestLockedOut | MGA/Backend/internal/api/guests.go:143-148 | a deleted user can no longer log in as a guest |
| ProfileHandlers.ProfilesOfCorrect | MGA/Backend/internal/database/profiles.go:42-57 | the listing holds exactly the homeowner's profiles, each as often as stored, ordered by name |
| ProfileHandlers.CreatedProfileListed | MGA/Backend/internal/database/profiles.go:25-57 | a profile just added is listed for its homeowner, and every other homeowner's listing is unchanged |
| ProfileHandlers.WithoutProfile | MGA/Backend/internal/database/profiles.go:59-62 | the rows kept are exactly those with another id |
| ProfileHandlers.ProfilesRepository.Create | MGA/Backend/internal/database/profiles.go:25-40 | appends one profile with the next id and the given fields |
| ProfileHandlers.ProfilesRepository.Delete | MGA/Backend/internal/database/profiles.go:59-62 | removes exactly the profile with that id |
| ProfileHandlers.ListProfiles | MGA/Backend/internal/api/profiles.go:12-35 | 401 without a session, 403 when the caller acts for no homeowner, otherwise 200 with that homeowner's profiles |
| ProfileHandlers.CreateProfile | MGA/Backend/internal/api/profiles.go:37-89 | 201 if and only if a non-guest acting for a homeowner gives a name that is not blank once trimmed and a target from 40 to 95 degrees; then the profile with the trimmed name is added with the next id; 401, 403 or 400 otherwise, adding nothing |
| ProfileHandlers.DeleteProfile | MGA/Backend/internal/api/profiles.go:91-116 | 200 if and only if a non-guest gives a positive id, and then that profile is removed whoever owns it; 401, 403 or 400 otherwise, removing nothing |
| ProfileHandlers.ForeignProfileDeleted | MGA/Backend/internal/api/profiles.go:98-115 | any stored profile, another homeowner's included, disappears from its owner's listing after a delete by id |
| ScheduleHandlers.AllSchedulesCorrect | MGA/Backend/internal/database/schedules.go:33-44 | the listing is a permutation of all schedules of every homeowner, ordered by start time |
| ScheduleHandlers.WithoutSchedule | MGA/Backend/internal/database/schedules.go:46-49 | the rows kept are exactly those with another id |
| ScheduleHandlers.SchedulesRepository.Create | MGA/Backend/internal/database/schedules.go:23-31 | appends one schedule with the next id and the given fields |
| ScheduleHandlers.SchedulesRepository.Delete | MGA/Backend/internal/database/schedules.go:46-49 | removes exactly the schedule with that id |
| ScheduleHandlers.ListSchedules | MGA/Backend/internal/api/schedules.go:27-42 | 401 without a session, otherwise 200 with every schedule |
| ScheduleHandlers.ScheduleVisibleToAll | MGA/Backend/internal/api/schedules.go:27-42 | a schedule just created is in the listing every signed-in user gets |
| ScheduleHandlers.CreateSchedule | MGA/Backend/internal/api/schedules.go:45-91 | 200 if and only if a non-guest sends a body with its required fields, and then the schedule is added for the homeowner the caller acts for, with the next id; 401, 403 or 400 otherwise, adding nothing |
| ScheduleHandlers.RequiredPresent | MGA/Backend/internal/api/schedules.go:65-74 | Gin's required binding: the name and start time are non-empty and the target is not 0; CreateSchedule answers a signed-in non-guest 400 when it fails |
| ScheduleHandlers.DeleteSchedule | MGA/Backend/internal/api/schedules.go:94-122 | 200 if and only if a non-guest gives a positive id, and then that schedule is removed whoever owns it; 401, 403 or 400 otherwise, removing nothing |
| NewestFirst.RecentOrdered | MGA/Backend/internal/database/sensors.go:33-44 | the recent list has min(limit, rows) entries, all stored, newest first |
| NewestFirst.RecentKeepsNewest | MGA/Backend/internal/database/hvac.go:30-45 | no row left out is newer than a row listed, and below the limit every row is listed |
| Climate.LatestIsNewest | MGA/Backend/internal/database/sensors.go:46-54 | there is no latest reading if and only if the homeowner has none; otherwise it is one of theirs and none of theirs is newer |
| Climate.Touch | MGA/Backend/internal/database/sensors.go:28-31 | the reading with the id gets the new values and timestamp, and every other reading is kept |
| Climate.TouchValid | MGA/Backend/internal/database/sensors.go:28-31 | an update keeps reading ids unique and below the next id |
| Climate.SensorsRepository.Insert | MGA/Backend/internal/database/sensors.go:22-26 | appends one reading with the next id, timestamped now |
| Climate.SensorsRepository.UpdateById | MGA/Backend/internal/database/sensors.go:28-31 | the readings become those of Touch |
| Climate.HvacRepository.Insert | MGA/Backend/internal/database/hvac.go:22-28 | appends one event with the next id, timestamped now |
| Climate.HvacRepository.CountByHomeowner | MGA/Backend/internal/database/hvac.go:47-54 | the number of the homeowner's events |
| SensorHandlers.GetSensorsRecent | MGA/Backend/internal/api/sensors.go:15-40 | 401 without a session, changing nothing; otherwise 200 with the 50 newest readings of the session's homeowner id; one reading of the sample is inserted first when that homeowner has none, and nothing is inserted otherwise |
| SensorHandlers.SeededReadingShown | MGA/Backend/internal/api/sensors.go:29-36 | a homeowner with no readings is shown exactly the reading seeded for them |
| SensorHandlers.HomeownerListingMissesOwnReadings | MGA/Backend/internal/api/sensors.go:22 | a homeowner's session carries homeowner id 0, so the listing never shows the readings stored under the homeowner's own id |
| SensorHandlers.EventAddsKilowatts | MGA/Backend/internal/api/sensors.go:133-141 | each HVAC event of the homeowner adds 20 kWh to the reported use, and another homeowner's event adds nothing |
| SensorHandlers.GetEnergy | MGA/Backend/internal/api/sensors.go:115-142 | 401 without a session; 403 if and only if the caller is neither homeowner nor technician or acts for no homeowner; otherwise 200 with 20 kWh per HVAC event of that homeowner |
| HvacHandler.HvacGet | MGA/Backend/internal/api/HVAC.go:29-54 | the mode reported is never empty |
| HvacHandler.GetDefaults | MGA/Backend/internal/api/HVAC.go:30-48 | with nothing stored the state is off, 72 target, 72 current |
| HvacHandler.GetReportsNewestReading | MGA/Backend/internal/api/HVAC.go:40-48 | with no stored current temperature, the current temperature is that of the homeowner's newest reading |
| HvacHandler.ChooseMode | MGA/Backend/internal/api/HVAC.go:96-107 | cool below the current temperature, heat above it; at equality the stored mode when there is a non-empty one, off otherwise; never empty |
| HvacHandler.PostedReadingIsLatest | MGA/Backend/internal/api/HVAC.go:64-94 | after a post the homeowner's newest reading holds the target, whether a reading was updated or inserted |
| HvacHandler.GetAfterPost | MGA/Backend/internal/api/HVAC.go:109-128 | a read after a post reports the posted mode, with target and current both the posted target |
| HvacHandler.RepeatedPostKeepsMode | MGA/Backend/internal/api/HVAC.go:96-107 | posting the same target twice picks the same mode the second time |
| HvacHandler.HandleHvacState | MGA/Backend/internal/api/HVAC.go:15-132 | 401 without a session; GET reads the state of the homeowner the caller acts for and changes nothing; POST without a body is 400; POST updates the newest reading or inserts one, stores target, current and mode, and logs one event with that mode in state on; any other method is 405; every failure changes nothing |
| DiagnosticsHandlers.RecentLogsOfHomeowner | MGA/Backend/internal/database/diagnostics.go:27-44 | the recent logs are all the homeowner's, and are empty only when the homeowner has none |
| DiagnosticsHandlers.DiagnosticsRepository.Insert | MGA/Backend/internal/database/diagnostics.go:21-25 | appends one log with the next id |
| DiagnosticsHandlers.GetDiagnostics | MGA/Backend/internal/api/diagnostics.go:15-55 | 401 without a session; 403 if and only if the caller is a guest or a homeowner; otherwise 200 with the recent logs of the session's homeowner, and one INFO "System created successfully." log is inserted first when that homeowner has none; a failure changes nothing |
| DiagnosticsHandlers.SeededLogShown | MGA/Backend/internal/api/diagnostics.go:37-50 | a homeowner with no logs is shown exactly the seeded log |
| DiagnosticsHandlers.CreateDiagnostic | MGA/Backend/internal/api/diagnostics.go:57-108 | 201 if and only if a technician acting for a homeowner sends a message and a level of INFO, WARN or ERROR, and then one log is added with the next id; 401, 403 or 400 otherwise, adding nothing |
| DiagnosticsHandlers.CreatedLogListedFirst | MGA/Backend/internal/api/diagnostics.go:96-107 | a log newer than all of the homeowner's earlier ones heads their recent list |
| DashboardSchedule.MatchClock | MGA/Frontend/components/dashboards/homeowner-dashboard.tsx:79-90 | a matched H:MM or H:MM:SS time has hours, minutes and seconds below 100 |
| DashboardSchedule.ClockRoundTrip | MGA/Frontend/components/dashboards/homeowner-dashboard.tsx:79-83 | every time of day written as HH:MM:SS is read back as the same hours, minutes and seconds |
| DashboardSchedule.AtMostOneDailyInstantPerWindow | MGA/Frontend/components/dashboards/technician-dashboard.tsx:85-107 | a daily schedule gives today's and yesterday's instants, a day apart, so a poll window shorter than a day holds at most one of them |
| DashboardSchedule.DueCorrect | MGA/Frontend/components/dashboards/homeowner-dashboard.tsx:123-136 | the due list holds exactly the candidates with lastCheck < t <= now, each as often as it arises, earliest first |
| DashboardSchedule.ConsecutivePollsDisjoint | MGA/Frontend/components/dashboards/homeowner-dashboard.tsx:118-149 | two polls in a row never apply the same instant: everything due in the first is earlier than everything due in the second |
| DashboardSchedule.LastApplied | MGA/Frontend/components/dashboards/homeowner-dashboard.tsx:138-144 | the state kept is that of the last call that succeeded; none if and only if every call failed |
| DashboardSchedule.ScheduleRunner.constructor | MGA/Frontend/components/dashboards/homeowner-dashboard.tsx:69-74 | the last check starts at the given instant |
| DashboardSchedule.ScheduleRunner.ApplyIfDue | MGA/Frontend/components/dashboards/homeowner-dashboard.tsx:104-153 | the last check moves to now; with no rows nothing is applied; otherwise the due targets are applied in order, "applied" says whether any was due, and the state returned is that of the last successful call |
| DashboardDisplay.DisplayMode | MGA/Frontend/components/dashboards/homeowner-dashboard.tsx:227-233 | heat shows heating, cool shows cooling, fan shows fan, and anything else shows off |
| DashboardDisplay.PostedModeDisplayed | MGA/Frontend/components/dashboards/technician-dashboard.tsx:187 | the dial shows cooling after a target below the current temperature, heating after one above, and off at equality with no stored mode |
| DashboardDisplay.AdjustTemp | MGA/Frontend/components/dashboards/homeowner-dashboard.tsx:348-355 | the new target stays within 60 to 85 and is the requested one when that is in range, otherwise the nearer bound |
| DashboardDisplay.AdjustTempMonotone | MGA/Frontend/components/dashboards/technician-dashboard.tsx:251-255 | a larger step never gives a lower target, and a zero step keeps an in-range target |
| DashboardDisplay.AdjustTempUndo | MGA/Frontend/components/dashboards/homeowner-dashboard.tsx:348-355 | a step up that stays in range is undone by the same step down |
| Chatbot.Wear | thermostat_vulnerable/Frontend/components/ai-chatbot.tsx:27-39 | chilly advice up to 40, light jacket up to 60, mild up to 80, hot above, with 60 used when no outdoor temperature is known |
| Chatbot.FirstMention | thermostat_vulnerable/Frontend/components/ai-chatbot.tsx:78-80 | the index found is the first preset with a keyword in the prompt; none if and only if no preset has one |
| Chatbot.PresetsNeverFallBack | thermostat_vulnerable/Frontend/components/ai-chatbot.tsx:23-65 | no preset answers with the fallback text |
| Chatbot.AnswerIsFirstMention | thermostat_vulnerable/Frontend/components/ai-chatbot.tsx:76-85 | the answer is the fallback if and only if no preset has a keyword in the prompt, and otherwise it is the reply of the first preset that has one |
| Chatbot.FallbackIffNoKeyword | thermostat_vulnerable/Frontend/components/ai-chatbot.tsx:76-85 | for the built-in presets, on the trimmed lower-cased prompt: the fallback if and only if no keyword is mentioned, else the first matching preset's reply |
| Chatbot.FindResponse | thermostat_vulnerable/Frontend/components/ai-chatbot.tsx:76-85 | the reply of the first preset whose keyword the trimmed lower-cased prompt mentions, else the fallback; AnswerIsFirstMention and FallbackIffNoKeyword prove it |
| Chatbot.WearQuestionGetsAdvice | thermostat_vulnerable/Frontend/components/ai-chatbot.tsx:23-39 | a prompt that mentions "wear" gets the clothing advice for the outdoor temperature |
| Chatbot.ChatLog.constructor | thermostat_vulnerable/Frontend/components/ai-chatbot.tsx:68-73 | the log starts with the assistant's greeting alone |
| Chatbot.ChatLog.Ask | thermostat_vulnerable/Frontend/components/ai-chatbot.tsx:87-95 | a blank question changes nothing; otherwise the trimmed question and the bot's answer to it are appended |
| Chatbot.AskKeepsAlternating | thermostat_vulnerable/Frontend/components/ai-chatbot.tsx:87-95 | asking keeps the log alternating between assistant and user, starting with the assistant |
| SignIn.Classify | thermostat_vulnerable/Frontend/components/sign-in-page.tsx:47-66 | a thrown value that is not an Error gives the generic message; otherwise 401 wins, then 403 refined by "homeowner not found" and then "access window", then 400, and anything else is shown with its text |
| SignIn.FailuresCount | thermostat_vulnerable/Frontend/components/sign-in-page.tsx:67-73 | n failures in a row add n to the counter, and the overlay is up exactly when it was up already or the counter reaches 6 |
| SignIn.Ready | thermostat_vulnerable/Frontend/components/sign-in-page.tsx:29-42 | a homeowner needs a username and secret, a technician or guest also a homeowner; HandleSignIn sends nothing and changes no counter when they are missing |
| SignIn.AfterAttempt | thermostat_vulnerable/Frontend/components/sign-in-page.tsx:43-73 | a success clears the counter; a failure adds one and raises the overlay at 6; FailuresCount and SuccessResets prove it over runs of attempts |
| SignIn.SuccessResets | thermostat_vulnerable/Frontend/components/sign-in-page.tsx:43-44 | a success clears the counter, and an overlay once shown stays up |
| SignIn.SignInPage.constructor | thermostat_vulnerable/Frontend/components/sign-in-page.tsx:15-21 | no role, empty fields, a zero counter, no overlay and no navigation |
| SignIn.SignInPage.SelectRole | thermostat_vulnerable/Frontend/components/sign-in-page.tsx:23-27 | the role becomes the one picked, and the fields are cleared if and only if the role changed |
| SignIn.SignInPage.Fill | thermostat_vulnerable/Frontend/components/sign-in-page.tsx:168-198 | the three fields take the typed values and nothing else changes |
| SignIn.SignInPage.HandleSignIn | thermostat_vulnerable/Frontend/components/sign-in-page.tsx:29-77 | without a role or with a required field empty, nothing is sent and nothing changes; otherwise one login call is made, a success clears the counter and goes to the role's dashboard, and a failure counts and shows the classified alert, or the overlay from the sixth failure on |
| DashboardGuard.WithoutKey | MGA/Frontend/middleware.ts:10 | the pairs kept are exactly those with another key |
| DashboardGuard.SetParamCorrect | MGA/Frontend/middleware.ts:10 | after a set the key occurs once, with the new value, and every pair with another key is kept |
| DashboardGuard.Guard | MGA/Frontend/middleware.ts:4-15 | a redirect happens if and only if the token is missing or empty and the path starts with /dashboard; it goes to / on the same origin, keeping the fragment |
| DashboardGuard.RedirectSettles | MGA/Frontend/middleware.ts:7-11 | the page a redirect leads to is not guarded, is let through even without a token, and carries reason=auth |
| DashboardGuard.MatchedPathsNeedToken | MGA/Frontend/middleware.ts:17-19 | on every path the middleware is configured for, it redirects exactly when the token is missing or empty |
| AtmValidation.ParseAmount | utils/utils.go:19-34 | an amount is accepted if and only if the trimmed text parses to a number above zero, and it is that number |
| AtmValidation.SixDigitPinsValid | utils/utils.go:36-42 | every number below a million written with six digits, leading zeros included, is a valid PIN and stands for that number |
| AtmValidation.ValidatePIN | utils/utils.go:36-42 | a PIN is exactly six decimal digits; SixDigitPinsValid proves that every six-digit number passes |
| AtmValidation.NamesCompose | utils/utils.go:44-50 | two valid names joined by a space make a valid name, and text holding a digit or a hyphen is refused |
| AtmValidation.ValidateName | utils/utils.go:44-50 | a name is non-empty and made of ASCII letters and whitespace only; NamesCompose proves that names compose and that a digit or a hyphen is refused |
| AtmValidation.DateAcceptedIff | utils/utils.go:52-58 | MM/DD/Y is accepted if and only if the month is 1-12, the day 1-31 and the year 2 to 4 digits |
| AtmValidation.ValidateDate | utils/utils.go:52-58 | a date matches MM/DD/Y with month 01-12, day 01-31 and a 2 to 4 digit year; DateAcceptedIff and ImpossibleDateAccepted prove it |
| AtmValidation.ValidDateIsFormatted | utils/utils.go:52-58 | every accepted date is two-digit month, slash, two-digit day, slash, year |
| AtmValidation.TwoDigitTextInverse | utils/utils.go:52-58 | two digits are the two-digit text of their value |
| AtmValidation.ImpossibleDateAccepted | utils/utils.go:52-58 | 02/31/2024 is accepted, as there is no calendar check |
| AtmAccounts.IndexOf | internal/api/auth_handlers.go:16-26 | the position found is the first user with that username; none if and only if there is none |
| AtmAccounts.FetchUserRole | internal/api/auth_handlers.go:16-26 | an error if and only if no user has the name; otherwise the stored role lower-cased |
| AtmAccounts.GetUserAuth | internal/api/auth_handlers.go:28-52 | an error if and only if no user has the name; otherwise the user's PIN hash, failed attempts, locked flag (locked = 1) and role |
| AtmAccounts.AttemptBookkeeping | internal/api/auth_handlers.go:55-104 | an increment adds one to the count, reports it, and locks the account once it reaches 3, keeping the PIN hash and an existing lock; a reset zeroes the count and keeps the lock; an unlock zeroes the count and clears the lock |
| AtmAccounts.IncrementStep | internal/api/auth_handlers.go:55-76 | one more failed attempt and a lock from 3 on, or an error for an unknown user; AttemptBookkeeping and StepsKeepValid prove it |
| AtmAccounts.ResetStep | internal/api/auth_handlers.go:79-82 | the failed-attempt count is set to 0 and the lock kept, and an unknown user changes nothing; AttemptBookkeeping and StepsKeepValid prove it |
| AtmAccounts.UnlockStep | internal/api/auth_handlers.go:86-104 | the count and the lock are cleared, or an error for an unknown user; AttemptBookkeeping and StepsKeepValid prove it |
| AtmAccounts.StepsKeepValid | internal/api/auth_handlers.go:55-104 | incrementing, resetting and unlocking, like depositing and withdrawing (internal/api/handlers.go), keep usernames unique and ids 1 to n |
| AtmAccounts.UpdateKeepsIndex | internal/api/auth_handlers.go:55-104 | rewriting the user found keeps it the one found under that name |
| AtmAccounts.CreateUserCorrect | internal/api/handlers.go:12-47 | creation fails if and only if the username is taken; otherwise the new id (count plus one) is one no stored user has, the user is found with the lower-cased role, the hashed PIN, no failed attempts and no lock, and the store stays well-formed |
| AtmAccounts.CreateUserStep | internal/api/handlers.go:12-47 | the store after a creation, or the error for a taken username; CreateUserCorrect proves it |
| AtmAccounts.TotalBalanceUpdate | internal/api/handlers.go:58-128 | changing one user's balance changes the total by the difference |
| AtmAccounts.LoggedAppend | internal/api/handlers.go:58-128 | logging a transaction adds its amount to the logged total |
| AtmAccounts.LedgerBalances | internal/api/handlers.go:58-128 | a failed deposit or withdrawal changes nothing; a deposit of x adds x to the ATM, to the users' total and to the transaction log, and a withdrawal takes x from all three |
| AtmAccounts.DepositBooks | internal/api/handlers.go:49-90 | a failed deposit changes nothing; a deposit of x adds x to the ATM cash, the users' total and the logged total |
| AtmAccounts.DepositStep | internal/api/handlers.go:49-90 | the store after a deposit, or an error for an unknown user; DepositBooks and StepsKeepValid prove it |
| AtmAccounts.WithdrawBooks | internal/api/handlers.go:92-128 | a failed withdrawal changes nothing; a withdrawal of x takes x from the ATM cash, the users' total and the logged total |
| AtmAccounts.WithdrawStep | internal/api/handlers.go:92-128 | the store after a withdrawal, or an error for an unknown user or short funds; WithdrawBooks, WithdrawNeverOverdraws and StepsKeepValid prove it |
| AtmAccounts.FoundIsUnique | internal/api/handlers.go:12-38 | in a well-formed store, every user is the one found under their username |
| AtmAccounts.WithdrawNeverOverdraws | internal/api/handlers.go:92-128 | a withdrawal succeeds if and only if the user exists and has at least the amount, the new balance is never negative, and a failure changes nothing |
| AtmAccounts.DepositThenWithdraw | internal/api/handlers.go:58-128 | depositing and then withdrawing the same amount restores the users and the ATM cash and logs both transactions |
| AtmAccounts.AtmDatabase.IncrementFailedAttempts | internal/api/auth_handlers.go:55-76 | result and new store are those of IncrementStep |
| AtmAccounts.AtmDatabase.ResetFailedAttempts | internal/api/auth_handlers.go:79-82 | the new store is that of ResetStep |
| AtmAccounts.AtmDatabase.UnlockAccount | internal/api/auth_handlers.go:86-104 | result and new store are those of UnlockStep |
| AtmAccounts.AtmDatabase.CreateUser | internal/api/handlers.go:12-47 | result and new store are those of CreateUserStep |
| AtmAccounts.AtmDatabase.DepositBalance | internal/api/handlers.go:49-90 | result and new store are those of DepositStep |
| AtmAccounts.AtmDatabase.WithdrawBalance | internal/api/handlers.go:92-128 | result and new store are those of WithdrawStep |
| AtmLogin.ParseIDCard | auth/auth.go:19-36 | a file that cannot be opened and an empty file are errors; a card read is one line with no newline |
| AtmLogin.CardFirstLine | auth/auth.go:19-36 | the card's role is its first line, whatever follows, and a one-line file without a newline is read whole |
| AtmLogin.Login | auth/auth.go:58-114 | outcome and new store are those of LoginStep; "ok" holds exactly on a login, and then the trimmed username is returned |
| AtmLogin.LoginStep | auth/auth.go:58-114 | one login attempt on the trimmed input: refused on an empty username or PIN, an unknown user, a lock, or a wrong PIN (counted, locking at the third), else logged in with the count reset; EmptyInputRefusedEarly, LockedAccountRefused, WrongPinCounted, RightPinResets and ThreeStrikes prove it |
| AtmLogin.EmptyInputRefusedEarly | auth/auth.go:60-67 | an empty username or PIN is refused before the store is read, and changes nothing |
| AtmLogin.LockedAccountRefused | auth/auth.go:76-85 | a locked account is refused even with the right PIN, and nothing changes |
| AtmLogin.WrongPinCounted | auth/auth.go:88-104 | a wrong PIN adds one failed attempt, keeps the hash, locks the account exactly when the count reaches 3, and reports either the count or the lockout |
| AtmLogin.RightPinResets | auth/auth.go:106-113 | the right PIN on an unlocked account logs the user in and clears the count |
| AtmLogin.ThreeStrikes | auth/auth.go:58-114 | three wrong PINs from a clean account report 1, 2 and then the lockout, after which even the right PIN is refused |
| AtmLogin.RouteUser | auth/auth.go:116-151 | a menu is opened if and only if the card's role equals the stored role lower-cased, and the role picks admin, customer or cash-handler |
| AtmLogin.CapitalisedCardRejected | auth/auth.go:127-138 | a card holding an upper-case letter never opens a menu |

## Left out

- HTTP and Gin plumbing is not modelled: JSON decoding and encoding, route registration and response writing. A body that fails to decode is an absent (`None`) input.
- The SQL engine, schema and migrations are not part of this model. Tables are sequences of records whose ids grow by one per insert. Column defaults (a failed-attempt count of 0, not locked) are taken from how the code reads them.
- Database errors and the 500 answers they cause are modelled only where the code branches on a missing row. Every other query, insert or update is taken to succeed.
- Injection through SQL built by string formatting is not modelled, in the e-voting user creation and the profile insert.
- `UserCreation.CreateUser`: commits every user that passes the checks. In the source, `nameRegex` (create_user.go:25) accepts `'`, so a first or last name such as O'Brien breaks the quoting of the formatted INSERT (create_user.go:131-138) and the source answers with an error. The model does not parse SQL, so that failure is not captured.
- `ProfileHandlers.ProfilesRepository.Create`: appends every profile. In the source the name is pasted between quotes (database/profiles.go:29-33), so a name with a single `'` fails the insert and the handler answers 409 "create failed" (api/profiles.go:78-85). The model does not capture that failure.
- Concurrency is not modelled: the session-store mutexes, the e-voting cleanup goroutine's timing, and races between concurrent requests. Each request runs alone. `CleanupExpired` models one sweep.
- The login-attempt insert binds five values to four placeholders, so every insert fails and `logLoginAttempt` swallows the error. `ThermoTables.AttemptLog.Log` models the intended append, and no result depends on it.
- Cryptography and randomness are parameters:
  - bcrypt comparison and generation, and SHA-256 password hashing;
  - crypto/rand and math/rand tokens;
  - the random sensor and weather stubs.
  The exception is the e-voting token seeded by the Unix second: it is modelled as a function of that second.
- `strconv.ParseFloat`, `fmt.Sscanf`, `%0.2f` formatting, RFC 3339 parsing and JavaScript `Date` parsing are parameters. The model does not follow their exact syntax.
- Temperatures, balances and amounts are `real`. Float64 rounding, `roundToOneDecimal` and `Math.round` display rounding are not modelled.
- Time is one integer `now` per request. UTC conversion, time zones, daylight-saving shifts and `setHours` overflow are not modelled. Rows are not timestamped by the database's clock; `created_at` is not kept.
- `ORDER BY` ties: the model breaks ties by id, where SQLite leaves their order unspecified.
- The SMTP approval e-mail is not modelled, nor are the approve and deny links it carries. The request succeeds whether or not the mail is sent.
- The sensor-insert retry loop with sleeps is not modelled. The seeded reading is inserted once.
- The weather, outdoor statistics and energy-range handlers (`outdoor.go`, `energy.go`, `weather.go`, the logic package) are not part of this model.
- The e-voting server's and clients' promptui and stdin loops are not modelled. The clients are modelled only through the values they build and the answers they accept. The admin, login, registration and election-creation client screens are not modelled, and neither are the ATM's admin, customer and cash-handler menus beyond the routing into them.
- UI components outside the rules above are not modelled: guest dashboard, schedule and profile managers, user manager, profile selector, and the verification waiting page with its polling.
- The dashboards' timers, debounce and 30-second intervals are not modelled, nor the `localStorage` copy of the last schedule check. `ScheduleRunner` keeps the last check as a field. The `isLoading` flags and React's stale closures are not modelled.
- `Text.TrimSpace` strips Go's `unicode.IsSpace` set: the ASCII white space, U+0085, U+00A0, U+1680, U+2000 to U+200A, U+2028, U+2029, U+202F, U+205F and U+3000. The chatbot and the sign-in page use JavaScript's `trim`, which the model takes to be the same function, although `trim` also strips U+FEFF and keeps U+0085.
- `Text.ToLower` folds the ASCII letters only. Go's `strings.ToLower` and JavaScript's `toLowerCase` fold non-ASCII letters too.
- ATM `GetUserBalance` is folded into the deposit and withdraw steps. `GetUserID`'s second lookup is folded into the transaction row. `ListUsers` and the transaction table's date column are not modelled.
- The ATM card scanner's "token too long" error is not modelled. A card file is text that can be read or not.
- `HvacHandler.HvacGet`: its own contract says only that the mode is never empty. The defaults, the newest reading and the read-after-post are stated by `GetDefaults`, `GetReportsNewestReading` and `GetAfterPost`.
- `DashboardSchedule.MatchClock`: its own contract bounds the fields. That it reads back every formatted time is `ClockRoundTrip`, and text that is not H:MM[:SS] is not characterised.
- `DiagnosticsHandlers.RecentLogsOfHomeowner`: states membership and emptiness. The newest-first order and the limit of 50 are those of `NewestFirst.RecentOrdered`.

## Findings

| source | as written | input that shows it | evidently intended | confidence | as-written member | corrected member |
|---|---|---|---|---|---|---|
| Team_MGA_Software_Package_II_evoting/internal/server/list_elections.go:53 | the status code tests for `not_active`, a status no election has, so a `not_started` election is listed as 2, the code for closed | any election just created, whose status is `not_started` | `not_started` maps to 0, `active` to 1, `closed` to 2 | not executed | ListElections.NotStartedListedAsClosed | ListElections.ListAllElectionsCorrectedSpec |
| Team_MGA_Software_Package_II_evoting/internal/client/official.go:324-327 | the official client treats any status but 200 as an error, while the server answers 204 No Content to open and close (cmd/server/main.go:398,406) | opening a `not_started` election that the official owns | 2xx answers, 204 included, count as success | not executed | OfficialClient.SuccessfulOpenCloseReportedAsError | OfficialClient.AcceptedIffSucceeded |
| Team_MGA_Software_Package_II_evoting/internal/client/official.go:267-274 | the results display dereferences `WinnerID` for every position, but the tally records no winner when the top count is 0, so the pointer is nil | tallying an election in which some position received no votes, then showing its results | positions without a winner are skipped or shown as having none | not executed | OfficialClient.TallyWithoutVotesBreaksDisplay | OfficialClient.WinnerLines |
| Team_MGA_Software_Package_II_evoting/internal/server/session.go:122-131 | the session token comes from a PRNG seeded with the current Unix second, so two logins in the same second get the same token, and the second session overwrites the first | two users logging in within the same second | every session gets its own token, and creating one never replaces another | not executed | EvotingSession.SameSecondLoginsCollide | EvotingSession.SessionStore.CreateSessionChecked |
| MGA/Backend/internal/api/guest_verification.go:191-206 | `validateGuestPin` compares the typed PIN with the stored `users.pin` as plain text, but guest PINs are stored as bcrypt hashes | a guest created through the API, whose PIN is stored hashed, requesting verification with the right PIN | the PIN is checked against its hash, as at guest login | not executed | GuestVerification.HashedPinRejectedAsWritten | GuestVerification.GuestWhoCanLogInPassesPin |
