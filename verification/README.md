# Verification of the Online National Polling System

A Dafny 4.11 model of the polling program and of two small parts of the database headers it ships with,
with proofs of what they guarantee. `dafny verify dfyconfig.toml` checks everything.

## What is modelled

**The election.** The five tables are sequences of rows (`Schema.dfy`); each SQL statement is atomic and
applies fully or fails. `Election.dfy` is the program as a transition system: any number of processes, each
with its own connection, interleaved one statement at a time, since the program never opens a transaction.
A process is a position in the code plus its locals; an action carries everything the outside world decides
(what the user typed, the id AUTO_INCREMENT hands out, the clock, SQL errors, a process being killed). A step
is what its SQL statement does to the database (`StatementOutcome`) and where it takes its process (`Move`).
Every step appends one event to a log, which no guard ever reads; the theorems relate tables, processes and log.
`ElectionInvariant.dfy` holds the inductive invariant, `ElectionTheorems.dfy` what follows for every run.
`Operations.dfy` says of each step, in rows, columns, roles and positions, exactly when it is possible and what
it leaves; nothing there is stated through the functions that define the steps. `Sessions.dfy` traces every session
of every run back to the credentials that opened it.

**Checking and inserting.** `castVote` reads, prompts, reads again and inserts without re-reading.
`VoteWindow.dfy` says exactly when the checks still hold at the INSERT, for votes and for both applications,
`SoloRuns.dfy` that they always do for a process running alone, and `Races.dfy` gives complete runs in which
they do not. `VotingApp.dfy` is the sequential program: a class whose methods follow the Java methods statement
by statement. `SoloRuns.CallAloneIsCastVote` connects the two models of `castVote`.

**The leaderboard and the forum.** `Relational.dfy` defines the SQL operators; `Results.dfy` and `Forum.dfy`
evaluate the two queries with them and compare the answers with plain definitions.

**Headers.** `ByteOrder.dfy`, `ByteOrderLaws.dfy` and `ByteStores.dfy`: C integers are mathematical integers
with every wrap-around, shift, cast and bitwise or written out; a machine load or store is low byte first.
`SafeString.dfy`: the bounded copy and append on an array.

## Where code and comments differ

The model follows the code.

- The comment at `OnlineVotingApp.java:486-489` says three rules are enforced before a vote is saved. Across
  processes the two approval rules can be out of date when the row is stored: `Races` has the runs,
  `VoteWindow.InsertWindow` and `SoloRuns.AtomicExactlyWhenUndisturbed` the exact condition.
- `m_string.h:248` asks only for a size above 0, but the copy reads the cell at `size - 2`, which lies inside the
  destination only from a size of 2 on. With a size of 1 the answer depends on the cell before the destination:
  `SafeString.SingleCellExample` is an input for which it is wrong, `SafeString.SafeStrcpy` has the exact condition.
- `m_string.h:266` says 1 is returned if the source was truncated; the append also returns 1 for an empty source
  and a full buffer (`SafeString.FullBufferExample`, exact condition in `SafeString.SafeStrcat`).

## Model

| member | source | states |
|---|---|---|
| `ElectionInvariant.StepKeepsInv` | src/com/dsu/onlinevoting/OnlineVotingApp.java:186-288 | Every statement or menu choice of every process, SQL errors and kills included, keeps the whole invariant: keys, references, sessions, history, statuses, and votes equal to the receipts. |
| `ElectionTheorems.RunKeepsInv` | src/com/dsu/onlinevoting/OnlineVotingApp.java:608-658 | Any interleaving of any number of processes keeps the invariant, so it holds in every state reachable from the empty database. |
| `ElectionTheorems.ConstraintsAlwaysHold` | src/com/dsu/onlinevoting/OnlineVotingApp.java:611-658 | In every reachable state all PRIMARY KEY, UNIQUE and FOREIGN KEY declarations hold (so at most one profile of each kind per user), the profile tables are row for row the applications submitted, and each profile's status is that of the last decision on it, pending if there was none. What a submitted row holds column by column is `Operations.ApplicationsAreExact`. |
| `ElectionTheorems.RunGrows` | src/com/dsu/onlinevoting/OnlineVotingApp.java:449-458 | Over any stretch of any run users, votes and posts are only appended to; profiles keep owner and content, and a status that has left PENDING never returns to it. |
| `ElectionTheorems.NewProfilesArePending` | src/com/dsu/onlinevoting/OnlineVotingApp.java:312-321 | Whatever step adds a profile row, the row starts PENDING. |
| `ElectionTheorems.OnlyUniqueKeysReject` | src/com/dsu/onlinevoting/OnlineVotingApp.java:160-170 | No reachable statement violates a foreign key or meets a missing table; only a UNIQUE key can reject one. |
| `ElectionTheorems.AdminIsSeeded` | src/com/dsu/onlinevoting/OnlineVotingApp.java:660-664 | Once any process has finished start-up, in every continuation of the run the tables exist and the user `admin` exists with role ADMIN. |
| `ElectionTheorems.OnlyOfficialsDecide` | src/com/dsu/onlinevoting/OnlineVotingApp.java:186-233 | Existing candidate rows change only in an ADMIN session, existing voter rows only in an ADMIN or FIELD_OFFICER session. That their decisions are stored is `Operations.DecisionIsExact`. |
| `ElectionTheorems.NewRowsAreOnesOwn` | src/com/dsu/onlinevoting/OnlineVotingApp.java:238-288 | Rows added to votes, profiles and posts carry the id of the user signed in at that process, in the role whose menu offers the operation. Which roles, and the whole row, are `Operations.MenuOffers`, `ApplicationsAreExact`, `VoteIsExact` and `PostIsExact`. |
| `ElectionTheorems.SessionsAreGenuine` | src/com/dsu/onlinevoting/OnlineVotingApp.java:114-128 | A signed-in process acts for an existing user in that user's stored role, and voting and applying happen only in the menu of the right role. With which credentials is `Sessions.SessionsNeedCredentials`. |
| `ElectionTheorems.BallotsMatchReceipts` | src/com/dsu/onlinevoting/OnlineVotingApp.java:490-537 | In every interleaving the votes table is row for row the list of success messages, at most one per voter, and each message ends a call whose steps are exactly its four checks, for that voter and that candidate. |
| `ElectionTheorems.BallotsArePrecededByApprovals` | src/com/dsu/onlinevoting/OnlineVotingApp.java:492-533 | Each stored vote's call first saw its voter's profile APPROVED and later saw the chosen candidate's profile APPROVED; each approval is an earlier decision, not overruled, of an ADMIN or FIELD_OFFICER account (voters) or an ADMIN account (candidates). |
| `ElectionTheorems.RolesAreSeparate` | src/com/dsu/onlinevoting/OnlineVotingApp.java:122-128 | Votes go from VOTER accounts to CANDIDATE accounts, nobody owns both kinds of profile, no vote names its own voter, and an account has one role. |
| `Operations.MenuOffers` | src/com/dsu/onlinevoting/OnlineVotingApp.java:186-288 | In a menu an action is possible if and only if the menu of that role has it, the roles written out: decisions on voters for ADMIN and FIELD_OFFICER, on candidates for ADMIN, applying and voting for VOTER, candidacy for CANDIDATE, non-empty messages for VOTER and CANDIDATE. |
| `Operations.PositionOffers` | src/com/dsu/onlinevoting/OnlineVotingApp.java:80-90 | Outside the menus exactly the next statement of the code is possible, with any text typed and any unused id. |
| `Operations.OthersStay` | src/com/dsu/onlinevoting/OnlineVotingApp.java:38-41 | No step moves any process but its own. |
| `Operations.SetupIsExact` | src/com/dsu/onlinevoting/OnlineVotingApp.java:608-666 | Each start-up statement adds its own table and changes nothing else; the last adds the ADMIN row `admin` if and only if that username is free; only then does the main menu appear. |
| `Operations.LoginIsExact` | src/com/dsu/onlinevoting/OnlineVotingApp.java:104-132 | A login step reaches a role menu if and only if a stored row has that username and that hash, and then that row's user and role; otherwise the main menu. No row changes. |
| `Operations.RegisterIsExact` | src/com/dsu/onlinevoting/OnlineVotingApp.java:160-178 | The users table gains exactly the row typed, column by column, unless the username is taken. |
| `Operations.DecisionIsExact` | src/com/dsu/onlinevoting/OnlineVotingApp.java:449-458 | For both kinds and every role that has the choice: row i afterwards is row i before with the status decided if its id is the one typed, and row i unchanged otherwise; nothing else changes. |
| `Operations.GuardsAreExact` | src/com/dsu/onlinevoting/OnlineVotingApp.java:297-352 | Each application guard goes on if and only if no row of its own table has the signed-in user's id; nothing changes. |
| `Operations.ApplicationsAreExact` | src/com/dsu/onlinevoting/OnlineVotingApp.java:312-374 | A submitted application is the old table plus one row with the id, the signed-in user, each text in its own column and PENDING, unless that user has a row by then. |
| `Operations.FirstCheckIsExact` | src/com/dsu/onlinevoting/OnlineVotingApp.java:491-502 | In every reachable state the first check of `castVote` goes on if and only if the user's own profile is APPROVED. |
| `Operations.LaterChecksAreExact` | src/com/dsu/onlinevoting/OnlineVotingApp.java:504-525 | The second check goes on if and only if the user has no vote; the choice is accepted if and only if an APPROVED profile has the id typed, and the user id of such a profile's owner is kept for the INSERT. |
| `Operations.VoteIsExact` | src/com/dsu/onlinevoting/OnlineVotingApp.java:527-536 | The votes table gains exactly the row for voter and candidate, with a success event, unless the voter has a row by then; then nothing changes. |
| `Operations.PostIsExact` | src/com/dsu/onlinevoting/OnlineVotingApp.java:569-580 | In every reachable state a posted message is the old table plus one row with the author's id, the text and the time; no key ever rejects it. |
| `Operations.QuietStepsAreExact` | src/com/dsu/onlinevoting/OnlineVotingApp.java:207-259 | Launching, reading a screen, logging out and quitting touch no row; each lands where the code goes. |
| `Operations.ErrorsLandInMenus` | src/com/dsu/onlinevoting/OnlineVotingApp.java:466-536 | Where each SQL error lands: out of the program during start-up, in the main menu from it, at the prompt while candidates are listed, and in the session's menu everywhere else. No row changes. |
| `Sessions.SessionsNeedCredentials` | src/com/dsu/onlinevoting/OnlineVotingApp.java:104-128 | In every reachable state each signed-in process goes back to the latest sign-in at it, made with the username and the hash stored for exactly that user. |
| `VoteWindow.InsertWindow` | src/com/dsu/onlinevoting/OnlineVotingApp.java:518-531 | At the INSERT, in any reachable state: voter (candidate) is still approved if and only if no rejection is the last decision on that profile since the call began, and the UNIQUE key rejects the vote if and only if the same voter's vote was stored since the call began. |
| `VoteWindow.ApplicationWindow` | src/com/dsu/onlinevoting/OnlineVotingApp.java:297-372 | At the INSERT of either application, in any reachable state: the UNIQUE key rejects it if and only if an application of the same kind by the same user was stored since the guard ran; otherwise it is stored. When the guard itself lets a user go on is `Operations.GuardsAreExact`. |
| `SoloRuns.AtomicExactlyWhenUndisturbed` | src/com/dsu/onlinevoting/OnlineVotingApp.java:486-537 | Storing a vote is one atomic step under the three documented rules if and only if nothing interfered since the call began. |
| `SoloRuns.AloneIsAtomic` | src/com/dsu/onlinevoting/OnlineVotingApp.java:297-372 | A process running alone never has an application or vote rejected by a UNIQUE key, and each vote it stores is atomic, with voter and candidate approved at that moment. |
| `SoloRuns.CallAloneIsCastVote` | src/com/dsu/onlinevoting/OnlineVotingApp.java:490-537 | A whole `castVote` call of a process running alone, from the voter's menu through every statement, without SQL errors and however it ends, leaves exactly the database and outcome of the sequential method `VotingApp.OnlineVotingApp.CastVote` and returns to the menu. |
| `SoloRuns.CallAloneExists` | src/com/dsu/onlinevoting/OnlineVotingApp.java:490-537 | From a voter's menu in any reachable state such a call exists for every choice typed, fresh id and time. |
| `Races.RejectedCandidateReceivesVote` | src/com/dsu/onlinevoting/OnlineVotingApp.java:513-531 | A concrete two-process run stores a vote for a candidate who is REJECTED when it is stored. |
| `Races.RejectedVoterIsCounted` | src/com/dsu/onlinevoting/OnlineVotingApp.java:492-531 | A concrete two-process run stores the vote of a voter who is REJECTED when it is stored. |
| `Races.OnlyTheKeyStopsASecondBallot` | src/com/dsu/onlinevoting/OnlineVotingApp.java:504-511 | A concrete run in which one voter, signed in twice, passes every check twice and only the key on `voter_id` turns the second vote away. |
| `SchemaLaws.SetupTwiceIsOnce` | src/com/dsu/onlinevoting/OnlineVotingApp.java:608-666 | Running start-up again changes nothing; running it on any database keeps every row, creates all tables and leaves a user `admin`. |
| `SchemaLaws.InsertVoteSafe` | src/com/dsu/onlinevoting/OnlineVotingApp.java:641-649 | A vote INSERT keeps every constraint and changes nothing but the votes table's end. |
| `SchemaLaws.UpdateStatusSafe` | src/com/dsu/onlinevoting/OnlineVotingApp.java:449-458 | The status UPDATE keeps every constraint and every other column of every row. |
| `Results.QueryShowsStandings` | src/com/dsu/onlinevoting/OnlineVotingApp.java:545-551 | JOIN, LEFT JOIN, WHERE, GROUP BY and COUNT, evaluated operator by operator, give exactly one row per approved profile with its owner's name and its number of votes, for all table contents that respect the keys. |
| `Results.LeaderboardIsCorrect` | src/com/dsu/onlinevoting/OnlineVotingApp.java:545-562 | In every reachable state, in whatever order ties come: one row per APPROVED profile and no other, correct counts (0 when none), non-increasing. |
| `Results.TallyCountsRows` | src/com/dsu/onlinevoting/OnlineVotingApp.java:546-551 | The number shown for a candidate is the number of rows of the votes table naming that user. |
| `Results.ApprovedProfileHasRow` | src/com/dsu/onlinevoting/OnlineVotingApp.java:545-551 | In every reachable state every APPROVED profile has a row on the board: its owner's name, its own party and constituency, and the number of vote rows naming its owner. |
| `Results.RowHasApprovedProfile` | src/com/dsu/onlinevoting/OnlineVotingApp.java:545-551 | Every row on the board is, column by column, that of an APPROVED profile. |
| `Results.BallotsAreConserved` | src/com/dsu/onlinevoting/OnlineVotingApp.java:546-551 | Displayed counts plus votes for candidates not currently approved equal the votes table, which equals the number of successful calls in the run. |
| `Results.BallotIsFaithful` | src/com/dsu/onlinevoting/OnlineVotingApp.java:518-531 | A voter types profile id k, other processes act, the vote is stored: the tally of profile k grows by one and no other tally changes, although the row stores a user id; any answer of the results query after it shows the same profiles as any answer before it, with one vote more for k and the same count for all others. |
| `Results.StandingsNeverDrop` | src/com/dsu/onlinevoting/OnlineVotingApp.java:546-551 | Later in any run a candidate on the board shows at least the count shown before, also after being rejected and approved again. |
| `Forum.JoinKeepsPosts` | src/com/dsu/onlinevoting/OnlineVotingApp.java:588-590 | The join with users lists every post exactly once, with its author. |
| `Forum.ForumShowsLatest` | src/com/dsu/onlinevoting/OnlineVotingApp.java:584-602 | In every reachable state the page lists min(20, n) distinct posts in non-increasing time order, and no post left out is newer than one listed. |
| `VotingApp.OnlineVotingApp.SetupDatabase` | src/com/dsu/onlinevoting/OnlineVotingApp.java:608-666 | Adds the five tables, and the ADMIN row `admin` if and only if that username is free; nothing else changes and the constraints hold afterwards. |
| `VotingApp.RoleTexts` | src/com/dsu/onlinevoting/OnlineVotingApp.java:154-154 | Each of the four texts names its own role and no other text names one. |
| `VotingApp.OnlineVotingApp.Register` | src/com/dsu/onlinevoting/OnlineVotingApp.java:140-180 | For each of the four role texts appends the row with that very role, unless the username is taken; "invalid role" appears if and only if the text is none of the four, "taken" if and only if the username is; no other failure. |
| `VotingApp.OnlineVotingApp.Login` | src/com/dsu/onlinevoting/OnlineVotingApp.java:95-136 | Signs in if and only if some row has that username and hash, with that row's id and role. |
| `VotingApp.OnlineVotingApp.ApplyVoterId` | src/com/dsu/onlinevoting/OnlineVotingApp.java:295-324 | Appends a PENDING profile if and only if the user has none; the UNIQUE key never rejects it. |
| `VotingApp.OnlineVotingApp.ApplyCandidate` | src/com/dsu/onlinevoting/OnlineVotingApp.java:343-375 | Appends a PENDING candidacy if and only if the user has none; the UNIQUE key never rejects it. |
| `VotingApp.OnlineVotingApp.ApproveReject` | src/com/dsu/onlinevoting/OnlineVotingApp.java:438-463 | APPROVE sets APPROVED and REJECT sets REJECTED in the row with the id and nowhere else; each of the three refusals appears if and only if its own condition holds, and then nothing changes. |
| `VotingApp.OnlineVotingApp.CastVote` | src/com/dsu/onlinevoting/OnlineVotingApp.java:490-537 | Stores a vote if and only if the three documented rules hold, as one atomic vote; each of the five refusal messages appears if and only if its own condition holds, and the UNIQUE key never causes one. |
| `VotingApp.OnlineVotingApp.PostForum` | src/com/dsu/onlinevoting/OnlineVotingApp.java:569-581 | Appends the post unless the message is empty. |
| `VotingApp.OnlineVotingApp.ViewResults` | src/com/dsu/onlinevoting/OnlineVotingApp.java:552-563 | Prints the query's answer with ranks 1..n and non-increasing counts; the empty message appears if and only if no candidate is approved. |
| `VotingApp.OnlineVotingApp.ViewForum` | src/com/dsu/onlinevoting/OnlineVotingApp.java:591-599 | Prints the page line by line; the empty message appears if and only if there are no posts. |
| `PasswordHex.ToHex` | src/com/dsu/onlinevoting/OnlineVotingApp.java:677-681 | The append loop yields two characters per byte (64 for a 32-byte digest) which, by their character codes and high digit first, read as the byte's unsigned value. |
| `PasswordHex.HexReadsAsByte` | src/com/dsu/onlinevoting/OnlineVotingApp.java:677-681 | In the hex form of any bytes, characters 2i and 2i+1 read, high digit first, as byte i, plus 256 if it is negative. |
| `PasswordHex.HexShape` | src/com/dsu/onlinevoting/OnlineVotingApp.java:677-681 | Two characters per byte, only 0-9 and a-f (section 8 of RFC 4648, in lower case). |
| `PasswordHex.UnhexHex` | src/com/dsu/onlinevoting/OnlineVotingApp.java:680-681 | Every byte sequence, negative bytes included, is recovered from its hex form, whose digit order `PasswordHex.HexReadsAsByte` fixes. |
| `PasswordHex.HexIsInjective` | src/com/dsu/onlinevoting/OnlineVotingApp.java:615-615 | Even a case-insensitive comparison of stored hashes is equality of digests. |
| `ByteStores.UnsignedReadersAgree` | mariadb/mariadb-10.6.14-winx64/include/mysql/server/byte_order_generic_x86_64.h:31-51 | For every width and all contents the portable and the optimised unsigned reader return the little-endian number. |
| `ByteStores.SignedReadersAgree` | mariadb/mariadb-10.6.14-winx64/include/mysql/server/byte_order_generic.h:21-35 | The same for the signed readers, including 24-bit sign extension and either signedness of plain char. |
| `ByteStores.UnsignedRoundTrip` | mariadb/mariadb-10.6.14-winx64/include/mysql/server/byte_order_generic.h:36-96 | Any value stored in n bytes reads back modulo 256^n, whichever reader is used. |
| `ByteStores.SignedRoundTrip` | mariadb/mariadb-10.6.14-winx64/include/mysql/server/byte_order_generic.h:21-35 | Any signed value that fits reads back exactly, whichever reader is used. |
| `ByteOrderLaws.ShiftedReadReversed` | mariadb/mariadb-10.6.14-winx64/include/mysql/server/byte_order_generic_x86_64.h:90-123 | Loading n bytes low first, shifting them to the top of a word and swapping it reads them high byte first, for every n and word size. |
| `ByteOrderLaws.SwapReader5` | mariadb/mariadb-10.6.14-winx64/include/mysql/server/byte_order_generic_x86_64.h:90-97 | The 5-byte load/shift/swap reader returns the big-endian number. |
| `ByteOrderLaws.SwapReader6` | mariadb/mariadb-10.6.14-winx64/include/mysql/server/byte_order_generic_x86_64.h:99-106 | The 6-byte load/shift/swap reader returns the big-endian number. |
| `ByteOrderLaws.SwapReader7` | mariadb/mariadb-10.6.14-winx64/include/mysql/server/byte_order_generic_x86_64.h:108-116 | The 7-byte load/shift/swap reader returns the big-endian number. |
| `ByteOrderLaws.SwapReader8` | mariadb/mariadb-10.6.14-winx64/include/mysql/server/byte_order_generic_x86_64.h:118-123 | The 8-byte load/swap reader returns the big-endian number. |
| `ByteOrderLaws.BigReader2Agrees` | mariadb/mariadb-10.6.14-winx64/include/mysql/mariadb_rpl.h:566-567 | The portable 2-byte reader returns the big-endian number. |
| `ByteOrderLaws.BigReader3Agrees` | mariadb/mariadb-10.6.14-winx64/include/mysql/mariadb_rpl.h:570-573 | The portable 3-byte reader returns the big-endian number. |
| `ByteOrderLaws.BigReader4Agrees` | mariadb/mariadb-10.6.14-winx64/include/mysql/mariadb_rpl.h:578-582 | The portable 4-byte reader returns the big-endian number. |
| `ByteOrderLaws.BigReaders5Agree` | mariadb/mariadb-10.6.14-winx64/include/mysql/mariadb_rpl.h:588-593 | The portable 5-byte reader, the big-endian number and the load/shift/swap form agree. |
| `ByteStores.Int2Store` | mariadb/mariadb-10.6.14-winx64/include/mysql/server/byte_order_generic.h:65-68 | Writes the low 2 bytes of any value in place, low byte first; every byte outside these 2 keeps its value. |
| `ByteStores.Int3Store` | mariadb/mariadb-10.6.14-winx64/include/mysql/server/byte_order_generic.h:69-73 | Writes the low 3 bytes of any value in place, low byte first; every byte outside these 3 keeps its value. |
| `ByteStores.Int4Store` | mariadb/mariadb-10.6.14-winx64/include/mysql/server/byte_order_generic.h:74-78 | Writes the low 4 bytes of any value in place, low byte first; every byte outside these 4 keeps its value. |
| `ByteStores.Int5Store` | mariadb/mariadb-10.6.14-winx64/include/mysql/server/byte_order_generic.h:79-84 | Writes the low 5 bytes of any value in place, low byte first; every byte outside these 5 keeps its value. |
| `ByteStores.Int6Store` | mariadb/mariadb-10.6.14-winx64/include/mysql/server/byte_order_generic.h:85-91 | Writes the low 6 bytes of any value in place, low byte first; every byte outside these 6 keeps its value. |
| `ByteStores.Int8Store` | mariadb/mariadb-10.6.14-winx64/include/mysql/server/byte_order_generic.h:92-96 | Writes the low 8 bytes of any value in place, low byte first; every byte outside these 8 keeps its value. |
| `ByteStores.FastInt2Store` | mariadb/mariadb-10.6.14-winx64/include/mysql/server/byte_order_generic_x86_64.h:54-56 | The optimised store leaves the same buffer as the portable 2-byte one. |
| `ByteStores.FastInt3Store` | mariadb/mariadb-10.6.14-winx64/include/mysql/server/byte_order_generic_x86_64.h:58-61 | The optimised store leaves the same buffer as the portable 3-byte one. |
| `ByteStores.FastInt4Store` | mariadb/mariadb-10.6.14-winx64/include/mysql/server/byte_order_generic_x86_64.h:63-65 | The optimised store leaves the same buffer as the portable 4-byte one. |
| `ByteStores.FastInt5Store` | mariadb/mariadb-10.6.14-winx64/include/mysql/server/byte_order_generic_x86_64.h:67-70 | The optimised store leaves the same buffer as the portable 5-byte one. |
| `ByteStores.FastInt6Store` | mariadb/mariadb-10.6.14-winx64/include/mysql/server/byte_order_generic_x86_64.h:72-75 | The optimised store leaves the same buffer as the portable 6-byte one. |
| `ByteStores.FastInt8Store` | mariadb/mariadb-10.6.14-winx64/include/mysql/server/byte_order_generic_x86_64.h:77-79 | The optimised store leaves the same buffer as the portable 8-byte one. |
| `SafeString.SafeStrcpy` | mariadb/mariadb-10.6.14-winx64/include/mysql/server/m_string.h:250-261 | Leaves the longest prefix of the source that fits, padded with NUL, and changes nothing outside. The return value has its documented meaning (1 if and only if something was cut off) if and only if the size is at least 2, or the source is empty, or the cell before the destination is not NUL. |
| `SafeString.SingleCellExample` | mariadb/mariadb-10.6.14-winx64/include/mysql/server/m_string.h:250-261 | Copying "a" into a single cell that follows a NUL leaves the empty string and returns 0, although "a" was cut off. |
| `SafeString.SafeStrcat` | mariadb/mariadb-10.6.14-winx64/include/mysql/server/m_string.h:272-278 | Leaves the first size-1 characters of the two strings together and changes nothing outside; returns 1 if and only if they do not fit or the buffer was already full; that is the documented meaning if and only if the buffer was not full or the source not empty. |
| `SafeString.CopyBehind` | mariadb/mariadb-10.6.14-winx64/include/mysql/server/m_string.h:277-277 | The inner copy of an append always gets a size of at least 2, so its read stays inside the buffer and its return value says exactly whether something was cut off. |
| `SafeString.CopyAndAppend` | mariadb/mariadb-10.6.14-winx64/include/mysql/server/m_string.h:250-278 | One copy and any number of appends leave the longest prefix of all sources together; "if no call returned 1 nothing is missing" holds if and only if the size is at least 2, or something is appended, or the first source is empty, or the cell before the destination is not NUL. |
| `SafeString.AppendNothing` | mariadb/mariadb-10.6.14-winx64/include/mysql/server/m_string.h:274-276 | Appending the empty string never changes the text, and returns 1 if and only if the buffer is full. |
| `SafeString.FullBufferExample` | mariadb/mariadb-10.6.14-winx64/include/mysql/server/m_string.h:274-276 | Appending the empty string to the full two-cell buffer "a" keeps "a", cuts nothing off and returns 1. |
| `SafeString.HoldsOne` | mariadb/mariadb-10.6.14-winx64/include/mysql/server/m_string.h:274-274 | A buffer holds at most one C string, so the text the contracts speak of is determined by the cells. |
| `SafeString.HoldsSome` | mariadb/mariadb-10.6.14-winx64/include/mysql/server/m_string.h:274-274 | Any buffer with a NUL in it holds a C string, so the contracts cover every terminated buffer. |

## Left out

- Terminal input and output, printf layout, trimming and upper-casing of what is typed; only the routing of menu choices by role is kept.
- The pending-applications, status and approved-candidates screens: read-only joins simpler than the leaderboard's.
- CREATE DATABASE, JDBC, connection handling and exception texts; an SQL error is an action that sends the process where the exception is caught.
- A process killed between an INSERT and the message after it: the two are one step, so "row for row the list of success messages" does not cover a row whose message was never printed.
- The class in `VotingApp.dfy` has no SQL errors; the transition system has them at every statement.
- The SHA-256 compression function: a digest is any sequence of signed bytes, and accounts hold any hash string.
- Username collation: a username stands for its class under the database's own equality.
- AUTO_INCREMENT values beyond being unused, 32-bit id range, VARCHAR length limits, and clocks: time stamps are arbitrary integers.
- The order among rows with equal ORDER BY keys is not fixed: the theorems hold for every order the database may choose.
- Matching a voter's constituency with a candidate's: the program does not compare them.
- SafeStrcpy: the destination is a stretch of an array; a stretch of size 1 at the very start of the array is excluded, because the cell the code then reads is not in the array.
- Overlapping source and destination strings; sources are values.
- Headers with declarations only, floating-point and signed myisam macros, and the 32-bit x86 variant of the readers.
