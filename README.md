# Tiny social network: server state and client command logic

This project models the core of a small gRPC social-feed service (`tsd`
server, `tsc` client) and proves what its services do.

- **Registry and follow graph** (`graph.dfy`, module `Graph`). `client_db` is a
  sequence of `ClientRecord`s. Each record has a username, its followers, the
  users it follows, and whether a stream is bound. A `Client*` becomes an index
  into the sequence. Records are never removed, so indices stay stable.
  `Login`, `Follow`, `UnFollow` and `List` are functions from the registry to a
  status and a new registry. `Valid` is the invariant they keep:
  - usernames are distinct;
  - no self-edges and no duplicate list entries;
  - A is in B's followers exactly when B is in A's following.
- **Stored records** (`records.dfy`, module `Records`).
  - `FormatFileOutput` strips CR/LF from each field and joins the fields with commas.
  - `Fields` is the comma split that repeated `getline` calls produce, including
    that they never yield a trailing empty token.
  - `ParseData` is the getline loop, proved equal to `Fields`.
- **Timeline sessions** (`feed.dfy`, module `Feed`).
  - Files are a map from file name to lines.
  - Each user's stream is a sequence of written messages.
  - A session is split into phases that can interleave with other users' sessions:
    - `OpenTimeline`: clear the files on the first session, bind the stream,
      replay the backlog;
    - `Broadcast`: one post, appended to `<author>.txt` and fanned out to the
      followers in order;
    - `CloseTimeline`: reset the stream.
  - `Timeline` is a whole session.
  - The backlog replay keeps the last 20 lines of `<user>_following.txt` and sends
    them newest first. Lines that do not split into exactly three fields are
    skipped but still use one of the 20 slots. The pending file is not emptied
    after replay.
- **The server object** (`server.dfy`, module `Server`). Class `SnsService` holds
  `clientDb`, `files`, `outbox` and `delTxtFiles` as fields. Each RPC is a method
  that updates them with the source's own loops (name scans, `std::find`,
  erase-remove, the backlog deque, the fanout loop). Each method is proved
  equal to the functions above.
- **The client** (`commands.dfy`, module `Commands`).
  - `Parse` follows `processCommand`'s successive `istringstream >>` extractions.
  - `ParseByTokens` proves it equals `CommandOf`, a reference definition over
    the whitespace-separated words.
  - The reply mappings of `Login`, `List`, `Follow` and `UnFollow`, and
    `connectTo`'s success test, are functions of the status code.
- `proto.dfy` holds the gRPC status codes and the `Message` type, and
  `wrappers.dfy` holds `Option`.

Timestamps are opaque strings. A stored record is `username,message,timestamp`.

The record round trip holds when:
- no field contains a comma, CR or LF;
- the timestamp is non-empty.

With an empty timestamp the record comes back as two fields. A comma in the
message gives more than three.

The author's file and the followers' pending files share one namespace: a user
named `bob_following` writes its posts to `bob_following.txt`, which is `bob`'s
pending file (`Feed.FileNamesCollide`). The model keeps this. `Feed.BroadcastDelivers`
states its frame under the side condition that no such collision occurs.

## Model

| member | source | states |
|---|---|---|
| Records.StripLineBreaks | mp1_skeleton/tsd.cc:130-136 | the result has no CR or LF, and a field without line breaks is returned unchanged |
| Records.StripKeepsCommas | mp1_skeleton/tsd.cc:130-136 | removing line breaks keeps every comma of the field |
| Records.FormatFileOutput | mp1_skeleton/tsd.cc:128-139 | a stored record never contains CR or LF, so it is one line of the file |
| Records.FormatCommas | mp1_skeleton/tsd.cc:133-136 | a record holds exactly the two joining commas plus the commas of its three fields |
| Records.FormatJoins | mp1_skeleton/tsd.cc:133-136 | for fields without line breaks the record is username, comma, message, comma, timestamp |
| Records.Fields | mp1_skeleton/tsd.cc:142-152 | the getline split of a line yields no token exactly when the line is empty |
| Records.ParseData | mp1_skeleton/tsd.cc:142-152 | the getline loop returns exactly the comma split of the line, with no trailing empty token |
| Records.Getline | mp1_skeleton/tsd.cc:147 | one getline call returns the next field and moves past its comma; the fields after it are unchanged |
| Records.FieldsCount | mp1_skeleton/tsd.cc:142-152 | the number of components is the number of commas, plus one unless the line is empty or ends in a comma |
| Records.FieldsHaveNoDelimiter | mp1_skeleton/tsd.cc:147-148 | no component contains a comma |
| Records.RecordRoundTrip | mp1_skeleton/tsd.cc:128-152 | parse_data(format_file_output(u, m, t)) == [u, m, t] when no field holds a comma, CR or LF and t is non-empty |
| Records.EmptyTimestampLosesField | mp1_skeleton/tsd.cc:128-152 | with an empty timestamp the record parses back as only [u, m] |
| Records.CommaInMessageSplits | mp1_skeleton/tsd.cc:128-152 | a comma in the message makes the record split into more than three components |
| Graph.Find | mp1_skeleton/tsd.cc:172-177 | the scan finds the first record with the name, and finds none exactly when the name is not registered |
| Graph.FindRecord | mp1_skeleton/tsd.cc:172-177 | with distinct usernames the scan for a record's name finds that record |
| Graph.Without | mp1_skeleton/tsd.cc:266-267 | erase-remove leaves no occurrence of the value and keeps every other value |
| Graph.WithoutSingle | mp1_skeleton/tsd.cc:266-267 | in a list without duplicates, erase-remove drops exactly the one position holding the value and keeps the others in order |
| Graph.WithoutAbsent | mp1_skeleton/tsd.cc:266-267 | erasing a value that is not in the list changes nothing |
| Graph.WithoutNoDuplicates | mp1_skeleton/tsd.cc:266-267 | erasing keeps a duplicate-free list duplicate-free |
| Graph.Login | mp1_skeleton/tsd.cc:275-287 | ALREADY_EXISTS exactly when the name is registered, and client_db is then unchanged; otherwise OK with one record for the name, without edges or stream, appended |
| Graph.Follow | mp1_skeleton/tsd.cc:196-233 | the status is OK, CANCELLED or ALREADY_EXISTS; CANCELLED exactly when the requester or the target is unregistered; a refusal leaves client_db unchanged, and no outcome adds, drops or renames a record |
| Graph.UnFollow | mp1_skeleton/tsd.cc:235-272 | the status is OK, CANCELLED or ALREADY_EXISTS; CANCELLED exactly when the requester or the target is unregistered; a refusal leaves client_db unchanged, and no outcome adds, drops or renames a record |
| Graph.List | mp1_skeleton/tsd.cc:170-194 | CANCELLED exactly for an unknown requester; otherwise all_users is every username in client_db order and there is one follower name per entry of the requester's followers list |
| Graph.LoginOutcome | mp1_skeleton/tsd.cc:275-287 | ALREADY_EXISTS exactly when the name is registered, with client_db unchanged; otherwise OK and exactly one new record with empty lists and no stream appended; the invariant holds after |
| Graph.LoginOnce | mp1_skeleton/tsd.cc:276-280 | a second Login of the same name is refused |
| Graph.AppendPreservesValid | mp1_skeleton/tsd.cc:282-284 | appending a record with a new name keeps usernames distinct and the graph invariant |
| Graph.LoginPreservesValid | mp1_skeleton/tsd.cc:275-287 | Login keeps the registry invariant |
| Graph.FollowRejections | mp1_skeleton/tsd.cc:198-223 | unknown requester: CANCELLED; then unknown target: CANCELLED; then self-target: ALREADY_EXISTS; none of them changes client_db |
| Graph.UnFollowRejections | mp1_skeleton/tsd.cc:237-263 | the same error precedence for UnFollow, with client_db unchanged |
| Graph.FollowAddsEdge | mp1_skeleton/tsd.cc:196-233 | between two registered users Follow succeeds exactly when the edge is new; it then appends the target to the requester's following and the requester to the target's followers and changes nothing else; otherwise ALREADY_EXISTS and no change |
| Graph.FollowTwice | mp1_skeleton/tsd.cc:226-231 | following the same user a second time returns ALREADY_EXISTS and changes nothing |
| Graph.FollowPreservesValid | mp1_skeleton/tsd.cc:226-228 | Follow keeps the mirror invariant, no self-edges and no duplicates |
| Graph.AddEdgePreservesValid | mp1_skeleton/tsd.cc:226-228 | adding a new edge to both lists keeps the registry invariant |
| Graph.UnFollowRemovesEdge | mp1_skeleton/tsd.cc:235-272 | between two registered users UnFollow succeeds exactly when the edge exists; it then removes exactly that position from both lists, keeps the other entries in order and changes nothing else; otherwise ALREADY_EXISTS and no change |
| Graph.UnFollowPreservesValid | mp1_skeleton/tsd.cc:264-268 | UnFollow keeps the registry invariant |
| Graph.RemoveEdgePreservesValid | mp1_skeleton/tsd.cc:264-268 | removing an edge from both lists keeps the registry invariant |
| Graph.FollowThenUnFollow | mp1_skeleton/tsd.cc:264-268 | a successful Follow undone by UnFollow returns OK and restores client_db exactly |
| Graph.RemoveAfterAdd | mp1_skeleton/tsd.cc:264-268 | erasing a just-appended edge from both lists restores the registry |
| Graph.ListReportsGraph | mp1_skeleton/tsd.cc:170-194 | CANCELLED exactly for an unknown requester; otherwise all_users is every username in insertion order and followers names exactly the users who follow the requester, each once |
| Graph.FollowThenList | mp1_skeleton/tsd.cc:183-191 | after a successful Follow, the target's List reports the same users as before and the followers it reported before, in order, with the new follower at the end |
| Feed.AppendLine | mp1_skeleton/tsd.cc:355-357 | appending to a file adds the line at its end and leaves every other file unchanged |
| Feed.WriteAll | mp1_skeleton/tsd.cc:344 | writes go to the end of that user's stream and no other stream changes |
| Feed.BacklogWindow | mp1_skeleton/tsd.cc:317-327 | the deque ends up holding at most 20 lines, one per line of the pending file from Oldest on; which lines and in what order is stated by Feed.BacklogNewestFirst |
| Feed.Decode | mp1_skeleton/tsd.cc:332-343 | a stored line becomes a Message exactly when it splits into three fields, which become the username, the message and the timestamp, in that order |
| Feed.DecodeAll | mp1_skeleton/tsd.cc:330-346 | the replay loop writes at most one message per window line, each decoded from a line of the window |
| Feed.Replay | mp1_skeleton/tsd.cc:316-346 | a new session is sent at most 20 messages from its pending file |
| Feed.BacklogNewestFirst | mp1_skeleton/tsd.cc:317-326 | the deque holds the last (at most 20) lines of the pending file, newest first |
| Feed.BacklogWindowPush | mp1_skeleton/tsd.cc:321-325 | one more line goes to the front, and the oldest drops out when there are more than 20 |
| Feed.ReplayBounded | mp1_skeleton/tsd.cc:330-346 | at most 20 messages are replayed, each decoded from one of the last 20 lines |
| Feed.Decodable | mp1_skeleton/tsd.cc:330-335 | the window positions whose line splits into three fields, each once, in window order |
| Feed.DecodeAllDecodable | mp1_skeleton/tsd.cc:330-346 | for every window, the loop writes exactly the messages of the lines that split into three fields, in window order, and no others |
| Feed.ReplayedLines | mp1_skeleton/tsd.cc:317-346 | the pending-file lines that are sent: every line among the newest 20 that splits into three fields, each once, newest first |
| Feed.ReplayNewestFirst | mp1_skeleton/tsd.cc:317-346 | for every pending file, including ones with malformed lines, the session is sent the messages of the lines ReplayedLines picks, in that order |
| Feed.ReplayAllRecords | mp1_skeleton/tsd.cc:317-346 | when every kept line is a three-field record, the replay is exactly those records, newest first |
| Feed.DecodeAllInOrder | mp1_skeleton/tsd.cc:330-346 | a window whose lines all decode is sent as exactly those messages in window order |
| Feed.NewestRecordReplayedFirst | mp1_skeleton/tsd.cc:317-346 | the record appended last to a pending file is the first message of the next replay |
| Feed.ReplayOfOneRecord | mp1_skeleton/tsd.cc:317-346 | a pending file holding one stored record replays exactly that message |
| Feed.PendingFileInjective | mp1_skeleton/tsd.cc:366 | different users have different pending files |
| Feed.FileNamesCollide | mp1_skeleton/tsd.cc:355 | the authored file of user "bob_following" is bob's pending file |
| Feed.DeliverEffect | mp1_skeleton/tsd.cc:360-369 | a follower with a stream gets the post on it and no file changes; one without gets the record in its pending file and no stream changes; nothing else changes |
| Feed.FanoutDelivers | mp1_skeleton/tsd.cc:359-370 | each follower gets exactly one of a stream write of the post or one more pending record; other users' streams and other files are untouched |
| Feed.Deliver | mp1_skeleton/tsd.cc:360-369 | delivering to one follower changes no other user's stream and no file but that follower's pending file |
| Feed.Fanout | mp1_skeleton/tsd.cc:359-370 | the fanout changes no stream of a non-follower, and every existing file other than the followers' pending files keeps its lines |
| Feed.OpenTimeline | mp1_skeleton/tsd.cc:292-346 | afterwards the files are no longer due to be cleared; a client is bound exactly when a first message arrives and names a registered user, whose record then has its stream set; no record is added or dropped |
| Feed.Broadcast | mp1_skeleton/tsd.cc:350-370 | a post changes neither client_db nor the clear-files flag |
| Feed.CloseTimeline | mp1_skeleton/tsd.cc:374 | the client's stream is reset; usernames, files and streams are unchanged |
| Feed.Timeline | mp1_skeleton/tsd.cc:289-377 | the status is OK or CANCELLED, OK exactly when the first message names a registered user; the files are no longer due to be cleared afterwards |
| Feed.Posts | mp1_skeleton/tsd.cc:348-371 | the read loop never changes client_db or the clear-files flag |
| Feed.StreamFlagKeepsGraph | mp1_skeleton/tsd.cc:314 | binding or resetting a stream keeps the usernames, both lists of every record and the registry invariant |
| Feed.OpenTimelineRefused | mp1_skeleton/tsd.cc:292-312 | no first message or an unknown first username: CANCELLED with no stream bound and client_db and streams unchanged; the files are cleared on the first session either way |
| Feed.OpenTimelineBinds | mp1_skeleton/tsd.cc:303-346 | a known first username binds that record's stream, keeps everything else in client_db, and sends that user exactly the replay of its pending file |
| Feed.BroadcastDelivers | mp1_skeleton/tsd.cc:348-371 | a post appends one record to the author's file and reaches each follower exactly once, by stream or pending file; client_db, the author's own stream and all other files and streams are unchanged |
| Feed.TimelineOutcome | mp1_skeleton/tsd.cc:289-377 | CANCELLED exactly when there is no first message or its user is unknown; otherwise OK with the stream reset, the lists unchanged and the registry invariant kept |
| Feed.AliceAndBob | mp1_skeleton/tsd.cc:226-228 | after two logins and one Follow the registry is valid and alice's followers are [bob] |
| Feed.OnePost | mp1_skeleton/tsd.cc:348-371 | in a session where the author posts once, its one follower gets the post on its stream if bound, otherwise in its pending file |
| Feed.LiveDeliveryScenario | mp1_skeleton/tsd.cc:359-362 | with bob's session open, alice's post is written to bob's stream and nothing is queued |
| Feed.OfflineDeliveryScenario | mp1_skeleton/tsd.cc:363-368 | with bob offline, alice's post is queued in bob's pending file and sent to bob when bob's session opens |
| Feed.QueuedThenReplayed | mp1_skeleton/tsd.cc:316-368 | a post to an offline reader is queued as one record and replayed as that post when the reader opens a session |
| Feed.CatchUp | mp1_skeleton/tsd.cc:316-346 | a pending file holding one record is replayed to the opening session as that post |
| Server.Lookup | mp1_skeleton/tsd.cc:172-177 | the name scan loop returns what Find specifies |
| Server.Contains | mp1_skeleton/tsd.cc:226 | std::find reports a hit exactly when the value is in the list |
| Server.EraseAll | mp1_skeleton/tsd.cc:266-267 | the erase-remove loop computes Without |
| Server.LoadBacklog | mp1_skeleton/tsd.cc:317-327 | the push_front/pop_back loop builds the newest-first window of at most 20 lines |
| Server.UserNames | mp1_skeleton/tsd.cc:184-186 | the all_users loop returns every username in order |
| Server.FollowerNames | mp1_skeleton/tsd.cc:189-191 | the followers loop returns the names of the listed records in order |
| Server.SnsService.constructor | mp1_skeleton/tsd.cc:412 | the server starts with an empty client_db, the files on disk, no streams and the files due to be cleared |
| Server.SnsService.Login | mp1_skeleton/tsd.cc:275-287 | the method's status and new client_db are those of Graph.Login, and the invariant is kept |
| Server.SnsService.Follow | mp1_skeleton/tsd.cc:196-233 | the method's status and new client_db are those of Graph.Follow, and the invariant is kept |
| Server.SnsService.UnFollow | mp1_skeleton/tsd.cc:235-272 | the method's status and new client_db are those of Graph.UnFollow, and the invariant is kept |
| Server.SnsService.List | mp1_skeleton/tsd.cc:170-194 | the method returns OK or CANCELLED with the lists Graph.List specifies |
| Server.SnsService.ReplayBacklog | mp1_skeleton/tsd.cc:330-346 | the replay loop writes exactly the decodable lines of the window, in window order |
| Server.SnsService.Post | mp1_skeleton/tsd.cc:350-370 | one iteration of the read loop leaves the state Broadcast specifies |
| Server.SnsService.FanOut | mp1_skeleton/tsd.cc:359-370 | the fanout loop leaves the files and streams Fanout specifies |
| Server.SnsService.ReadLoop | mp1_skeleton/tsd.cc:348-371 | the read loop leaves the state Posts specifies |
| Server.SnsService.Open | mp1_skeleton/tsd.cc:292-346 | the session start leaves the state and bound client OpenTimeline specifies |
| Server.SnsService.Timeline | mp1_skeleton/tsd.cc:289-377 | a whole session returns the status and state Feed.Timeline specifies, and keeps the invariant |
| Commands.EdgeReply | mp1_skeleton/tsc.cc:201-214 | OK gives SUCCESS, ALREADY_EXISTS gives FAILURE_ALREADY_EXISTS, every other code gives FAILURE_INVALID_USERNAME, and grpc_status is reported as OK; UnFollow (tsc.cc 232-246) uses the same mapping |
| Commands.LoginReply | mp1_skeleton/tsc.cc:265-277 | OK gives SUCCESS, ALREADY_EXISTS gives FAILURE_ALREADY_EXISTS, every other code gives FAILURE_NOT_EXISTS, and grpc_status is kept |
| Commands.ListReply | mp1_skeleton/tsc.cc:171-183 | OK gives SUCCESS with both lists copied in order; a refused call gives FAILURE_UNKNOWN with empty lists |
| Commands.ConnectTo | mp1_skeleton/tsc.cc:81-87 | returns 1 exactly when the Login reply has status OK and SUCCESS, otherwise -1 |
| Commands.ConnectIffLoginOk | mp1_skeleton/tsc.cc:81-87 | connectTo succeeds exactly when the server's Login returned OK |
| Commands.ConnectRegisters | mp1_skeleton/tsc.cc:81-87 | connectTo succeeds exactly when the name was new, and then the server has registered it at the end of client_db |
| Commands.Extract | mp1_skeleton/tsc.cc:97 | one `>>` leaves the stream good exactly when it was good and a word was left; it then yields a non-empty word and consumes input, and otherwise yields an empty string |
| Commands.Dispatch | mp1_skeleton/tsc.cc:99-149 | FOLLOW, UNFOLLOW, LIST and TIMELINE result only from the matching command word, and a FOLLOW or UNFOLLOW target is a word |
| Commands.Parse | mp1_skeleton/tsc.cc:91-152 | a FOLLOW or UNFOLLOW target is a non-empty word without whitespace |
| Commands.CommandOf | mp1_skeleton/tsc.cc:91-152 | a valid command has one or two words, and a FOLLOW or UNFOLLOW target is the second word |
| Commands.Run | mp1_skeleton/tsc.cc:91-152 | the reply is FAILURE_INVALID exactly when the line parses to no command, and only FOLLOW and UNFOLLOW lines can change client_db |
| Commands.ParseByTokens | mp1_skeleton/tsc.cc:91-152 | processCommand's extractions give the command of the line's word list: FOLLOW and UNFOLLOW with exactly one argument, LIST and TIMELINE with none, anything else invalid |
| Commands.TokensAreWords | mp1_skeleton/tsc.cc:94-97 | every extracted word is non-empty and holds no whitespace |
| Commands.UnwordsRoundTrip | mp1_skeleton/tsc.cc:94-101 | words joined by spaces are extracted back as the same words |
| Commands.TwoExtractions | mp1_skeleton/tsc.cc:97-103 | two extractions give the first two words, and the stream stays good exactly while a word was there |
| Commands.ParseOtherWords | mp1_skeleton/tsc.cc:146-149 | an empty line or any other first word is FAILURE_INVALID |
| Commands.FollowLine | mp1_skeleton/tsc.cc:99-113 | "FOLLOW x" dispatches Follow(x) |
| Commands.UnFollowLine | mp1_skeleton/tsc.cc:114-128 | "UNFOLLOW x" dispatches UnFollow(x) |
| Commands.ListLine | mp1_skeleton/tsc.cc:129-136 | "LIST" dispatches List() |
| Commands.TimelineLine | mp1_skeleton/tsc.cc:137-145 | "TIMELINE" reports SUCCESS without any call and changes nothing |
| Commands.FollowReport | mp1_skeleton/tsc.cc:201-214 | for "FOLLOW x" the user sees FAILURE_INVALID_USERNAME exactly when either name is unknown, SUCCESS exactly when the edge is new and not a self-edge, FAILURE_ALREADY_EXISTS otherwise, always with status OK |
| Commands.UnFollowReport | mp1_skeleton/tsc.cc:232-246 | for "UNFOLLOW x" the user sees FAILURE_INVALID_USERNAME exactly when either name is unknown, SUCCESS exactly when the edge exists, FAILURE_ALREADY_EXISTS otherwise, always with status OK |
| Commands.ListReport | mp1_skeleton/tsc.cc:171-183 | "LIST" reports SUCCESS exactly for a registered user, with all usernames and the user's followers in order; otherwise FAILURE_UNKNOWN |

## Left out

- gRPC transport, the stubs, the server builder, `RunServer`, both `main` functions and option parsing: plumbing with no state logic. Each RPC is one atomic step.
- Concurrency: the client's reader thread, concurrent `stream->Write` calls from other sessions, and unsynchronised access to `client_db`. Sessions interleave only at the phase boundaries of `OpenTimeline`, `Broadcast` and `CloseTimeline`.
- `timestamp_to_string` and `convert_to_timestamp`: they depend on the time zone and the C library. Timestamps are opaque strings, converted unchanged.
- `MakeMessage`'s `time(NULL)`: wall-clock input.
- `delete_text_files`: walking the directory is left out. The first session's clearing is modelled as emptying the file map.
- The `connected` and `following_file_size` fields: the code never reads them.
- Client-side `Timeline`, `processTimeline`, console input/output and `sig_ignore`: terminal I/O loops.
- The client's header file is not part of this model. `IReply`'s fields are taken as used in `tsc.cc`.
- Server.SnsService.Timeline: a bound stream is identified by its username's outbox. Two simultaneous sessions of one user are not told apart.
- Commands.ListReply: takes the server's answer, OK or CANCELLED. It does not cover other transport error codes, which the source also maps to FAILURE_UNKNOWN.
- Graph.Follow: the target is the request's first argument. A request with no argument (`arguments(0)` on an empty list) is not modelled, because the client always sends one.
- Feed.BroadcastDelivers: it assumes the author's file is not one of the followers' pending files. `Feed.FileNamesCollide` shows that this can fail.
- Replay order: the code pushes each line to the front of the deque (tsd.cc:322) and sends from the front (tsd.cc:330), so the backlog goes out newest first.
