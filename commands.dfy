/**
 * The client side of the protocol: how a command line is read with
 * `istringstream >>` extractions (processCommand), how each RPC's status is
 * turned into the reply the client reports (Login, List, Follow, UnFollow),
 * and when connectTo counts as connected.
 */
module Commands {
  import opened Proto
  import opened Graph

  /** The outcome of a command as the client reports it. */
  datatype IStatus =
    | Success
    | FailureAlreadyExists
    | FailureNotExists
    | FailureInvalidUsername
    | FailureInvalid
    | FailureUnknown

  /** IReply: the RPC's status, the reported outcome and List's two lists. */
  datatype IReply = IReply(
    grpcStatus: StatusCode,
    commStatus: IStatus,
    allUsers: seq<string>,
    followers: seq<string>)

  /** What a command line asks for. */
  datatype Command =
    | FollowCmd(target: string)
    | UnFollowCmd(target: string)
    | ListCmd
    | TimelineCmd
    | InvalidCmd

  // ---------------------------------------------------------------------
  // Whitespace-separated words
  // ---------------------------------------------------------------------

  /** The characters `>>` skips in the "C" locale. */
  predicate IsSpace(c: char) {
    c == ' ' || c == '\t' || c == '\n' || c == '\U{000B}' || c == '\U{000C}' || c == '\r'
  }

  /** A non-empty run of non-space characters. */
  predicate Word(w: string) {
    w != [] && forall c :: c in w ==> !IsSpace(c)
  }

  /** `s` without its leading whitespace. */
  function SkipSpace(s: string): (r: string)
    ensures |r| <= |s| && r == s[|s| - |r|..]
    ensures r == [] || !IsSpace(r[0])
    ensures forall i :: 0 <= i < |s| - |r| ==> IsSpace(s[i])
  {
    if s != [] && IsSpace(s[0]) then SkipSpace(s[1..]) else s
  }

  /** Length of the word at the start of `s`. */
  function WordEnd(s: string): (k: nat)
    ensures k <= |s|
    ensures k < |s| ==> IsSpace(s[k])
    ensures forall i :: 0 <= i < k ==> !IsSpace(s[i])
  {
    if s == [] || IsSpace(s[0]) then 0 else 1 + WordEnd(s[1..])
  }

  /** The words of a line, in order. */
  function Tokens(s: string): (r: seq<string>)
    decreases |s|
  {
    var t := SkipSpace(s);
    if t == [] then []
    else
      var k := WordEnd(t);
      [t[..k]] + Tokens(t[k..])
  }

  /** Words joined by single spaces. */
  function Unwords(ws: seq<string>): (r: string) {
    if ws == [] then []
    else if |ws| == 1 then ws[0]
    else ws[0] + " " + Unwords(ws[1..])
  }

  // ---------------------------------------------------------------------
  // processCommand
  // ---------------------------------------------------------------------

  /** The part of an istringstream that matters here: what is left to read,
      and whether no extraction has failed yet. */
  datatype Stream = Stream(rest: string, good: bool)

  /** One `iss >> s` into a fresh string: on a failed stream nothing
      happens; otherwise skip whitespace, and either fail (nothing left) or
      take the next word. */
  datatype Extraction = Extraction(token: string, stream: Stream)

  function Extract(st: Stream): (r: Extraction)
    ensures r.stream.good <==> st.good && SkipSpace(st.rest) != []
    ensures r.token != "" <==> r.stream.good
    ensures r.stream.good ==> Word(r.token) && |r.stream.rest| < |st.rest|
  {
    if !st.good then Extraction("", st)
    else
      var t := SkipSpace(st.rest);
      if t == [] then Extraction("", Stream([], false))
      else
        var k := WordEnd(t);
        assert forall c :: c in t[..k] ==> !IsSpace(c) by {
          forall c | c in t[..k] ensures !IsSpace(c) {
            var i :| 0 <= i < k && t[..k][i] == c;
          }
        }
        Extraction(t[..k], Stream(t[k..], true))
  }

  /** processCommand: read the command word, then branch on it. */
  function Parse(input: string): (r: Command)
    ensures (r.FollowCmd? || r.UnFollowCmd?) ==> Word(r.target)
  {
    Dispatch(Extract(Stream(input, true)))
  }

  /** processCommand's branching on the command word, reading the
      arguments from what is left of the line. */
  function Dispatch(command: Extraction): (r: Command)
    ensures r.FollowCmd? ==> command.token == "FOLLOW" && Word(r.target)
    ensures r.UnFollowCmd? ==> command.token == "UNFOLLOW" && Word(r.target)
    ensures r.ListCmd? ==> command.token == "LIST"
    ensures r.TimelineCmd? ==> command.token == "TIMELINE"
  {
    if command.token == "FOLLOW" then
      var user := Extract(command.stream);
      var ignore := Extract(user.stream);
      if ignore.stream.good then InvalidCmd
      else if user.token != "" then FollowCmd(user.token)
      else InvalidCmd
    else if command.token == "UNFOLLOW" then
      var user := Extract(command.stream);
      var ignore := Extract(user.stream);
      if ignore.stream.good then InvalidCmd
      else if user.token != "" then UnFollowCmd(user.token)
      else InvalidCmd
    else if command.token == "LIST" then
      var ignore := Extract(command.stream);
      if ignore.stream.good then InvalidCmd else ListCmd
    else if command.token == "TIMELINE" then
      var ignore := Extract(command.stream);
      if ignore.stream.good then InvalidCmd else TimelineCmd
    else InvalidCmd
  }

  /** The command a word list stands for: FOLLOW and UNFOLLOW take exactly
      one argument, LIST and TIMELINE none, and nothing else is a command. */
  function CommandOf(ts: seq<string>): (r: Command)
    ensures r != InvalidCmd ==> 1 <= |ts| <= 2
    ensures (r.FollowCmd? || r.UnFollowCmd?) ==> |ts| == 2 && r.target == ts[1]
  {
    if |ts| == 2 && ts[0] == "FOLLOW" then FollowCmd(ts[1])
    else if |ts| == 2 && ts[0] == "UNFOLLOW" then UnFollowCmd(ts[1])
    else if ts == ["LIST"] then ListCmd
    else if ts == ["TIMELINE"] then TimelineCmd
    else InvalidCmd
  }

  // ---------------------------------------------------------------------
  // Replies
  // ---------------------------------------------------------------------

  /** Client::Follow and Client::UnFollow: a failed call is reported with
      its status overwritten to OK. */
  function EdgeReply(status: StatusCode): (r: IReply)
    ensures r.grpcStatus == Ok
    ensures r.commStatus == Success <==> status == Ok
    ensures r.commStatus == FailureAlreadyExists <==> status == AlreadyExists
    ensures r.commStatus == FailureInvalidUsername <==> status != Ok && status != AlreadyExists
  {
    if status == Ok then IReply(status, Success, [], [])
    else if status == AlreadyExists then IReply(Ok, FailureAlreadyExists, [], [])
    else IReply(Ok, FailureInvalidUsername, [], [])
  }

  /** Client::Login: the status is kept as returned. */
  function LoginReply(status: StatusCode): (r: IReply)
    ensures r.grpcStatus == status
    ensures r.commStatus == Success <==> status == Ok
    ensures r.commStatus == FailureAlreadyExists <==> status == AlreadyExists
    ensures r.commStatus == FailureNotExists <==> status != Ok && status != AlreadyExists
  {
    IReply(status,
           if status == Ok then Success
           else if status == AlreadyExists then FailureAlreadyExists
           else FailureNotExists,
           [], [])
  }

  /** Client::List: on OK both lists are copied in order; a refused call
      is FAILURE_UNKNOWN with empty lists. */
  function ListReply(result: ListResult): (r: IReply)
    ensures r.commStatus == Success <==> result.ListOk?
    ensures r.commStatus == Success ==>
      r.grpcStatus == Ok && r.allUsers == result.allUsers && r.followers == result.followers
    ensures r.commStatus != Success ==>
      r.grpcStatus == Cancelled && r.commStatus == FailureUnknown && r.allUsers == [] && r.followers == []
  {
    match result
    case ListOk(allUsers, followers) => IReply(Ok, Success, allUsers, followers)
    case ListCancelled => IReply(Cancelled, FailureUnknown, [], [])
  }

  /** Client::connectTo after its Login call. */
  function ConnectTo(login: IReply): (r: int)
    ensures r == 1 || r == -1
    ensures r == 1 <==> login.grpcStatus == Ok && login.commStatus == Success
  {
    if login.grpcStatus == Ok && login.commStatus == Success then 1 else -1
  }

  /** The reply for a line typed by `me`, answered by the server over
      `db`, and the registry after it. */
  datatype Outcome = Outcome(reply: IReply, db: seq<ClientRecord>)

  function Run(db: seq<ClientRecord>, me: string, input: string): (r: Outcome)
    requires Valid(db)
    ensures r.reply.commStatus == FailureInvalid <==> Parse(input) == InvalidCmd
    ensures !(Parse(input).FollowCmd? || Parse(input).UnFollowCmd?) ==> r.db == db
  {
    match Parse(input)
    case FollowCmd(target) =>
      var step := Graph.Follow(db, me, target);
      Outcome(EdgeReply(step.status), step.db)
    case UnFollowCmd(target) =>
      var step := Graph.UnFollow(db, me, target);
      Outcome(EdgeReply(step.status), step.db)
    case ListCmd => Outcome(ListReply(Graph.List(db, me)), db)
    case TimelineCmd => Outcome(IReply(Ok, Success, [], []), db)
    case InvalidCmd => Outcome(IReply(Ok, FailureInvalid, [], []), db)
  }

  // ---------------------------------------------------------------------
  // Properties
  // ---------------------------------------------------------------------

  /** WordEnd finds the end of a leading word. */
  lemma WordEndIs(s: string, k: nat)
    requires k <= |s|
    requires k < |s| ==> IsSpace(s[k])
    requires forall i :: 0 <= i < k ==> !IsSpace(s[i])
    ensures WordEnd(s) == k
  {
  }

  /** Every token is a word. */
  lemma {:induction false} TokensAreWords(s: string)
    ensures forall w :: w in Tokens(s) ==> Word(w)
    decreases |s|
  {
    var t := SkipSpace(s);
    if t != [] {
      var k := WordEnd(t);
      assert forall c :: c in t[..k] ==> !IsSpace(c) by {
        forall c | c in t[..k] ensures !IsSpace(c) {
          var i :| 0 <= i < k && t[..k][i] == c;
        }
      }
      TokensAreWords(t[k..]);
    }
  }

  /** A word followed by whitespace (or nothing) is read whole. */
  lemma WordThenRest(w: string, rest: string)
    requires Word(w)
    requires rest == [] || IsSpace(rest[0])
    ensures Tokens(w + rest) == [w] + Tokens(rest)
  {
    var s := w + rest;
    forall i | 0 <= i < |w| ensures !IsSpace(s[i]) {
      assert s[i] == w[i] && w[i] in w;
    }
    WordEndIs(s, |w|);
    TokensAtWord(s);
    assert s[..|w|] == w;
    assert s[|w|..] == rest;
  }

  /** A line that starts with a word yields that word first. */
  lemma TokensAtWord(s: string)
    requires s != [] && !IsSpace(s[0])
    ensures Tokens(s) == [s[..WordEnd(s)]] + Tokens(s[WordEnd(s)..])
  {
    assert SkipSpace(s) == s;
  }

  /** Leading whitespace does not change the words. */
  lemma SpaceThenRest(rest: string)
    ensures Tokens(" " + rest) == Tokens(rest)
  {
    assert (" " + rest)[1..] == rest;
  }

  /** Words joined by single spaces read back as the same words. */
  lemma {:induction false} UnwordsRoundTrip(ws: seq<string>)
    requires forall p :: 0 <= p < |ws| ==> Word(ws[p])
    ensures Tokens(Unwords(ws)) == ws
  {
    if |ws| == 1 {
      WordAlone(ws[0]);
    } else if |ws| > 1 {
      var tail := Unwords(ws[1..]);
      assert Tokens(tail) == ws[1..] by {
        assert forall p :: 0 <= p < |ws| - 1 ==> ws[1..][p] == ws[p + 1];
        UnwordsRoundTrip(ws[1..]);
      }
      WordBeforeSpace(ws[0], tail);
      assert ws == [ws[0]] + ws[1..];
    }
  }

  /** A word alone is one token. */
  lemma WordAlone(w: string)
    requires Word(w)
    ensures Tokens(w) == [w]
  {
    WordThenRest(w, []);
    assert w + [] == w;
  }

  /** A word, a space, then a line: that word, then the line's words. */
  lemma WordBeforeSpace(w: string, tail: string)
    requires Word(w)
    ensures Tokens(w + " " + tail) == [w] + Tokens(tail)
  {
    assert w + " " + tail == w + (" " + tail);
    WordThenRest(w, " " + tail);
    SpaceThenRest(tail);
  }

  /** One extraction from a good stream takes the first word and leaves the
      rest of the words, or fails exactly when there is no word left. */
  lemma ExtractTakesWord(s: string)
    ensures var e := Extract(Stream(s, true));
      if Tokens(s) == [] then e == Extraction("", Stream([], false))
      else e.token == Tokens(s)[0] && e.stream.good && Tokens(e.stream.rest) == Tokens(s)[1..]
  {
  }

  /** Two extractions from a good stream: the first yields the first word,
      the second the second word, and each leaves the stream good exactly
      when it found a word. */
  lemma TwoExtractions(st: Stream)
    requires st.good
    ensures var ts := Tokens(st.rest);
      var first := Extract(st);
      var second := Extract(first.stream);
      && first.token == (if ts == [] then "" else ts[0])
      && (first.stream.good <==> ts != [])
      && (first.stream.good ==> Tokens(first.stream.rest) == ts[1..])
      && second.token == (if |ts| >= 2 then ts[1] else "")
      && (second.stream.good <==> |ts| >= 2)
      && (ts != [] ==> first.token != "")
      && (|ts| >= 2 ==> second.token != "")
  {
    var ts := Tokens(st.rest);
    ExtractTakesWord(st.rest);
    TokensAreWords(st.rest);
    if ts != [] {
      assert ts[0] in ts;
      var first := Extract(st);
      ExtractTakesWord(first.stream.rest);
      if |ts| >= 2 {
        assert ts[1] in ts;
      }
    }
  }

  /** processCommand dispatches on the words of the line: FOLLOW x and
      UNFOLLOW x with exactly one argument, LIST and TIMELINE alone; a
      missing argument, an extra word, an empty line or any other first
      word (lower case included) is FAILURE_INVALID. */
  lemma ParseByTokens(input: string)
    ensures Parse(input) == CommandOf(Tokens(input))
  {
    var ts := Tokens(input);
    var command := Extract(Stream(input, true));
    TwoExtractions(Stream(input, true));
    if command.stream.good {
      TwoExtractions(command.stream);
      var rest := Tokens(command.stream.rest);
      assert |rest| == |ts| - 1;
      if |ts| >= 2 {
        assert rest[0] == ts[1];
      }
    }
    ParseFromWords(input, ts);
  }

  /** What the extractions of processCommand yield from `input`, stated
      over its word list `ts`. */
  ghost predicate ExtractsWords(input: string, ts: seq<string>) {
    var command := Extract(Stream(input, true));
    && command.token == (if ts == [] then "" else ts[0])
    && (command.stream.good <==> ts != [])
    && (command.stream.good ==>
          var user := Extract(command.stream);
          var ignore := Extract(user.stream);
          && user.token == (if |ts| >= 2 then ts[1] else "")
          && (user.stream.good <==> |ts| >= 2)
          && (ignore.stream.good <==> |ts| >= 3)
          && (|ts| >= 2 ==> user.token != ""))
  }

  /** Parse from what the extractions yield, stated over the word list. */
  lemma ParseFromWords(input: string, ts: seq<string>)
    requires ExtractsWords(input, ts)
    ensures Parse(input) == CommandOf(ts)
  {
    if ts == [] || ts[0] !in {"FOLLOW", "UNFOLLOW", "LIST", "TIMELINE"} {
      ParseOtherWords(input, ts);
    } else if ts[0] in {"FOLLOW", "UNFOLLOW"} {
      ParseEdgeWords(input, ts);
    } else {
      ParseBareWords(input, ts);
    }
  }

  /** The four keywords are pairwise different. */
  lemma KeywordsDiffer()
    ensures "FOLLOW" != "UNFOLLOW" && "FOLLOW" != "LIST" && "FOLLOW" != "TIMELINE"
    ensures "UNFOLLOW" != "LIST" && "UNFOLLOW" != "TIMELINE" && "LIST" != "TIMELINE"
  {
    assert |"FOLLOW"| == 6 && |"UNFOLLOW"| == 8 && |"LIST"| == 4 && |"TIMELINE"| == 8;
    assert "UNFOLLOW"[0] != "TIMELINE"[0];
  }

  /** A line whose first word is no keyword, or that has no word, is
      invalid. */
  lemma ParseOtherWords(input: string, ts: seq<string>)
    requires ExtractsWords(input, ts)
    requires ts == [] || ts[0] !in {"FOLLOW", "UNFOLLOW", "LIST", "TIMELINE"}
    ensures Parse(input) == CommandOf(ts) == InvalidCmd
  {
    var command := Extract(Stream(input, true));
    assert command.token !in {"FOLLOW", "UNFOLLOW", "LIST", "TIMELINE"};
    assert Parse(input) == Dispatch(command);
  }

  /** FOLLOW and UNFOLLOW lines: exactly one argument word. */
  lemma ParseEdgeWords(input: string, ts: seq<string>)
    requires ExtractsWords(input, ts)
    requires ts != [] && ts[0] in {"FOLLOW", "UNFOLLOW"}
    ensures Parse(input) == CommandOf(ts)
  {
    DispatchEdge(Extract(Stream(input, true)), ts);
  }

  /** The branches for FOLLOW and UNFOLLOW, on any command word. */
  lemma DispatchEdge(command: Extraction, ts: seq<string>)
    requires ts != [] && ts[0] in {"FOLLOW", "UNFOLLOW"} && command.token == ts[0]
    requires var user := Extract(command.stream);
      && user.token == (if |ts| >= 2 then ts[1] else "")
      && (Extract(user.stream).stream.good <==> |ts| >= 3)
      && (|ts| >= 2 ==> user.token != "")
    ensures Dispatch(command) == CommandOf(ts)
  {
    KeywordsDiffer();
  }

  /** LIST and TIMELINE lines: no argument word. */
  lemma ParseBareWords(input: string, ts: seq<string>)
    requires ExtractsWords(input, ts)
    requires ts != [] && ts[0] in {"LIST", "TIMELINE"}
    ensures Parse(input) == CommandOf(ts)
  {
    DispatchBare(Extract(Stream(input, true)), ts);
    BareCommand(ts);
  }

  /** The branches for LIST and TIMELINE, on any command word. */
  lemma DispatchBare(command: Extraction, ts: seq<string>)
    requires ts != [] && ts[0] in {"LIST", "TIMELINE"} && command.token == ts[0]
    requires Extract(command.stream).stream.good <==> |ts| >= 2
    ensures Dispatch(command) == if |ts| >= 2 then InvalidCmd else if ts[0] == "LIST" then ListCmd else TimelineCmd
  {
    KeywordsDiffer();
  }

  /** The word list of a line led by LIST or TIMELINE: the bare command,
      or invalid when another word follows. */
  lemma BareCommand(ts: seq<string>)
    requires ts != [] && ts[0] in {"LIST", "TIMELINE"}
    ensures CommandOf(ts) == if |ts| >= 2 then InvalidCmd else if ts[0] == "LIST" then ListCmd else TimelineCmd
  {
    KeywordsDiffer();
    if |ts| == 1 {
      assert ts == [ts[0]];
    }
  }

  /** The command keywords are words. */
  lemma KeywordsAreWords()
    ensures Word("FOLLOW") && Word("UNFOLLOW") && Word("LIST") && Word("TIMELINE")
  {
    assert "FOLLOW" == ['F', 'O', 'L', 'L', 'O', 'W'];
    assert "UNFOLLOW" == ['U', 'N', 'F', 'O', 'L', 'L', 'O', 'W'];
    assert "LIST" == ['L', 'I', 'S', 'T'];
    assert "TIMELINE" == ['T', 'I', 'M', 'E', 'L', 'I', 'N', 'E'];
  }

  /** A keyword and one argument, typed with a single space, parse as
      that word pair. */
  lemma TwoWordLine(keyword: string, target: string)
    requires Word(keyword) && Word(target)
    ensures Parse(Unwords([keyword, target])) == CommandOf([keyword, target])
  {
    var line := Unwords([keyword, target]);
    assert Tokens(line) == [keyword, target] by {
      UnwordsRoundTrip([keyword, target]);
    }
    ParseByTokens(line);
  }

  /** A typed FOLLOW command for one word reaches the server's Follow. */
  lemma FollowLine(target: string)
    requires Word(target)
    ensures Parse(Unwords(["FOLLOW", target])) == FollowCmd(target)
  {
    KeywordsAreWords();
    TwoWordLine("FOLLOW", target);
    assert |"FOLLOW"| != |"FOLLOW"| || "FOLLOW" == "FOLLOW";
  }

  /** A typed UNFOLLOW command for one word reaches the server's UnFollow. */
  lemma UnFollowLine(target: string)
    requires Word(target)
    ensures Parse(Unwords(["UNFOLLOW", target])) == UnFollowCmd(target)
  {
    KeywordsAreWords();
    TwoWordLine("UNFOLLOW", target);
    assert |"UNFOLLOW"| != |"FOLLOW"| || "UNFOLLOW" == "FOLLOW";
  }

  /** A keyword typed alone parses as that one-word line. */
  lemma OneWordLine(keyword: string)
    requires Word(keyword)
    ensures Parse(keyword) == CommandOf([keyword])
  {
    assert Tokens(keyword) == [keyword] by {
      WordAlone(keyword);
    }
    ParseByTokens(keyword);
  }

  /** The line TIMELINE is reported as SUCCESS without any call. */
  lemma TimelineLine(db: seq<ClientRecord>, me: string)
    requires Valid(db)
    ensures Parse("TIMELINE") == TimelineCmd
    ensures Run(db, me, "TIMELINE") == Outcome(IReply(Ok, Success, [], []), db)
  {
    TimelineParses();
  }

  /** The line TIMELINE parses as the TIMELINE command. */
  lemma TimelineParses()
    ensures Parse("TIMELINE") == TimelineCmd
  {
    KeywordsAreWords();
    OneWordLine("TIMELINE");
    TimelineIsCommand();
  }

  /** The one-word line TIMELINE stands for the TIMELINE command. */
  lemma TimelineIsCommand()
    ensures CommandOf(["TIMELINE"]) == TimelineCmd
  {
    KeywordsDiffer();
  }

  /** The line LIST reaches the server's List. */
  lemma ListLine()
    ensures Parse("LIST") == ListCmd
  {
    assert Parse("LIST") == CommandOf(["LIST"]) by {
      KeywordsAreWords();
      OneWordLine("LIST");
    }
  }

  /** connectTo succeeds exactly when the server answers Login with OK. */
  lemma ConnectIffLoginOk(status: StatusCode)
    ensures ConnectTo(LoginReply(status)) == 1 <==> status == Ok
  {
  }

  /** Against the server, connectTo succeeds exactly for a name that is not
      yet registered, and registers it. */
  lemma ConnectRegisters(db: seq<ClientRecord>, name: string)
    requires Valid(db)
    ensures var step := Graph.Login(db, name);
      && (ConnectTo(LoginReply(step.status)) == 1 <==> name !in Names(db))
      && (ConnectTo(LoginReply(step.status)) == 1 ==> Names(step.db) == Names(db) + [name])
  {
    LoginOutcome(db, name);
    var step := Graph.Login(db, name);
    if step.status == Ok {
      assert Names(step.db) == Names(db) + [name];
    }
  }

  /** What a FOLLOW line reports against the server: SUCCESS exactly when
      both users are registered, distinct and not yet linked;
      FAILURE_ALREADY_EXISTS when both are registered but the target is the
      user or already followed; FAILURE_INVALID_USERNAME when either is
      unknown. The reported status is OK in every case. */
  lemma FollowReport(db: seq<ClientRecord>, me: string, target: string)
    requires Valid(db) && Word(target)
    ensures var o := Run(db, me, Unwords(["FOLLOW", target]));
      && o.reply.grpcStatus == Ok
      && (o.reply.commStatus == FailureInvalidUsername <==> me !in Names(db) || target !in Names(db))
      && (o.reply.commStatus == Success <==>
            me in Names(db) && target in Names(db) && target != me
            && Id(db, target) !in db[Id(db, me)].following)
      && (o.reply.commStatus == FailureAlreadyExists <==>
            me in Names(db) && target in Names(db)
            && (target == me || Id(db, target) in db[Id(db, me)].following))
  {
    var step := Graph.Follow(db, me, target);
    assert Run(db, me, Unwords(["FOLLOW", target])) == Outcome(EdgeReply(step.status), step.db) by {
      FollowLine(target);
    }
    FollowRejections(db, me, target);
    if me in Names(db) && target in Names(db) && me != target {
      FollowAddsEdge(db, me, target);
    }
  }

  /** What an UNFOLLOW line reports against the server: SUCCESS exactly
      when both users are registered, distinct and linked;
      FAILURE_ALREADY_EXISTS when both are registered but the target is the
      user or not followed; FAILURE_INVALID_USERNAME when either is
      unknown. The reported status is OK in every case. */
  lemma UnFollowReport(db: seq<ClientRecord>, me: string, target: string)
    requires Valid(db) && Word(target)
    ensures var o := Run(db, me, Unwords(["UNFOLLOW", target]));
      && o.reply.grpcStatus == Ok
      && (o.reply.commStatus == FailureInvalidUsername <==> me !in Names(db) || target !in Names(db))
      && (o.reply.commStatus == Success <==>
            me in Names(db) && target in Names(db) && target != me
            && Id(db, target) in db[Id(db, me)].following)
      && (o.reply.commStatus == FailureAlreadyExists <==>
            me in Names(db) && target in Names(db)
            && (target == me || Id(db, target) !in db[Id(db, me)].following))
  {
    var step := Graph.UnFollow(db, me, target);
    assert Run(db, me, Unwords(["UNFOLLOW", target])) == Outcome(EdgeReply(step.status), step.db) by {
      UnFollowLine(target);
    }
    UnFollowRejections(db, me, target);
    if me in Names(db) && target in Names(db) && me != target {
      UnFollowRemovesEdge(db, me, target);
    }
  }

  /** What a LIST line reports against the server: SUCCESS with every
      username and the user's followers' names when the user is
      registered, FAILURE_UNKNOWN otherwise. */
  lemma ListReport(db: seq<ClientRecord>, me: string)
    requires Valid(db)
    ensures me in Names(db) ==> WellLinked(db, Id(db, me))
    ensures var o := Run(db, me, "LIST");
      && o.db == db
      && (o.reply.commStatus == Success <==> me in Names(db))
      && (o.reply.commStatus == Success ==>
            o.reply.allUsers == Names(db)
            && o.reply.followers == NamesOf(db, db[Id(db, me)].followers))
      && (o.reply.commStatus != Success ==> o.reply.commStatus == FailureUnknown)
  {
    assert Run(db, me, "LIST") == Outcome(ListReply(Graph.List(db, me)), db) by {
      ListLine();
    }
    ListReportsGraph(db, me);
    if me in Names(db) {
      ListOf(db, me);
    }
  }
}
