/**
 * The timeline side of the daemon: the per-user text files, the backlog a
 * new session replays, and the fanout of each post to the author's
 * followers, as functions over the whole server state.
 *
 * Files are a map from file name to lines. A stream write is an append to
 * the receiving user's outbox.
 */
module Feed {
  import opened Wrappers
  import opened Proto
  import opened Records
  import opened Graph

  type Files = map<string, seq<string>>
  type Outbox = map<string, seq<Message>>

  /** How many pending lines a new session keeps. */
  const BacklogLimit: nat := 20

  /** `<user>.txt`: the posts the user wrote. */
  function AuthoredFile(name: string): (f: string) {
    name + ".txt"
  }

  /** `<user>_following.txt`: posts queued while the user had no stream. */
  function PendingFile(name: string): (f: string) {
    name + "_following.txt"
  }

  /** The lines of a file; a missing file reads as empty. */
  function Lines(files: Files, f: string): (r: seq<string>) {
    if f in files then files[f] else []
  }

  /** Opening a file for append and writing one line with std::endl. */
  function AppendLine(files: Files, f: string, line: string): (r: Files)
    ensures Lines(r, f) == Lines(files, f) + [line]
    ensures forall g :: g != f ==> Lines(r, g) == Lines(files, g)
  {
    files[f := Lines(files, f) + [line]]
  }

  /** Everything written so far to the user's streams. */
  function Sent(outbox: Outbox, name: string): (r: seq<Message>) {
    if name in outbox then outbox[name] else []
  }

  /** stream->Write for each of `msgs`, in order. */
  function WriteAll(outbox: Outbox, name: string, msgs: seq<Message>): (r: Outbox)
    ensures Sent(r, name) == Sent(outbox, name) + msgs
    ensures forall n :: n != name ==> Sent(r, n) == Sent(outbox, n)
  {
    if msgs == [] then outbox else outbox[name := Sent(outbox, name) + msgs]
  }

  /** Two writes to one stream are one write of both, in order. */
  lemma WriteAllTwice(outbox: Outbox, name: string, a: seq<Message>, b: seq<Message>)
    ensures WriteAll(WriteAll(outbox, name, a), name, b) == WriteAll(outbox, name, a + b)
  {
    if b == [] {
      assert a + b == a;
    } else if a == [] {
      assert a + b == b;
    } else {
      assert Sent(outbox, name) + a + b == Sent(outbox, name) + (a + b);
    }
  }

  function Reverse<T>(s: seq<T>): (r: seq<T>)
    ensures |r| == |s|
    ensures forall k :: 0 <= k < |s| ==> r[k] == s[|s| - 1 - k]
  {
    if s == [] then [] else [s[|s| - 1]] + Reverse(s[..|s| - 1])
  }

  /** Index of the oldest line the backlog keeps. */
  function Oldest(lines: seq<string>): (o: nat)
    ensures o <= |lines|
  {
    if |lines| <= BacklogLimit then 0 else |lines| - BacklogLimit
  }

  /** The deque `last20` after the read loop: the newest BacklogLimit
      lines, newest first. */
  function BacklogWindow(lines: seq<string>): (r: seq<string>)
    ensures |r| == |lines| - Oldest(lines) <= BacklogLimit
  {
    Reverse(lines[Oldest(lines)..])
  }

  /** A stored line as a Message, when it splits into exactly three fields. */
  function Decode(line: string): (r: Option<Message>)
    ensures r.Some? <==> |Fields(line)| == 3
    ensures r.Some? ==> Fields(line) == [r.value.username, r.value.msg, r.value.timestamp]
  {
    var f := Fields(line);
    if |f| == 3 then Some(Message(f[0], f[1], f[2])) else None
  }

  /** What the replay loop writes for one line of the window. */
  function Emit(line: string): (r: seq<Message>) {
    match Decode(line)
    case Some(m) => [m]
    case None => []
  }

  /** What the replay loop writes for a window, in window order. */
  function DecodeAll(window: seq<string>): (r: seq<Message>)
    ensures |r| <= |window|
    ensures forall m :: m in r ==> exists p :: 0 <= p < |window| && Decode(window[p]) == Some(m)
  {
    if window == [] then []
    else
      var init := window[..|window| - 1];
      var r := DecodeAll(init) + Emit(window[|window| - 1]);
      assert forall p :: 0 <= p < |init| ==> init[p] == window[p];
      r
  }

  /** The messages a new session is sent from its pending file. */
  function Replay(lines: seq<string>): (r: seq<Message>)
    ensures |r| <= BacklogLimit
  {
    DecodeAll(BacklogWindow(lines))
  }

  /** The state a Broadcast works on: the files and the outboxes. */
  datatype Delivery = Delivery(files: Files, outbox: Outbox)

  /** One follower's share of a post: a stream write when it has a stream,
      otherwise one more line in its pending file. */
  function Deliver(db: seq<ClientRecord>, f: nat, m: Message, rec: string, d: Delivery): (r: Delivery)
    requires f < |db|
    ensures forall n :: n != db[f].username ==> Sent(r.outbox, n) == Sent(d.outbox, n)
    ensures forall g :: g != PendingFile(db[f].username) ==> Lines(r.files, g) == Lines(d.files, g)
  {
    if db[f].hasStream then Delivery(d.files, WriteAll(d.outbox, db[f].username, [m]))
    else Delivery(AppendLine(d.files, PendingFile(db[f].username), rec), d.outbox)
  }

  /** The fanout loop over `followers`, in list order. */
  function Fanout(db: seq<ClientRecord>, followers: seq<nat>, m: Message, rec: string, d: Delivery): (r: Delivery)
    requires InRange(db, followers)
    ensures forall n :: n !in NamesOf(db, followers) ==> Sent(r.outbox, n) == Sent(d.outbox, n)
    ensures forall g :: g in d.files && g !in PendingFilesOf(db, followers) ==> g in r.files && r.files[g] == d.files[g]
  {
    if followers == [] then d
    else
      var init := followers[..|followers| - 1];
      assert forall p :: 0 <= p < |init| ==> init[p] == followers[p];
      Deliver(db, followers[|followers| - 1], m, rec, Fanout(db, init, m, rec, d))
  }

  /** The fanout loop's step: the first p + 1 followers are the first p
      and then follower p. */
  lemma FanoutStep(db: seq<ClientRecord>, followers: seq<nat>, p: nat, m: Message, rec: string, d: Delivery)
    requires InRange(db, followers) && p < |followers|
    ensures InRange(db, followers[..p]) && InRange(db, followers[..p + 1])
    ensures Fanout(db, followers[..p + 1], m, rec, d)
         == Deliver(db, followers[p], m, rec, Fanout(db, followers[..p], m, rec, d))
  {
    assert followers[..p + 1][..p] == followers[..p];
  }

  /** The pending-file names of the records `ids` points to. */
  function PendingFilesOf(db: seq<ClientRecord>, ids: seq<nat>): (r: seq<string>)
    requires InRange(db, ids)
    ensures |r| == |ids|
    ensures forall p :: 0 <= p < |ids| ==> r[p] == PendingFile(db[ids[p]].username)
  {
    seq(|ids|, p requires 0 <= p < |ids| => PendingFile(db[ids[p]].username))
  }

  /** The whole server: client_db, the files, the streams, and the flag
      that clears the files on the first Timeline call. */
  datatype ServerState = ServerState(
    db: seq<ClientRecord>,
    files: Files,
    outbox: Outbox,
    delTxtFiles: bool)

  /** A session after its first read: the state, and the bound client
      (None when the session was cancelled). */
  datatype Opening = Opening(state: ServerState, client: Option<nat>)

  /** A finished Timeline call: its status and the state it leaves. */
  datatype Session = Session(status: StatusCode, state: ServerState)

  /** Timeline up to its read loop: clear the files if still asked to, read
      the first message (None when the stream yields none), bind the stream
      to the named client, and replay its backlog to it. */
  function OpenTimeline(s: ServerState, first: Option<Message>): (r: Opening)
    ensures !r.state.delTxtFiles
    ensures r.client.Some? <==> first.Some? && first.value.username in Names(s.db)
    ensures |r.state.db| == |s.db|
    ensures r.client.Some? ==>
      r.client.value < |s.db| && s.db[r.client.value].username == first.value.username
      && r.state.db[r.client.value].hasStream
  {
    var s1 := if s.delTxtFiles then s.(files := map[], delTxtFiles := false) else s;
    match first
    case None => Opening(s1, None)
    case Some(hello) =>
      match Find(s.db, hello.username)
      case None => Opening(s1, None)
      case Some(i) =>
        var backlog := Replay(Lines(s1.files, PendingFile(hello.username)));
        Opening(s1.(db := s.db[i := s.db[i].(hasStream := true)],
                    outbox := WriteAll(s.outbox, hello.username, backlog)),
                Some(i))
  }

  /** One iteration of the read loop of client `i`'s session: store the post
      in its author's file, then fan it out to `i`'s followers. */
  function Broadcast(s: ServerState, i: nat, m: Message): (r: ServerState)
    requires i < |s.db| && InRange(s.db, s.db[i].followers)
    ensures r.db == s.db && r.delTxtFiles == s.delTxtFiles
  {
    var rec := FormatFileOutput(m.username, m.msg, m.timestamp);
    var d := Delivery(AppendLine(s.files, AuthoredFile(m.username), rec), s.outbox);
    var r := Fanout(s.db, s.db[i].followers, m, rec, d);
    s.(files := r.files, outbox := r.outbox)
  }

  /** Broadcast leaves the registry and the clear-files flag as they were
      and takes its files and streams from the fanout over the author's
      followers. */
  lemma BroadcastIs(s: ServerState, i: nat, m: Message, rec: string, d: Delivery, r: Delivery)
    requires i < |s.db| && InRange(s.db, s.db[i].followers)
    requires rec == FormatFileOutput(m.username, m.msg, m.timestamp)
    requires d == Delivery(AppendLine(s.files, AuthoredFile(m.username), rec), s.outbox)
    requires r == Fanout(s.db, s.db[i].followers, m, rec, d)
    ensures Broadcast(s, i, m) == ServerState(s.db, r.files, r.outbox, s.delTxtFiles)
  {
  }

  /** The read loop over the posts `msgs`, in order. */
  function Posts(s: ServerState, i: nat, msgs: seq<Message>): (r: ServerState)
    requires i < |s.db| && InRange(s.db, s.db[i].followers)
    ensures r.db == s.db && r.delTxtFiles == s.delTxtFiles
  {
    if msgs == [] then s
    else Broadcast(Posts(s, i, msgs[..|msgs| - 1]), i, msgs[|msgs| - 1])
  }

  /** The read loop's step: the first n + 1 posts are the first n and then
      post n. */
  lemma PostsStep(s: ServerState, i: nat, msgs: seq<Message>, n: nat)
    requires i < |s.db| && InRange(s.db, s.db[i].followers) && n < |msgs|
    ensures Posts(s, i, msgs[..n + 1]) == Broadcast(Posts(s, i, msgs[..n]), i, msgs[n])
  {
    assert msgs[..n + 1][..n] == msgs[..n];
  }

  /** The end of a session: `client->stream = nullptr`. */
  function CloseTimeline(s: ServerState, i: nat): (r: ServerState)
    requires i < |s.db|
    ensures |r.db| == |s.db| && Names(r.db) == Names(s.db) && !r.db[i].hasStream
    ensures r.files == s.files && r.outbox == s.outbox && r.delTxtFiles == s.delTxtFiles
  {
    s.(db := s.db[i := s.db[i].(hasStream := false)])
  }

  /** SNSServiceImpl::Timeline over a stream that yields `inbound` and then
      ends: the first message binds, the others are posts. */
  function Timeline(s: ServerState, inbound: seq<Message>): (r: Session)
    requires Valid(s.db)
    ensures r.status == Ok || r.status == Cancelled
    ensures r.status == Ok <==> inbound != [] && inbound[0].username in Names(s.db)
    ensures !r.state.delTxtFiles
  {
    var o := OpenTimeline(s, if inbound == [] then None else Some(inbound[0]));
    match o.client
    case None => Session(Cancelled, o.state)
    case Some(i) =>
      assert WellLinked(s.db, i);
      Session(Ok, CloseTimeline(Posts(o.state, i, inbound[1..]), i))
  }

  /** Timeline when the opening binds client `i` with state `bound`: the
      read loop's posts, then the stream reset. */
  lemma TimelineBound(s: ServerState, inbound: seq<Message>, bound: ServerState, i: nat)
    requires Valid(s.db) && inbound != []
    requires OpenTimeline(s, Some(inbound[0])) == Opening(bound, Some(i))
    requires i < |bound.db| && InRange(bound.db, bound.db[i].followers)
    ensures Timeline(s, inbound) == Session(Ok, CloseTimeline(Posts(bound, i, inbound[1..]), i))
  {
  }

  /** Timeline when the opening binds no client. */
  lemma TimelineRefused(s: ServerState, inbound: seq<Message>, o: ServerState)
    requires Valid(s.db)
    requires OpenTimeline(s, if inbound == [] then None else Some(inbound[0])) == Opening(o, None)
    ensures Timeline(s, inbound) == Session(Cancelled, o)
  {
  }

  // ---------------------------------------------------------------------
  // Properties
  // ---------------------------------------------------------------------

  /** The pending-file name determines the user. */
  lemma PendingFileInjective(a: string, b: string)
    requires PendingFile(a) == PendingFile(b)
    ensures a == b
  {
    assert |a| == |b|;
    assert a == PendingFile(a)[..|a|];
    assert b == PendingFile(b)[..|b|];
  }

  /** The two file kinds can name the same file: the authored file of a user
      called `bob_following` is bob's pending file. */
  lemma FileNamesCollide()
    ensures AuthoredFile("bob_following") == PendingFile("bob")
  {
  }

  /** The backlog holds the newest BacklogLimit lines, newest first. */
  lemma BacklogNewestFirst(lines: seq<string>)
    ensures |BacklogWindow(lines)| == |lines| - Oldest(lines) <= BacklogLimit
    ensures forall k :: 0 <= k < |BacklogWindow(lines)| ==>
      BacklogWindow(lines)[k] == lines[|lines| - 1 - k]
  {
    var w := lines[Oldest(lines)..];
    forall k | 0 <= k < |w| ensures BacklogWindow(lines)[k] == lines[|lines| - 1 - k] {
      assert w[|w| - 1 - k] == lines[|lines| - 1 - k];
    }
  }

  /** One more line: it goes to the front of the window, and the oldest
      line drops out when the window is over the limit (push_front, then
      pop_back). */
  lemma BacklogWindowPush(lines: seq<string>, line: string)
    ensures var w := [line] + BacklogWindow(lines);
      BacklogWindow(lines + [line]) == if |w| > BacklogLimit then w[..|w| - 1] else w
  {
    var w := [line] + BacklogWindow(lines);
    var w' := if |w| > BacklogLimit then w[..|w| - 1] else w;
    var all := lines + [line];
    BacklogNewestFirst(lines);
    BacklogNewestFirst(all);
    assert |BacklogWindow(all)| == |w'|;
    forall k | 0 <= k < |w'| ensures BacklogWindow(all)[k] == w'[k] {
      if k > 0 {
        assert w'[k] == BacklogWindow(lines)[k - 1] == lines[|lines| - 1 - (k - 1)];
      }
    }
  }

  /** A window whose every line decodes is replayed as exactly those
      messages, in window order. */
  lemma {:induction false} DecodeAllInOrder(window: seq<string>, ms: seq<Message>)
    requires |ms| == |window|
    requires forall p {:trigger Decode(window[p])} :: 0 <= p < |window| ==> Decode(window[p]) == Some(ms[p])
    ensures DecodeAll(window) == ms
  {
    if window != [] {
      var n := |window| - 1;
      var init := window[..n];
      assert DecodeAll(init) == ms[..n] by {
        assert forall p :: 0 <= p < n ==> init[p] == window[p] && ms[..n][p] == ms[p];
        DecodeAllInOrder(init, ms[..n]);
      }
      assert Emit(window[n]) == [ms[n]];
      SplitLast(ms);
    }
  }

  /** A non-empty sequence is its front followed by its last element. */
  lemma SplitLast<T>(s: seq<T>)
    requires s != []
    ensures s == s[..|s| - 1] + [s[|s| - 1]]
  {
  }

  /** The first line of a window, when it decodes, is the first message. */
  lemma {:induction false} DecodeAllFirst(window: seq<string>)
    requires window != [] && Decode(window[0]).Some?
    ensures DecodeAll(window) != [] && DecodeAll(window)[0] == Decode(window[0]).value
  {
    var init := window[..|window| - 1];
    if init != [] {
      DecodeAllFirst(init);
    }
  }

  /** A new session is sent at most BacklogLimit messages, each decoded
      from one of the newest BacklogLimit lines of its pending file. */
  lemma ReplayBounded(lines: seq<string>)
    ensures |Replay(lines)| <= BacklogLimit
    ensures forall m :: m in Replay(lines) ==>
      exists p :: Oldest(lines) <= p < |lines| && Decode(lines[p]) == Some(m)
  {
    var w := BacklogWindow(lines);
    BacklogNewestFirst(lines);
    forall m | m in Replay(lines)
      ensures exists p :: Oldest(lines) <= p < |lines| && Decode(lines[p]) == Some(m)
    {
      var q :| 0 <= q < |w| && Decode(w[q]) == Some(m);
      var p := |lines| - 1 - q;
      assert Decode(lines[p]) == Some(m);
    }
  }

  /** The positions of a window's lines that split into three fields, in
      window order: every such position once, and no other. */
  function Decodable(window: seq<string>): (ps: seq<nat>)
    ensures forall k :: 0 <= k < |ps| ==> ps[k] < |window| && Decode(window[ps[k]]).Some?
    ensures forall a, b :: 0 <= a < b < |ps| ==> ps[a] < ps[b]
    ensures forall p :: 0 <= p < |window| && Decode(window[p]).Some? ==> p in ps
  {
    DecodableBelow(window, |window|)
  }

  /** The same positions, among the first `n` of the window. */
  function DecodableBelow(window: seq<string>, n: nat): (ps: seq<nat>)
    requires n <= |window|
    ensures forall k :: 0 <= k < |ps| ==> ps[k] < n && Decode(window[ps[k]]).Some?
    ensures forall a, b :: 0 <= a < b < |ps| ==> ps[a] < ps[b]
    ensures forall p :: 0 <= p < n && Decode(window[p]).Some? ==> p in ps
  {
    if n == 0 then []
    else
      var pre := DecodableBelow(window, n - 1);
      if Decode(window[n - 1]).Some? then pre + [n - 1] else pre
  }

  /** The replay loop sends, in window order, the message of each window
      line that decodes, and nothing else. */
  lemma DecodeAllDecodable(window: seq<string>)
    ensures |DecodeAll(window)| == |Decodable(window)|
    ensures forall k :: 0 <= k < |DecodeAll(window)| ==>
      DecodeAll(window)[k] == Decode(window[Decodable(window)[k]]).value
  {
    DecodeAllBelow(window, |window|);
    assert window[..|window|] == window;
  }

  /** The first `n` lines of a window are sent as the messages of the
      positions DecodableBelow picks among them. */
  lemma {:induction false} DecodeAllBelow(window: seq<string>, n: nat)
    requires n <= |window|
    ensures |DecodeAll(window[..n])| == |DecodableBelow(window, n)|
    ensures forall k :: 0 <= k < |DecodableBelow(window, n)| ==>
      DecodeAll(window[..n])[k] == Decode(window[DecodableBelow(window, n)[k]]).value
  {
    if n > 0 {
      DecodeAllBelow(window, n - 1);
      var r, ks := DecodeAll(window[..n - 1]), DecodableBelow(window, n - 1);
      assert window[..n][..n - 1] == window[..n - 1];
      assert DecodeAll(window[..n]) == r + Emit(window[n - 1]);
      if Decode(window[n - 1]).Some? {
        assert DecodableBelow(window, n) == ks + [n - 1];
        assert Emit(window[n - 1]) == [Decode(window[n - 1]).value];
        PickAppend(r, ks, Decode(window[n - 1]).value, n - 1, window);
      } else {
        assert DecodableBelow(window, n) == ks;
        assert DecodeAll(window[..n]) == r;
      }
    }
  }

  /** Appending one more picked position and its message keeps message k
      that of position k. */
  lemma PickAppend(r: seq<Message>, ks: seq<nat>, m: Message, j: nat, window: seq<string>)
    requires j < |window| && Decode(window[j]) == Some(m)
    requires forall k :: 0 <= k < |ks| ==> ks[k] < |window| && Decode(window[ks[k]]).Some?
    requires |r| == |ks| && forall k :: 0 <= k < |ks| ==> r[k] == Decode(window[ks[k]]).value
    ensures |r + [m]| == |ks + [j]|
    ensures forall k :: 0 <= k < |ks + [j]| ==>
      (ks + [j])[k] < |window| && Decode(window[(ks + [j])[k]]).Some?
      && (r + [m])[k] == Decode(window[(ks + [j])[k]]).value
  {
    forall k | 0 <= k < |ks| + 1
      ensures (ks + [j])[k] < |window| && Decode(window[(ks + [j])[k]]).Some?
      ensures (r + [m])[k] == Decode(window[(ks + [j])[k]]).value
    {
      if k < |ks| {
        assert (r + [m])[k] == r[k] && (ks + [j])[k] == ks[k];
      }
    }
  }

  /** The pending-file lines a new session is sent, by position: the lines
      among the newest BacklogLimit that split into three fields, each once,
      newest first. */
  function ReplayedLines(lines: seq<string>): (ps: seq<nat>)
    ensures forall k :: 0 <= k < |ps| ==>
      Oldest(lines) <= ps[k] < |lines| && Decode(lines[ps[k]]).Some?
    ensures forall a, b :: 0 <= a < b < |ps| ==> ps[a] > ps[b]
    ensures forall p :: Oldest(lines) <= p < |lines| && Decode(lines[p]).Some? ==> p in ps
  {
    var w := BacklogWindow(lines);
    BacklogNewestFirst(lines);
    var ks := Decodable(w);
    var ps := seq(|ks|, k requires 0 <= k < |ks| => |lines| - 1 - ks[k]);
    WindowPositions(lines, w, ks, ps);
    ps
  }

  /** Window position q holds line |lines| - 1 - q, so the decodable window
      positions, in order, are the decodable kept lines, newest first. */
  lemma WindowPositions(lines: seq<string>, w: seq<string>, ks: seq<nat>, ps: seq<nat>)
    requires |w| == |lines| - Oldest(lines)
    requires forall q :: 0 <= q < |w| ==> w[q] == lines[|lines| - 1 - q]
    requires forall k :: 0 <= k < |ks| ==> ks[k] < |w| && Decode(w[ks[k]]).Some?
    requires forall a, b :: 0 <= a < b < |ks| ==> ks[a] < ks[b]
    requires forall q :: 0 <= q < |w| && Decode(w[q]).Some? ==> q in ks
    requires |ps| == |ks| && forall k :: 0 <= k < |ks| ==> ps[k] == |lines| - 1 - ks[k]
    ensures forall k :: 0 <= k < |ps| ==>
      Oldest(lines) <= ps[k] < |lines| && Decode(lines[ps[k]]).Some?
    ensures forall a, b :: 0 <= a < b < |ps| ==> ps[a] > ps[b]
    ensures forall p :: Oldest(lines) <= p < |lines| && Decode(lines[p]).Some? ==> p in ps
  {
    forall k | 0 <= k < |ps| ensures Oldest(lines) <= ps[k] < |lines| && Decode(lines[ps[k]]).Some? {
      assert w[ks[k]] == lines[ps[k]];
    }
    forall p | Oldest(lines) <= p < |lines| && Decode(lines[p]).Some? ensures p in ps {
      var q := |lines| - 1 - p;
      assert w[q] == lines[p];
      var k :| 0 <= k < |ks| && ks[k] == q;
      assert ps[k] == p;
    }
  }

  /** For every pending file, a new session is sent the message of each
      line ReplayedLines picks, in that order: every well-formed line among
      the newest BacklogLimit, once each, newest first. */
  lemma ReplayNewestFirst(lines: seq<string>)
    ensures |Replay(lines)| == |ReplayedLines(lines)|
    ensures forall k :: 0 <= k < |Replay(lines)| ==>
      Replay(lines)[k] == Decode(lines[ReplayedLines(lines)[k]]).value
  {
    var w := BacklogWindow(lines);
    var ks, ps := Decodable(w), ReplayedLines(lines);
    assert |ps| == |ks| && forall k :: 0 <= k < |ks| ==> ps[k] == |lines| - 1 - ks[k];
    DecodeAllDecodable(w);
    BacklogNewestFirst(lines);
    PickedMessages(lines, w, ks, ps, DecodeAll(w));
  }

  /** Message k of the window's replay is the message of line ps[k]. */
  lemma PickedMessages(lines: seq<string>, w: seq<string>, ks: seq<nat>, ps: seq<nat>, r: seq<Message>)
    requires |w| == |lines| - Oldest(lines)
    requires forall q :: 0 <= q < |w| ==> w[q] == lines[|lines| - 1 - q]
    requires forall k :: 0 <= k < |ks| ==> ks[k] < |w| && Decode(w[ks[k]]).Some?
    requires |r| == |ks| && forall k :: 0 <= k < |ks| ==> r[k] == Decode(w[ks[k]]).value
    requires |ps| == |ks| && forall k :: 0 <= k < |ks| ==> ps[k] == |lines| - 1 - ks[k]
    ensures forall k :: 0 <= k < |r| ==>
      0 <= ps[k] < |lines| && Decode(lines[ps[k]]).Some? && r[k] == Decode(lines[ps[k]]).value
  {
    forall k | 0 <= k < |r|
      ensures 0 <= ps[k] < |lines| && Decode(lines[ps[k]]).Some? && r[k] == Decode(lines[ps[k]]).value
    {
      assert w[ks[k]] == lines[ps[k]];
    }
  }

  /** When every kept line is a well-formed record, the session is sent
      exactly those records, newest first. */
  lemma ReplayAllRecords(lines: seq<string>)
    requires forall p {:trigger Decode(lines[p])} :: Oldest(lines) <= p < |lines| ==> Decode(lines[p]).Some?
    ensures |Replay(lines)| == |lines| - Oldest(lines)
    ensures forall k :: 0 <= k < |Replay(lines)| ==>
      Replay(lines)[k] == Decode(lines[|lines| - 1 - k]).value
  {
    var w := BacklogWindow(lines);
    BacklogNewestFirst(lines);
    forall k | 0 <= k < |w| ensures Decode(w[k]).Some? {
      assert w[k] == lines[|lines| - 1 - k];
    }
    DecodeAllValues(w);
  }

  /** A window whose every line decodes is replayed line for line. */
  lemma DecodeAllValues(window: seq<string>)
    requires forall p {:trigger Decode(window[p])} :: 0 <= p < |window| ==> Decode(window[p]).Some?
    ensures |DecodeAll(window)| == |window|
    ensures forall k :: 0 <= k < |window| ==> DecodeAll(window)[k] == Decode(window[k]).value
  {
    var ms := seq(|window|, k requires 0 <= k < |window| => Decode(window[k]).value);
    DecodeAllInOrder(window, ms);
  }

  /** A record just appended to the pending file is the first message the
      next session is sent. */
  lemma NewestRecordReplayedFirst(lines: seq<string>, username: string, message: string, timestamp: string)
    requires PlainField(username) && PlainField(message) && PlainField(timestamp)
    requires timestamp != []
    ensures var r := Replay(lines + [FormatFileOutput(username, message, timestamp)]);
      r != [] && r[0] == Message(username, message, timestamp)
  {
    var all := lines + [FormatFileOutput(username, message, timestamp)];
    RecordRoundTrip(username, message, timestamp);
    BacklogNewestFirst(all);
    DecodeAllFirst(BacklogWindow(all));
  }

  /** Each listed follower gets exactly one of: a stream write of the post
      (when it has a stream) or one more pending line with the record; no
      other user's stream and no other file is touched. */
  lemma FanoutDelivers(db: seq<ClientRecord>, followers: seq<nat>, m: Message, rec: string, d: Delivery)
    requires DistinctNames(db) && InRange(db, followers) && NoDuplicates(followers)
    ensures var r := Fanout(db, followers, m, rec, d);
      && (forall p :: 0 <= p < |followers| ==>
            var c := db[followers[p]];
            if c.hasStream then
              && Sent(r.outbox, c.username) == Sent(d.outbox, c.username) + [m]
              && Lines(r.files, PendingFile(c.username)) == Lines(d.files, PendingFile(c.username))
            else
              && Sent(r.outbox, c.username) == Sent(d.outbox, c.username)
              && Lines(r.files, PendingFile(c.username)) == Lines(d.files, PendingFile(c.username)) + [rec])
      && (forall n :: n !in NamesOf(db, followers) ==> Sent(r.outbox, n) == Sent(d.outbox, n))
      && (forall g :: g !in PendingFilesOf(db, followers) ==> Lines(r.files, g) == Lines(d.files, g))
  {
    FanoutReaches(db, followers, m, rec, d);
    FanoutSpares(db, followers, m, rec, d);
  }

  /** What one Deliver changes: the follower's stream or its pending file,
      and nothing else. */
  lemma DeliverEffect(db: seq<ClientRecord>, f: nat, m: Message, rec: string, d: Delivery)
    requires f < |db|
    ensures var r, c := Deliver(db, f, m, rec, d), db[f];
      && (c.hasStream ==> Sent(r.outbox, c.username) == Sent(d.outbox, c.username) + [m] && r.files == d.files)
      && (!c.hasStream ==>
            r.outbox == d.outbox
            && Lines(r.files, PendingFile(c.username)) == Lines(d.files, PendingFile(c.username)) + [rec])
      && (forall n :: n != c.username ==> Sent(r.outbox, n) == Sent(d.outbox, n))
      && (forall g :: g != PendingFile(c.username) ==> Lines(r.files, g) == Lines(d.files, g))
  {
  }

  /** Streams of users outside the list and files other than their pending
      files are untouched by the fanout. */
  lemma {:induction false} FanoutSpares(db: seq<ClientRecord>, followers: seq<nat>, m: Message, rec: string, d: Delivery)
    requires InRange(db, followers)
    ensures var r := Fanout(db, followers, m, rec, d);
      && (forall n :: n !in NamesOf(db, followers) ==> Sent(r.outbox, n) == Sent(d.outbox, n))
      && (forall g :: g !in PendingFilesOf(db, followers) ==> Lines(r.files, g) == Lines(d.files, g))
  {
    if followers != [] {
      var n := |followers| - 1;
      var init, f := followers[..n], followers[n];
      assert forall p :: 0 <= p < n ==> init[p] == followers[p];
      FanoutSpares(db, init, m, rec, d);
      var mid := Fanout(db, init, m, rec, d);
      var r := Fanout(db, followers, m, rec, d);
      assert r == Deliver(db, f, m, rec, mid);
      DeliverEffect(db, f, m, rec, mid);
      forall n' | n' !in NamesOf(db, followers) ensures Sent(r.outbox, n') == Sent(d.outbox, n') {
        assert n' != db[f].username by { assert NamesOf(db, followers)[n] == db[f].username; }
        assert n' !in NamesOf(db, init) by {
          forall p | 0 <= p < n ensures NamesOf(db, init)[p] != n' {
            assert NamesOf(db, init)[p] == NamesOf(db, followers)[p];
          }
        }
      }
      forall g | g !in PendingFilesOf(db, followers) ensures Lines(r.files, g) == Lines(d.files, g) {
        assert g != PendingFile(db[f].username) by { assert PendingFilesOf(db, followers)[n] == PendingFile(db[f].username); }
        assert g !in PendingFilesOf(db, init) by {
          forall p | 0 <= p < n ensures PendingFilesOf(db, init)[p] != g {
            assert PendingFilesOf(db, init)[p] == PendingFilesOf(db, followers)[p];
          }
        }
      }
    }
  }

  /** Each listed follower, named once and by a distinct name, gets exactly
      one delivery. */
  lemma {:induction false} FanoutReaches(db: seq<ClientRecord>, followers: seq<nat>, m: Message, rec: string, d: Delivery)
    requires DistinctNames(db) && InRange(db, followers) && NoDuplicates(followers)
    ensures var r := Fanout(db, followers, m, rec, d);
      forall p :: 0 <= p < |followers| ==>
        var c := db[followers[p]];
        if c.hasStream then
          && Sent(r.outbox, c.username) == Sent(d.outbox, c.username) + [m]
          && Lines(r.files, PendingFile(c.username)) == Lines(d.files, PendingFile(c.username))
        else
          && Sent(r.outbox, c.username) == Sent(d.outbox, c.username)
          && Lines(r.files, PendingFile(c.username)) == Lines(d.files, PendingFile(c.username)) + [rec]
  {
    if followers != [] {
      var n := |followers| - 1;
      var init, f := followers[..n], followers[n];
      assert forall p :: 0 <= p < n ==> init[p] == followers[p];
      FanoutReaches(db, init, m, rec, d);
      var mid := Fanout(db, init, m, rec, d);
      var r := Fanout(db, followers, m, rec, d);
      assert r == Deliver(db, f, m, rec, mid);
      DeliverEffect(db, f, m, rec, mid);
      LastFollowerIsNew(db, followers);
      FanoutSpares(db, init, m, rec, d);
    }
  }

  /** The last of a duplicate-free follower list has a name, and so a
      pending file, that no earlier follower has. */
  lemma LastFollowerIsNew(db: seq<ClientRecord>, followers: seq<nat>)
    requires DistinctNames(db) && InRange(db, followers) && NoDuplicates(followers) && followers != []
    ensures var n := |followers| - 1;
      var name := db[followers[n]].username;
      && InRange(db, followers[..n])
      && name !in NamesOf(db, followers[..n])
      && PendingFile(name) !in PendingFilesOf(db, followers[..n])
      && (forall p :: 0 <= p < n ==> db[followers[p]].username != name)
      && (forall p :: 0 <= p < n ==> PendingFile(db[followers[p]].username) != PendingFile(name))
  {
    var n := |followers| - 1;
    var init, f := followers[..n], followers[n];
    var name := db[f].username;
    assert forall p :: 0 <= p < n ==> init[p] == followers[p];
    forall p | 0 <= p < n
      ensures PendingFile(db[followers[p]].username) != PendingFile(name)
      ensures db[followers[p]].username != name
    {
      assert followers[p] != f;
      if PendingFile(db[followers[p]].username) == PendingFile(name) {
        PendingFileInjective(db[followers[p]].username, name);
      }
    }
    assert name !in NamesOf(db, init) by {
      forall p | 0 <= p < n ensures NamesOf(db, init)[p] != name {
        assert followers[p] != f;
      }
    }
    assert PendingFile(name) !in PendingFilesOf(db, init) by {
      forall p | 0 <= p < n ensures PendingFilesOf(db, init)[p] != PendingFile(name) {
        assert followers[p] != f;
      }
    }
  }

  /** Binding or clearing a stream leaves the usernames and the follow
      graph as they are, so the registry invariant is kept. */
  lemma StreamFlagKeepsGraph(db: seq<ClientRecord>, i: nat, bound: bool)
    requires i < |db|
    ensures var db' := db[i := db[i].(hasStream := bound)];
      && Names(db') == Names(db)
      && (forall k :: 0 <= k < |db| ==>
            db'[k].followers == db[k].followers && db'[k].following == db[k].following)
      && (Valid(db) ==> Valid(db'))
  {
    var db' := db[i := db[i].(hasStream := bound)];
    if Valid(db) {
      forall k | 0 <= k < |db'| ensures WellLinked(db', k) {
        assert WellLinked(db, k);
      }
    }
  }

  /** A session whose stream yields no first message, or whose first
      message names no registered user, binds no stream, writes nothing and
      changes the registry in no way. */
  lemma OpenTimelineRefused(s: ServerState, first: Option<Message>)
    ensures var o := OpenTimeline(s, first);
      && (o.client.None? <==> first.None? || first.value.username !in Names(s.db))
      && (o.client.None? ==> o.state.db == s.db && o.state.outbox == s.outbox)
      && o.state.files == (if s.delTxtFiles then map[] else s.files)
      && !o.state.delTxtFiles
  {
  }

  /** A session opened by a registered user binds that user's record to the
      stream, changes no other record and no edge, and writes to that
      user's stream the replay of its pending file: at most BacklogLimit
      messages, each from one of the file's newest BacklogLimit lines. */
  lemma OpenTimelineBinds(s: ServerState, hello: Message)
    requires Valid(s.db) && hello.username in Names(s.db)
    ensures var o := OpenTimeline(s, Some(hello));
      var i := Id(s.db, hello.username);
      var pending := Lines(o.state.files, PendingFile(hello.username));
      && o.client == Some(i)
      && o.state.files == (if s.delTxtFiles then map[] else s.files)
      && Valid(o.state.db)
      && |o.state.db| == |s.db| && o.state.db[i].hasStream
      && (forall k :: 0 <= k < |s.db| && k != i ==> o.state.db[k] == s.db[k])
      && o.state.db[i].followers == s.db[i].followers
      && o.state.db[i].following == s.db[i].following
      && Sent(o.state.outbox, hello.username) == Sent(s.outbox, hello.username) + Replay(pending)
      && (forall n :: n != hello.username ==> Sent(o.state.outbox, n) == Sent(s.outbox, n))
      && |Replay(pending)| <= BacklogLimit
      && (forall m :: m in Replay(pending) ==>
            exists p :: Oldest(pending) <= p < |pending| && Decode(pending[p]) == Some(m))
  {
    var o := OpenTimeline(s, Some(hello));
    var i := Id(s.db, hello.username);
    StreamFlagKeepsGraph(s.db, i, true);
    ReplayBounded(Lines(o.state.files, PendingFile(hello.username)));
  }

  /** One post in the session of client `i`: its record is appended to the
      author's file, each follower of `i` gets the post on its stream or the
      record in its pending file, and nothing else changes; in particular
      the session's own user is not written to. The author's file must not
      be one of those pending files (see FileNamesCollide). */
  lemma BroadcastDelivers(s: ServerState, i: nat, m: Message)
    requires Valid(s.db) && i < |s.db|
    requires WellLinked(s.db, i)
    requires AuthoredFile(m.username) !in PendingFilesOf(s.db, s.db[i].followers)
    ensures var r := Broadcast(s, i, m);
      var rec := FormatFileOutput(m.username, m.msg, m.timestamp);
      var followers := s.db[i].followers;
      && r.db == s.db
      && Lines(r.files, AuthoredFile(m.username)) == Lines(s.files, AuthoredFile(m.username)) + [rec]
      && (forall p :: 0 <= p < |followers| ==>
            var c := s.db[followers[p]];
            if c.hasStream then
              && Sent(r.outbox, c.username) == Sent(s.outbox, c.username) + [m]
              && Lines(r.files, PendingFile(c.username)) == Lines(s.files, PendingFile(c.username))
            else
              && Sent(r.outbox, c.username) == Sent(s.outbox, c.username)
              && Lines(r.files, PendingFile(c.username)) == Lines(s.files, PendingFile(c.username)) + [rec])
      && (forall n :: n !in NamesOf(s.db, followers) ==> Sent(r.outbox, n) == Sent(s.outbox, n))
      && (forall g :: g !in PendingFilesOf(s.db, followers) && g != AuthoredFile(m.username) ==>
            Lines(r.files, g) == Lines(s.files, g))
      && Sent(r.outbox, s.db[i].username) == Sent(s.outbox, s.db[i].username)
  {
    var rec := FormatFileOutput(m.username, m.msg, m.timestamp);
    var followers := s.db[i].followers;
    var d := Delivery(AppendLine(s.files, AuthoredFile(m.username), rec), s.outbox);
    FanoutDelivers(s.db, followers, m, rec, d);
    var pfs := PendingFilesOf(s.db, followers);
    forall p | 0 <= p < |followers|
      ensures Lines(d.files, PendingFile(s.db[followers[p]].username))
           == Lines(s.files, PendingFile(s.db[followers[p]].username))
    {
      assert pfs[p] == PendingFile(s.db[followers[p]].username);
    }
    assert s.db[i].username !in NamesOf(s.db, followers) by {
      forall p | 0 <= p < |followers| ensures NamesOf(s.db, followers)[p] != s.db[i].username {
        assert followers[p] != i;
      }
    }
  }

  /** A whole Timeline call keeps the registry invariant. It is cancelled
      exactly when the stream yields no first message or that message names
      no registered user, and then binds no stream and writes nothing.
      Otherwise it answers Ok and leaves the registry as it found it except
      that the user's stream is reset to null. */
  lemma TimelineOutcome(s: ServerState, inbound: seq<Message>)
    requires Valid(s.db)
    ensures var r := Timeline(s, inbound);
      && Valid(r.state.db)
      && !r.state.delTxtFiles
      && (r.status == Cancelled <==> inbound == [] || inbound[0].username !in Names(s.db))
      && (r.status != Cancelled ==> r.status == Ok)
      && (r.status == Cancelled ==> r.state.db == s.db && r.state.outbox == s.outbox)
      && (r.status == Ok ==>
            var i := Id(s.db, inbound[0].username);
            && |r.state.db| == |s.db| && !r.state.db[i].hasStream
            && r.state.db[i].followers == s.db[i].followers
            && r.state.db[i].following == s.db[i].following
            && (forall k :: 0 <= k < |s.db| && k != i ==> r.state.db[k] == s.db[k]))
  {
    var first := if inbound == [] then None else Some(inbound[0]);
    OpenTimelineRefused(s, first);
    if first.Some? && first.value.username in Names(s.db) {
      OpenTimelineBinds(s, first.value);
      var o := OpenTimeline(s, first);
      var i := o.client.value;
      assert WellLinked(s.db, i);
      var after := Posts(o.state, i, inbound[1..]);
      StreamFlagKeepsGraph(after.db, i, false);
    }
  }

  /** The registry after alice and bob log in and bob follows alice: a
      valid registry of two records in login order, alice's followers are
      [bob], and neither has a stream. */
  function AliceAndBob(): (db: seq<ClientRecord>)
    ensures Valid(db)
    ensures |db| == 2 && db[0].username == "alice" && db[1].username == "bob"
    ensures db[0].followers == [1]
    ensures !db[0].hasStream && !db[1].hasStream
  {
    var db1 := Login([], "alice").db;
    LoginPreservesValid([], "alice");
    var db2 := Login(db1, "bob").db;
    LoginPreservesValid(db1, "bob");
    assert db2 == [NewClient("alice"), NewClient("bob")];
    FindRecord(db2, 1);
    FindRecord(db2, 0);
    FollowPreservesValid(db2, "bob", "alice");
    Follow(db2, "bob", "alice").db
  }

  /** One Timeline call in which `author`, whose only follower is
      `reader`, posts `post`: the reader's stream gets the post when the
      reader has a stream, and the reader's pending file gets its record
      otherwise. */
  lemma OnePost(s: ServerState, author: string, reader: string, post: Message)
    requires Valid(s.db) && !s.delTxtFiles
    requires |s.db| == 2 && s.db[0].username == author && s.db[1].username == reader
    requires s.db[0].followers == [1]
    requires AuthoredFile(post.username) != PendingFile(reader)
    ensures var r := Timeline(s, [Message(author, "", ""), post]);
      var rec := FormatFileOutput(post.username, post.msg, post.timestamp);
      && r.status == Ok && Valid(r.state.db) && !r.state.delTxtFiles
      && |r.state.db| == 2 && r.state.db[1] == s.db[1] && r.state.db[0].username == author
      && (s.db[1].hasStream ==>
            && Sent(r.state.outbox, reader) == Sent(s.outbox, reader) + [post]
            && Lines(r.state.files, PendingFile(reader)) == Lines(s.files, PendingFile(reader)))
      && (!s.db[1].hasStream ==>
            && Sent(r.state.outbox, reader) == Sent(s.outbox, reader)
            && Lines(r.state.files, PendingFile(reader)) == Lines(s.files, PendingFile(reader)) + [rec])
  {
    var hello := Message(author, "", "");
    var a := OpenTimeline(s, Some(hello));
    AuthorOpens(s, author, reader);
    var b := Broadcast(a.state, 0, post);
    ReaderGetsPost(a.state, reader, post);
    assert Timeline(s, [hello, post]) == Session(Ok, CloseTimeline(b, 0)) by {
      assert Find(s.db, author) == Some(0);
      assert [hello, post][1..] == [post];
      assert Posts(a.state, 0, [post]) == Broadcast(Posts(a.state, 0, []), 0, post);
    }
    TimelineOutcome(s, [hello, post]);
  }

  /** The author's session binds the author (record 0) and leaves the
      reader's record, stream and pending file as they were. */
  lemma AuthorOpens(s: ServerState, author: string, reader: string)
    requires Valid(s.db) && !s.delTxtFiles
    requires |s.db| == 2 && s.db[0].username == author && s.db[1].username == reader
    requires s.db[0].followers == [1]
    ensures var a := OpenTimeline(s, Some(Message(author, "", "")));
      && a.client == Some(0) && !a.state.delTxtFiles && Valid(a.state.db)
      && |a.state.db| == 2 && a.state.db[1] == s.db[1]
      && a.state.db[0].followers == [1] && a.state.db[0].username == author
      && Sent(a.state.outbox, reader) == Sent(s.outbox, reader)
      && Lines(a.state.files, PendingFile(reader)) == Lines(s.files, PendingFile(reader))
  {
    assert Find(s.db, author) == Some(0);
    assert author != reader;
    OpenTimelineBinds(s, Message(author, "", ""));
  }

  /** A post in record 0's session, whose only follower is the reader
      (record 1), reaches the reader once. */
  lemma ReaderGetsPost(s: ServerState, reader: string, post: Message)
    requires Valid(s.db) && |s.db| == 2 && s.db[0].followers == [1] && s.db[1].username == reader
    requires AuthoredFile(post.username) != PendingFile(reader)
    ensures var b, rec := Broadcast(s, 0, post), FormatFileOutput(post.username, post.msg, post.timestamp);
      && b.db == s.db
      && (s.db[1].hasStream ==>
            && Sent(b.outbox, reader) == Sent(s.outbox, reader) + [post]
            && Lines(b.files, PendingFile(reader)) == Lines(s.files, PendingFile(reader)))
      && (!s.db[1].hasStream ==>
            && Sent(b.outbox, reader) == Sent(s.outbox, reader)
            && Lines(b.files, PendingFile(reader)) == Lines(s.files, PendingFile(reader)) + [rec])
  {
    assert WellLinked(s.db, 0);
    assert PendingFilesOf(s.db, s.db[0].followers) == [PendingFile(reader)];
    BroadcastDelivers(s, 0, post);
    assert s.db[0].followers[0] == 1;
  }

  /** Live delivery: while bob has a session open, alice's post reaches
      bob's stream, and bob's pending file is untouched. */
  lemma LiveDeliveryScenario(files: Files, ts: string)
    requires PendingFile("bob") !in files
    ensures var bob := OpenTimeline(ServerState(AliceAndBob(), files, map[], false), Some(Message("bob", "", "")));
      Valid(bob.state.db)
    ensures var bob := OpenTimeline(ServerState(AliceAndBob(), files, map[], false), Some(Message("bob", "", "")));
      var post := Message("alice", "hello", ts);
      var r := Timeline(bob.state, [Message("alice", "", ""), post]);
      && r.status == Ok
      && Sent(r.state.outbox, "bob") == [post]
      && Lines(r.state.files, PendingFile("bob")) == []
  {
    var s := ServerState(AliceAndBob(), files, map[], false);
    assert Find(s.db, "bob") == Some(1);
    var bob := OpenTimeline(s, Some(Message("bob", "", "")));
    OpenTimelineBinds(s, Message("bob", "", ""));
    assert Sent(bob.state.outbox, "bob") == [];
    assert AuthoredFile("alice") != PendingFile("bob");
    OnePost(bob.state, "alice", "bob", Message("alice", "hello", ts));
  }

  /** Offline delivery: when bob has no session, alice's post is queued in
      bob's pending file, and bob's next session is sent exactly that post. */
  lemma OfflineDeliveryScenario(ts: string)
    requires PlainField(ts) && ts != []
    ensures var alice := Timeline(ServerState(AliceAndBob(), map[], map[], false),
                                  [Message("alice", "", ""), Message("alice", "hello", ts)]);
      && alice.status == Ok
      && Lines(alice.state.files, PendingFile("bob")) == [FormatFileOutput("alice", "hello", ts)]
      && Sent(OpenTimeline(alice.state, Some(Message("bob", "", ""))).state.outbox, "bob")
         == [Message("alice", "hello", ts)]
  {
    assert AuthoredFile("alice") != PendingFile("bob");
    assert PlainField("alice") && PlainField("hello") by {
      ScenarioFieldsArePlain();
    }
    QueuedThenReplayed(ServerState(AliceAndBob(), map[], map[], false), "alice", "bob", Message("alice", "hello", ts));
  }

  /** A post to a reader without a stream waits in the reader's pending
      file and is replayed to the reader's next session. */
  lemma QueuedThenReplayed(s: ServerState, author: string, reader: string, post: Message)
    requires Valid(s.db) && !s.delTxtFiles
    requires |s.db| == 2 && s.db[0].username == author && s.db[1].username == reader
    requires s.db[0].followers == [1] && !s.db[1].hasStream
    requires AuthoredFile(post.username) != PendingFile(reader)
    requires Lines(s.files, PendingFile(reader)) == [] && Sent(s.outbox, reader) == []
    requires PlainField(post.username) && PlainField(post.msg) && PlainField(post.timestamp)
    requires post.timestamp != []
    ensures var r := Timeline(s, [Message(author, "", ""), post]);
      && r.status == Ok
      && Lines(r.state.files, PendingFile(reader)) == [FormatFileOutput(post.username, post.msg, post.timestamp)]
      && Sent(OpenTimeline(r.state, Some(Message(reader, "", ""))).state.outbox, reader) == [post]
  {
    var r := Timeline(s, [Message(author, "", ""), post]);
    assert && r.status == Ok && Valid(r.state.db) && !r.state.delTxtFiles
           && |r.state.db| == 2 && r.state.db[1].username == reader
           && Lines(r.state.files, PendingFile(reader)) == [FormatFileOutput(post.username, post.msg, post.timestamp)]
           && Sent(r.state.outbox, reader) == []
    by {
      OnePost(s, author, reader, post);
    }
    assert reader in Names(r.state.db) by {
      assert Names(r.state.db)[1] == reader;
    }
    CatchUp(r.state, reader, post);
  }

  /** The scenario's username and message store as plain fields. */
  lemma ScenarioFieldsArePlain()
    ensures PlainField("alice") && PlainField("hello")
  {
    assert "alice" == ['a', 'l', 'i', 'c', 'e'];
    assert "hello" == ['h', 'e', 'l', 'l', 'o'];
  }

  /** A user whose pending file holds one well-formed record, and whose
      stream has been sent nothing, is sent exactly that post on opening a
      session. */
  lemma CatchUp(s: ServerState, reader: string, post: Message)
    requires Valid(s.db) && !s.delTxtFiles && reader in Names(s.db)
    requires PlainField(post.username) && PlainField(post.msg) && PlainField(post.timestamp)
    requires post.timestamp != []
    requires Lines(s.files, PendingFile(reader)) == [FormatFileOutput(post.username, post.msg, post.timestamp)]
    requires Sent(s.outbox, reader) == []
    ensures Sent(OpenTimeline(s, Some(Message(reader, "", ""))).state.outbox, reader) == [post]
  {
    OpenTimelineBinds(s, Message(reader, "", ""));
    ReplayOfOneRecord(post.username, post.msg, post.timestamp);
  }

  /** A pending file holding one well-formed record replays exactly it. */
  lemma ReplayOfOneRecord(username: string, message: string, timestamp: string)
    requires PlainField(username) && PlainField(message) && PlainField(timestamp)
    requires timestamp != []
    ensures Replay([FormatFileOutput(username, message, timestamp)]) == [Message(username, message, timestamp)]
  {
    var rec := FormatFileOutput(username, message, timestamp);
    RecordRoundTrip(username, message, timestamp);
    assert Decode(rec) == Some(Message(username, message, timestamp));
    assert BacklogWindow([rec]) == [rec] by {
      assert [rec][Oldest([rec])..] == [rec];
    }
    assert DecodeAll([rec]) == DecodeAll([]) + Emit(rec);
  }
}
