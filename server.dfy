/**
 * SNSServiceImpl as an object over the daemon's mutable state: client_db,
 * the text files, the follower streams and the del_txt_files flag. Each
 * service is a method that updates that state step by step, proved equal
 * to the functions of Graph and Feed that specify it.
 */
module Server {
  import opened Wrappers
  import opened Proto
  import opened Records
  import opened Graph
  import opened Feed

  /** The name scan over client_db that every service starts with. */
  method Lookup(db: seq<ClientRecord>, name: string) returns (r: Option<nat>)
    ensures r == Find(db, name)
  {
    var k := 0;
    while k < |db|
      invariant 0 <= k <= |db|
      invariant forall q :: 0 <= q < k ==> db[q].username != name
    {
      if db[k].username == name {
        return Some(k);
      }
      k := k + 1;
    }
    assert name !in Names(db);
    return None;
  }

  /** std::find over a vector of Client*. */
  method Contains(s: seq<nat>, x: nat) returns (found: bool)
    ensures found <==> x in s
  {
    found := false;
    var k := 0;
    while k < |s|
      invariant 0 <= k <= |s|
      invariant found <==> x in s[..k]
    {
      assert s[..k + 1] == s[..k] + [s[k]];
      found := found || s[k] == x;
      k := k + 1;
    }
    assert s[..|s|] == s;
  }

  /** The erase-remove idiom: `s` with every `x` dropped, the rest in order. */
  method EraseAll(s: seq<nat>, x: nat) returns (r: seq<nat>)
    ensures r == Without(s, x)
  {
    r := [];
    var k := |s|;
    while k > 0
      invariant 0 <= k <= |s|
      invariant r == Without(s[k..], x)
    {
      k := k - 1;
      assert s[k..][1..] == s[k + 1..];
      r := (if s[k] == x then [] else [s[k]]) + r;
    }
    assert s[0..] == s;
  }

  /** The read loop filling the deque `last20`: push_front each line, then
      pop_back while over the limit. */
  method LoadBacklog(lines: seq<string>) returns (last20: seq<string>)
    ensures last20 == BacklogWindow(lines)
  {
    last20 := [];
    var k := 0;
    assert lines[..0] == [];
    while k < |lines|
      invariant 0 <= k <= |lines|
      invariant last20 == BacklogWindow(lines[..k])
    {
      assert lines[..k + 1] == lines[..k] + [lines[k]];
      BacklogWindowPush(lines[..k], lines[k]);
      last20 := [lines[k]] + last20;
      if |last20| > BacklogLimit {
        last20 := last20[..|last20| - 1];
      }
      k := k + 1;
    }
    assert lines[..|lines|] == lines;
  }

  /** List's first loop: every username in client_db, in order. */
  method UserNames(db: seq<ClientRecord>) returns (names: seq<string>)
    ensures names == Names(db)
  {
    names := [];
    var k := 0;
    while k < |db|
      invariant 0 <= k <= |db|
      invariant names == Names(db[..k])
    {
      assert Names(db[..k + 1]) == Names(db[..k]) + [db[k].username];
      names := names + [db[k].username];
      k := k + 1;
    }
    assert db[..|db|] == db;
  }

  /** List's second loop: the names of the records `ids` points to, in order. */
  method FollowerNames(db: seq<ClientRecord>, ids: seq<nat>) returns (names: seq<string>)
    requires InRange(db, ids)
    ensures names == NamesOf(db, ids)
  {
    names := [];
    var k := 0;
    while k < |ids|
      invariant 0 <= k <= |ids|
      invariant names == NamesOf(db, ids[..k])
    {
      assert NamesOf(db, ids[..k + 1]) == NamesOf(db, ids[..k]) + [db[ids[k]].username];
      names := names + [db[ids[k]].username];
      k := k + 1;
    }
    assert ids[..|ids|] == ids;
  }

  class SnsService {
    var clientDb: seq<ClientRecord>
    var files: Files
    var outbox: Outbox
    var delTxtFiles: bool

    /** The whole server state as a value. */
    function State(): (s: ServerState)
      reads this
    {
      ServerState(clientDb, files, outbox, delTxtFiles)
    }

    /** The registry invariant. */
    ghost predicate Valid()
      reads this
    {
      Graph.Valid(clientDb)
    }

    /** Server start: an empty client_db, the files left by an earlier run,
        no stream, and the files due to be cleared by the first Timeline. */
    constructor (disk: Files)
      ensures State() == ServerState([], disk, map[], true)
      ensures Valid()
    {
      clientDb := [];
      files := disk;
      outbox := map[];
      delTxtFiles := true;
    }

    /** SNSServiceImpl::Login. */
    method Login(username: string) returns (status: StatusCode)
      requires Valid()
      modifies this`clientDb
      ensures Valid()
      ensures Step(status, clientDb) == Graph.Login(old(clientDb), username)
    {
      LoginPreservesValid(clientDb, username);
      var existing := Lookup(clientDb, username);
      if existing.Some? {
        return AlreadyExists;
      }
      clientDb := clientDb + [NewClient(username)];
      return Ok;
    }

    /** SNSServiceImpl::Follow: `username` asks to follow `target`. */
    method Follow(username: string, target: string) returns (status: StatusCode)
      requires Valid()
      modifies this`clientDb
      ensures Valid()
      ensures Step(status, clientDb) == Graph.Follow(old(clientDb), username, target)
    {
      FollowPreservesValid(clientDb, username, target);
      var follower := Lookup(clientDb, username);
      if follower.None? {
        return Cancelled;
      }
      var toFollow := Lookup(clientDb, target);
      if toFollow.None? {
        return Cancelled;
      }
      var i, j := follower.value, toFollow.value;
      if j == i {
        return AlreadyExists;
      }
      var present := Contains(clientDb[i].following, j);
      if !present {
        clientDb := clientDb[i := clientDb[i].(following := clientDb[i].following + [j])];
        clientDb := clientDb[j := clientDb[j].(followers := clientDb[j].followers + [i])];
        return Ok;
      }
      return AlreadyExists;
    }

    /** SNSServiceImpl::UnFollow: `username` asks to stop following `target`. */
    method UnFollow(username: string, target: string) returns (status: StatusCode)
      requires Valid()
      modifies this`clientDb
      ensures Valid()
      ensures Step(status, clientDb) == Graph.UnFollow(old(clientDb), username, target)
    {
      UnFollowPreservesValid(clientDb, username, target);
      var follower := Lookup(clientDb, username);
      if follower.None? {
        return Cancelled;
      }
      var toUnfollow := Lookup(clientDb, target);
      if toUnfollow.None? {
        return Cancelled;
      }
      var i, j := follower.value, toUnfollow.value;
      if j == i {
        return AlreadyExists;
      }
      var present := Contains(clientDb[i].following, j);
      if present {
        var following := EraseAll(clientDb[i].following, j);
        clientDb := clientDb[i := clientDb[i].(following := following)];
        var followers := EraseAll(clientDb[j].followers, i);
        clientDb := clientDb[j := clientDb[j].(followers := followers)];
        return Ok;
      }
      return AlreadyExists;
    }

    /** SNSServiceImpl::List: every username, then the requester's
        followers' names. */
    method List(username: string) returns (status: StatusCode, allUsers: seq<string>, followers: seq<string>)
      requires Valid()
      ensures status == Ok || status == Cancelled
      ensures Graph.List(clientDb, username)
           == if status == Ok then ListOk(allUsers, followers) else ListCancelled
    {
      allUsers, followers := [], [];
      var client := Lookup(clientDb, username);
      if client.None? {
        return Cancelled, allUsers, followers;
      }
      var i := client.value;
      assert WellLinked(clientDb, i);
      allUsers := UserNames(clientDb);
      followers := FollowerNames(clientDb, clientDb[i].followers);
      return Ok, allUsers, followers;
    }

    /** The replay loop: each window line that splits into exactly three
        fields is written to `name`'s stream. */
    method ReplayBacklog(name: string, last20: seq<string>)
      modifies this`outbox
      ensures outbox == WriteAll(old(outbox), name, DecodeAll(last20))
    {
      var k := 0;
      assert last20[..0] == [];
      while k < |last20|
        invariant 0 <= k <= |last20|
        invariant outbox == WriteAll(old(outbox), name, DecodeAll(last20[..k]))
      {
        var components := ParseData(last20[k]);
        assert last20[..k + 1][..k] == last20[..k];
        assert DecodeAll(last20[..k + 1]) == DecodeAll(last20[..k]) + Emit(last20[k]);
        WriteAllTwice(old(outbox), name, DecodeAll(last20[..k]), Emit(last20[k]));
        if |components| == 3 {
          outbox := WriteAll(outbox, name, [Message(components[0], components[1], components[2])]);
        }
        k := k + 1;
      }
      assert last20[..|last20|] == last20;
    }

    /** One iteration of Timeline's read loop in client `i`'s session: the
        record goes to the author's file, then the fanout loop visits the
        followers in order. */
    method Post(i: nat, m: Message)
      requires i < |clientDb| && InRange(clientDb, clientDb[i].followers)
      modifies this`files, this`outbox
      ensures State() == Broadcast(old(State()), i, m)
    {
      ghost var s := State();
      var rec := FormatFileOutput(m.username, m.msg, m.timestamp);
      files := AppendLine(files, AuthoredFile(m.username), rec);
      ghost var d := Delivery(files, outbox);
      FanOut(clientDb[i].followers, m, rec);
      assert clientDb == s.db && delTxtFiles == s.delTxtFiles;
      BroadcastIs(s, i, m, rec, d, Delivery(files, outbox));
    }

    /** The fanout loop: each follower in order gets the post on its stream,
        or the record in its pending file when it has no stream. */
    method FanOut(followers: seq<nat>, m: Message, rec: string)
      requires InRange(clientDb, followers)
      modifies this`files, this`outbox
      ensures Delivery(files, outbox) == Fanout(clientDb, followers, m, rec, old(Delivery(files, outbox)))
    {
      ghost var start := Delivery(files, outbox);
      var p := 0;
      assert followers[..0] == [];
      while p < |followers|
        invariant 0 <= p <= |followers|
        invariant Delivery(files, outbox) == Fanout(clientDb, followers[..p], m, rec, start)
      {
        var f := followers[p];
        FanoutStep(clientDb, followers, p, m, rec, start);
        if clientDb[f].hasStream {
          outbox := WriteAll(outbox, clientDb[f].username, [m]);
        } else {
          files := AppendLine(files, PendingFile(clientDb[f].username), rec);
        }
        p := p + 1;
      }
      assert followers[..|followers|] == followers;
    }

    /** Timeline's read loop in client `i`'s session: each post in turn. */
    method ReadLoop(i: nat, posts: seq<Message>)
      requires i < |clientDb| && InRange(clientDb, clientDb[i].followers)
      modifies this`files, this`outbox
      ensures State() == Posts(old(State()), i, posts)
    {
      var n := 0;
      assert posts[..0] == [];
      while n < |posts|
        invariant 0 <= n <= |posts|
        invariant State() == Posts(old(State()), i, posts[..n])
      {
        PostsStep(old(State()), i, posts, n);
        Post(i, posts[n]);
        n := n + 1;
      }
      assert posts[..|posts|] == posts;
    }

    /** Timeline up to its read loop: clear the files if still due, take
        the first message, bind the stream to its client and replay that
        client's backlog. */
    method Open(first: Option<Message>) returns (client: Option<nat>)
      modifies this
      ensures Opening(State(), client) == OpenTimeline(old(State()), first)
    {
      if delTxtFiles {
        files := map[];
        delTxtFiles := false;
      }
      if first.None? {
        return None;
      }
      var message := first.value;
      client := Lookup(clientDb, message.username);
      if client.None? {
        return None;
      }
      var i := client.value;
      clientDb := clientDb[i := clientDb[i].(hasStream := true)];
      var last20 := LoadBacklog(Lines(files, PendingFile(message.username)));
      ReplayBacklog(message.username, last20);
    }

    /** SNSServiceImpl::Timeline over a stream that yields `inbound` and
        then ends. */
    method Timeline(inbound: seq<Message>) returns (status: StatusCode)
      requires Valid()
      modifies this
      ensures Valid()
      ensures Session(status, State()) == Feed.Timeline(old(State()), inbound)
    {
      ghost var before := State();
      var first := if inbound == [] then None else Some(inbound[0]);
      var client := Open(first);
      if client.None? {
        TimelineRefused(before, inbound, State());
        assert Valid() by { TimelineOutcome(before, inbound); }
        return Cancelled;
      }
      var i := client.value;
      assert i < |before.db| && WellLinked(before.db, i);
      assert i < |clientDb| && InRange(clientDb, clientDb[i].followers);
      ghost var bound := State();
      TimelineBound(before, inbound, bound, i);
      ReadLoop(i, inbound[1..]);
      clientDb := clientDb[i := clientDb[i].(hasStream := false)];
      assert Valid() by { TimelineOutcome(before, inbound); }
      return Ok;
    }
  }
}
