/**
 * The daemon's client registry and follow graph: `client_db`, a vector of
 * Client records, and the Login, Follow, UnFollow and List services over
 * it, as functions from the old registry to the status and new registry.
 *
 * A Client* is modelled by the record's index in client_db: records are
 * only ever appended, so an index names the same record for the life of
 * the server, and two Client* values are equal exactly when their indices are.
 */
module Graph {
  import opened Wrappers
  import opened Proto

  /** One Client record. `hasStream` says whether `stream` is non-null. */
  datatype ClientRecord = ClientRecord(
    username: string,
    followers: seq<nat>,
    following: seq<nat>,
    hasStream: bool)

  /** A registry operation's status and the registry after it. */
  datatype Step = Step(status: StatusCode, db: seq<ClientRecord>)

  /** What List answers: a failing status, or the two name lists. */
  datatype ListResult = ListCancelled | ListOk(allUsers: seq<string>, followers: seq<string>)

  /** The record `new Client` creates: no edges, no stream. */
  function NewClient(name: string): (c: ClientRecord) {
    ClientRecord(name, [], [], false)
  }

  /** The usernames of client_db, in insertion order. */
  function Names(db: seq<ClientRecord>): (r: seq<string>)
    ensures |r| == |db|
    ensures forall k :: 0 <= k < |db| ==> r[k] == db[k].username
  {
    seq(|db|, k requires 0 <= k < |db| => db[k].username)
  }

  /** Every index in `ids` points at a record of client_db. */
  predicate InRange(db: seq<ClientRecord>, ids: seq<nat>) {
    forall p :: 0 <= p < |ids| ==> ids[p] < |db|
  }

  /** The usernames of the records `ids` points to, in order. */
  function NamesOf(db: seq<ClientRecord>, ids: seq<nat>): (r: seq<string>)
    requires InRange(db, ids)
    ensures |r| == |ids|
    ensures forall p :: 0 <= p < |ids| ==> r[p] == db[ids[p]].username
  {
    seq(|ids|, p requires 0 <= p < |ids| => db[ids[p]].username)
  }

  /** The scan `for (Client* c : client_db) if (c->username == name) ...
      break;`: the first record with that name, if any. */
  function Find(db: seq<ClientRecord>, name: string): (r: Option<nat>)
    ensures r.Some? ==> r.value < |db| && db[r.value].username == name
    ensures r.Some? ==> forall k :: 0 <= k < r.value ==> db[k].username != name
    ensures r.None? <==> name !in Names(db)
  {
    FindFrom(db, name, 0)
  }

  /** The same scan, started at position `from`. */
  function FindFrom(db: seq<ClientRecord>, name: string, from: nat): (r: Option<nat>)
    requires from <= |db|
    ensures r.Some? ==> from <= r.value < |db| && db[r.value].username == name
    ensures r.Some? ==> forall k :: from <= k < r.value ==> db[k].username != name
    ensures r.None? ==> forall k :: from <= k < |db| ==> db[k].username != name
    decreases |db| - from
  {
    if from == |db| then None
    else if db[from].username == name then Some(from)
    else FindFrom(db, name, from + 1)
  }

  predicate NoDuplicates(s: seq<nat>) {
    forall a, b :: 0 <= a < b < |s| ==> s[a] != s[b]
  }

  ghost predicate DistinctNames(db: seq<ClientRecord>) {
    forall a, b :: 0 <= a < b < |db| ==> db[a].username != db[b].username
  }

  /** Record `i`'s lists point into client_db, never at `i` itself, and
      hold no entry twice. */
  ghost predicate WellLinked(db: seq<ClientRecord>, i: nat)
    requires i < |db|
  {
    && InRange(db, db[i].followers) && InRange(db, db[i].following)
    && i !in db[i].followers && i !in db[i].following
    && NoDuplicates(db[i].followers) && NoDuplicates(db[i].following)
  }

  /** A is in B's followers exactly when B is in A's following. */
  ghost predicate Mirrored(db: seq<ClientRecord>) {
    forall a, b :: 0 <= a < |db| && 0 <= b < |db| ==>
      (a in db[b].followers <==> b in db[a].following)
  }

  /** The registry invariant every service keeps. */
  ghost predicate Valid(db: seq<ClientRecord>) {
    && DistinctNames(db)
    && (forall i :: 0 <= i < |db| ==> WellLinked(db, i))
    && Mirrored(db)
  }

  /** `s` with every occurrence of `x` erased (std::remove then erase). */
  function Without(s: seq<nat>, x: nat): (r: seq<nat>)
    ensures x !in r
    ensures forall y :: y != x ==> (y in r <==> y in s)
  {
    if s == [] then []
    else (if s[0] == x then [] else [s[0]]) + Without(s[1..], x)
  }

  /** The record index for a registered name. */
  function Id(db: seq<ClientRecord>, name: string): (i: nat)
    requires name in Names(db)
    ensures i < |db| && db[i].username == name
  {
    Find(db, name).value
  }

  /** Adds the edge "i follows j" to both lists. */
  function AddEdge(db: seq<ClientRecord>, i: nat, j: nat): (r: seq<ClientRecord>)
    requires i < |db| && j < |db| && i != j
  {
    db[i := db[i].(following := db[i].following + [j])]
      [j := db[j].(followers := db[j].followers + [i])]
  }

  /** Erases the edge "i follows j" from both lists. */
  function RemoveEdge(db: seq<ClientRecord>, i: nat, j: nat): (r: seq<ClientRecord>)
    requires i < |db| && j < |db| && i != j
  {
    db[i := db[i].(following := Without(db[i].following, j))]
      [j := db[j].(followers := Without(db[j].followers, i))]
  }

  /** SNSServiceImpl::Login. */
  function Login(db: seq<ClientRecord>, name: string): (r: Step)
    ensures r.status == AlreadyExists <==> name in Names(db)
    ensures r.status == AlreadyExists ==> r.db == db
    ensures r.status != AlreadyExists ==> r.status == Ok && r.db == db + [NewClient(name)]
  {
    match Find(db, name)
    case Some(_) => Step(AlreadyExists, db)
    case None => Step(Ok, db + [NewClient(name)])
  }

  /** SNSServiceImpl::Follow: `user` asks to follow `target`. */
  function Follow(db: seq<ClientRecord>, user: string, target: string): (r: Step)
    ensures r.status == Ok || r.status == Cancelled || r.status == AlreadyExists
    ensures r.status == Cancelled <==> user !in Names(db) || target !in Names(db)
    ensures r.status != Ok ==> r.db == db
    ensures |r.db| == |db| && Names(r.db) == Names(db)
  {
    match Find(db, user)
    case None => Step(Cancelled, db)
    case Some(i) =>
      match Find(db, target)
      case None => Step(Cancelled, db)
      case Some(j) =>
        if j == i then Step(AlreadyExists, db)
        else if j !in db[i].following then Step(Ok, AddEdge(db, i, j))
        else Step(AlreadyExists, db)
  }

  /** SNSServiceImpl::UnFollow: `user` asks to stop following `target`. */
  function UnFollow(db: seq<ClientRecord>, user: string, target: string): (r: Step)
    ensures r.status == Ok || r.status == Cancelled || r.status == AlreadyExists
    ensures r.status == Cancelled <==> user !in Names(db) || target !in Names(db)
    ensures r.status != Ok ==> r.db == db
    ensures |r.db| == |db| && Names(r.db) == Names(db)
  {
    match Find(db, user)
    case None => Step(Cancelled, db)
    case Some(i) =>
      match Find(db, target)
      case None => Step(Cancelled, db)
      case Some(j) =>
        if j == i then Step(AlreadyExists, db)
        else if j in db[i].following then Step(Ok, RemoveEdge(db, i, j))
        else Step(AlreadyExists, db)
  }

  /** SNSServiceImpl::List: every username, and the requester's followers. */
  function List(db: seq<ClientRecord>, user: string): (r: ListResult)
    requires Valid(db)
    ensures r.ListCancelled? <==> user !in Names(db)
    ensures r.ListOk? ==> r.allUsers == Names(db) && |r.followers| == |db[Id(db, user)].followers|
  {
    match Find(db, user)
    case None => ListCancelled
    case Some(i) =>
      assert WellLinked(db, i);
      ListOk(Names(db), NamesOf(db, db[i].followers))
  }

  // ---------------------------------------------------------------------
  // Properties
  // ---------------------------------------------------------------------

  /** Find only looks at the usernames. */
  lemma FindByNames(db: seq<ClientRecord>, db': seq<ClientRecord>, name: string)
    requires Names(db) == Names(db')
    ensures Find(db, name) == Find(db', name)
  {
    assert |db| == |Names(db)| == |db'|;
    assert forall k :: 0 <= k < |db| ==> db[k].username == Names(db)[k] == db'[k].username;
  }

  /** What AddEdge does, record by record. */
  lemma AddEdgeShape(db: seq<ClientRecord>, i: nat, j: nat)
    requires i < |db| && j < |db| && i != j
    ensures var r := AddEdge(db, i, j);
      && |r| == |db| && Names(r) == Names(db)
      && r[i] == db[i].(following := db[i].following + [j])
      && r[j] == db[j].(followers := db[j].followers + [i])
      && (forall k :: 0 <= k < |db| && k != i && k != j ==> r[k] == db[k])
  {
    var r := AddEdge(db, i, j);
    assert forall k :: 0 <= k < |db| ==> r[k].username == db[k].username;
  }

  /** What RemoveEdge does, record by record. */
  lemma RemoveEdgeShape(db: seq<ClientRecord>, i: nat, j: nat)
    requires i < |db| && j < |db| && i != j
    ensures var r := RemoveEdge(db, i, j);
      && |r| == |db| && Names(r) == Names(db)
      && r[i] == db[i].(following := Without(db[i].following, j))
      && r[j] == db[j].(followers := Without(db[j].followers, i))
      && (forall k :: 0 <= k < |db| && k != i && k != j ==> r[k] == db[k])
  {
    var r := RemoveEdge(db, i, j);
    assert forall k :: 0 <= k < |db| ==> r[k].username == db[k].username;
  }

  /** In a registry with distinct names, Find locates every record. */
  lemma FindRecord(db: seq<ClientRecord>, k: nat)
    requires DistinctNames(db) && k < |db|
    ensures Find(db, db[k].username) == Some(k)
  {
    var name := db[k].username;
    assert name in Names(db) by {
      assert Names(db)[k] == name;
    }
    var v := Find(db, name).value;
    assert !(v < k);
    assert !(k < v);
  }

  /** Login of a registered name is refused and changes nothing; a new name
      is appended as one fresh record, and the registry stays valid (so
      usernames stay pairwise distinct). */
  lemma LoginOutcome(db: seq<ClientRecord>, name: string)
    requires Valid(db)
    ensures var r := Login(db, name);
      && Valid(r.db)
      && (r.status == AlreadyExists <==> name in Names(db))
      && (r.status != AlreadyExists ==> r.status == Ok)
      && (r.status == AlreadyExists ==> r.db == db)
      && (r.status == Ok ==>
            |r.db| == |db| + 1 && r.db[..|db|] == db && r.db[|db|] == NewClient(name))
  {
    var r := Login(db, name);
    if r.status == Ok {
      assert r.db[..|db|] == db;
      AppendPreservesValid(db, name);
    }
  }

  /** Appending a fresh record for an unregistered name keeps the
      registry invariant. */
  lemma AppendPreservesValid(db: seq<ClientRecord>, name: string)
    requires Valid(db) && name !in Names(db)
    ensures Valid(db + [NewClient(name)])
  {
    var db' := db + [NewClient(name)];
    assert forall k :: 0 <= k < |db| ==> db'[k] == db[k];
    forall a, b | 0 <= a < b < |db'| ensures db'[a].username != db'[b].username {
      if b == |db| {
        assert db[a].username == Names(db)[a];
      }
    }
    forall k | 0 <= k < |db'| ensures WellLinked(db', k) {
      if k < |db| {
        assert WellLinked(db, k);
      }
    }
    AppendMirrored(db, name);
  }

  /** A record without edges leaves the mirror property intact. */
  lemma AppendMirrored(db: seq<ClientRecord>, name: string)
    requires Valid(db)
    ensures Mirrored(db + [NewClient(name)])
  {
    var db' := db + [NewClient(name)];
    forall a, b | 0 <= a < |db'| && 0 <= b < |db'|
      ensures a in db'[b].followers <==> b in db'[a].following
    {
      if a < |db| && b < |db| {
        assert a in db[b].followers <==> b in db[a].following;
      } else if a < |db| {
        assert WellLinked(db, a);
        assert b !in db[a].following;
      } else if b < |db| {
        assert WellLinked(db, b);
        assert a !in db[b].followers;
      }
    }
  }

  /** A name can log in at most once: the second attempt is refused. */
  lemma LoginOnce(db: seq<ClientRecord>, name: string)
    ensures Login(Login(db, name).db, name).status == AlreadyExists
  {
    var db' := Login(db, name).db;
    if Find(db, name).None? {
      assert db'[|db|].username == name;
      assert Names(db')[|db|] == name;
    }
  }

  /** Follow's error precedence: an unknown requester, then an unknown
      target, give Cancelled; then a self-target gives AlreadyExists; all
      three leave the registry as it was. */
  lemma FollowRejections(db: seq<ClientRecord>, user: string, target: string)
    ensures user !in Names(db) ==> Follow(db, user, target) == Step(Cancelled, db)
    ensures user in Names(db) && target !in Names(db) ==>
      Follow(db, user, target) == Step(Cancelled, db)
    ensures user in Names(db) && user == target ==>
      Follow(db, user, target) == Step(AlreadyExists, db)
  {
  }

  /** UnFollow's error precedence, the same as Follow's. */
  lemma UnFollowRejections(db: seq<ClientRecord>, user: string, target: string)
    ensures user !in Names(db) ==> UnFollow(db, user, target) == Step(Cancelled, db)
    ensures user in Names(db) && target !in Names(db) ==>
      UnFollow(db, user, target) == Step(Cancelled, db)
    ensures user in Names(db) && user == target ==>
      UnFollow(db, user, target) == Step(AlreadyExists, db)
  {
  }

  /** Between two distinct registered users, Follow succeeds exactly when
      the edge is new; it then appends the target to the requester's
      following and the requester to the target's followers and changes
      nothing else; otherwise it answers AlreadyExists and changes nothing. */
  lemma FollowAddsEdge(db: seq<ClientRecord>, user: string, target: string)
    requires Valid(db)
    requires user in Names(db) && target in Names(db) && user != target
    ensures var i, j, r := Id(db, user), Id(db, target), Follow(db, user, target);
      && i != j
      && (r.status == Ok <==> j !in db[i].following)
      && (r.status != Ok ==> r == Step(AlreadyExists, db))
      && (r.status == Ok ==>
            && |r.db| == |db|
            && r.db[i].following == db[i].following + [j]
            && r.db[j].followers == db[j].followers + [i]
            && r.db[i].followers == db[i].followers
            && r.db[j].following == db[j].following
            && Names(r.db) == Names(db)
            && (forall k :: 0 <= k < |db| ==> r.db[k].hasStream == db[k].hasStream)
            && (forall k :: 0 <= k < |db| && k != i && k != j ==> r.db[k] == db[k]))
  {
    FollowBetween(db, user, target, Id(db, user), Id(db, target));
  }

  /** FollowAddsEdge for the records `i` and `j` that Find locates. */
  lemma FollowBetween(db: seq<ClientRecord>, user: string, target: string, i: nat, j: nat)
    requires i < |db| && j < |db| && i != j
    requires Find(db, user) == Some(i) && Find(db, target) == Some(j)
    ensures var r := Follow(db, user, target);
      && (r.status == Ok <==> j !in db[i].following)
      && (r.status != Ok ==> r == Step(AlreadyExists, db))
      && (r.status == Ok ==>
            && |r.db| == |db|
            && r.db[i].following == db[i].following + [j]
            && r.db[j].followers == db[j].followers + [i]
            && r.db[i].followers == db[i].followers
            && r.db[j].following == db[j].following
            && Names(r.db) == Names(db)
            && (forall k :: 0 <= k < |db| ==> r.db[k].hasStream == db[k].hasStream)
            && (forall k :: 0 <= k < |db| && k != i && k != j ==> r.db[k] == db[k]))
  {
    assert Follow(db, user, target)
        == if j !in db[i].following then Step(Ok, AddEdge(db, i, j)) else Step(AlreadyExists, db);
    AddEdgeShape(db, i, j);
  }

  /** Following the same user twice: the second Follow is refused. */
  lemma FollowTwice(db: seq<ClientRecord>, user: string, target: string)
    requires Valid(db)
    requires Follow(db, user, target).status == Ok
    ensures var db' := Follow(db, user, target).db;
      Follow(db', user, target) == Step(AlreadyExists, db')
  {
    var i, j := FollowSucceeded(db, user, target);
    var db' := AddEdge(db, i, j);
    AddEdgeShape(db, i, j);
    FindByNames(db, db', user);
    FindByNames(db, db', target);
    assert db'[i].following[|db[i].following|] == j;
  }

  /** Erasing an entry that occurs once removes exactly that position and
      keeps the others in order. */
  lemma {:induction false} WithoutSingle(s: seq<nat>, p: nat)
    requires NoDuplicates(s) && p < |s|
    ensures Without(s, s[p]) == s[..p] + s[p + 1..]
  {
    if p == 0 {
      WithoutAbsent(s[1..], s[0]);
      assert s[1..] == s[..0] + s[1..];
    } else {
      var t := s[1..];
      assert t[p - 1] == s[p] && s[0] != s[p];
      WithoutSingle(t, p - 1);
      assert s[..p] == [s[0]] + t[..p - 1];
      assert s[p + 1..] == t[p..];
    }
  }

  /** Every position holding `x` in a duplicate-free sequence is the one
      position Without removes. */
  lemma WithoutAt(s: seq<nat>, x: nat)
    requires NoDuplicates(s)
    ensures forall p :: 0 <= p < |s| && s[p] == x ==> Without(s, x) == s[..p] + s[p + 1..]
  {
    forall p | 0 <= p < |s| && s[p] == x
      ensures Without(s, x) == s[..p] + s[p + 1..]
    {
      WithoutSingle(s, p);
    }
  }

  /** Erasing an absent entry changes nothing. */
  lemma {:induction false} WithoutAbsent(s: seq<nat>, x: nat)
    requires x !in s
    ensures Without(s, x) == s
  {
    if s != [] {
      WithoutAbsent(s[1..], x);
      assert s == [s[0]] + s[1..];
    }
  }

  /** Erasing what was just appended restores the list. */
  lemma {:induction false} WithoutAppended(s: seq<nat>, x: nat)
    requires x !in s
    ensures Without(s + [x], x) == s
  {
    if s == [] {
      assert Without([x], x) == [] + Without([], x);
    } else {
      assert (s + [x])[1..] == s[1..] + [x];
      WithoutAppended(s[1..], x);
      assert s == [s[0]] + s[1..];
    }
  }

  /** Erasing keeps an entry-free list entry-free. */
  lemma {:induction false} WithoutNoDuplicates(s: seq<nat>, x: nat)
    requires NoDuplicates(s)
    ensures NoDuplicates(Without(s, x))
  {
    if s != [] {
      WithoutNoDuplicates(s[1..], x);
      var rest := Without(s[1..], x);
      if s[0] != x {
        assert s[0] !in s[1..];
        assert s[0] !in rest;
        assert Without(s, x) == [s[0]] + rest;
      }
    }
  }

  /** Between two distinct registered users, UnFollow succeeds exactly when
      the edge exists; it then removes exactly that edge from both lists,
      keeping the other entries in order, and changes nothing else;
      otherwise it answers AlreadyExists and changes nothing. */
  lemma UnFollowRemovesEdge(db: seq<ClientRecord>, user: string, target: string)
    requires Valid(db)
    requires user in Names(db) && target in Names(db) && user != target
    ensures var i, j, r := Id(db, user), Id(db, target), UnFollow(db, user, target);
      && (r.status == Ok <==> j in db[i].following)
      && (r.status != Ok ==> r == Step(AlreadyExists, db))
      && (r.status == Ok ==>
            && |r.db| == |db|
            && (forall p :: 0 <= p < |db[i].following| && db[i].following[p] == j ==>
                  r.db[i].following == db[i].following[..p] + db[i].following[p + 1..])
            && (forall p :: 0 <= p < |db[j].followers| && db[j].followers[p] == i ==>
                  r.db[j].followers == db[j].followers[..p] + db[j].followers[p + 1..])
            && r.db[i].followers == db[i].followers
            && r.db[j].following == db[j].following
            && Names(r.db) == Names(db)
            && (forall k :: 0 <= k < |db| ==> r.db[k].hasStream == db[k].hasStream)
            && (forall k :: 0 <= k < |db| && k != i && k != j ==> r.db[k] == db[k]))
  {
    var i, j := Id(db, user), Id(db, target);
    assert WellLinked(db, i) && WellLinked(db, j);
    UnFollowBetween(db, user, target, i, j);
  }

  /** UnFollowRemovesEdge for the records `i` and `j` that Find locates. */
  lemma UnFollowBetween(db: seq<ClientRecord>, user: string, target: string, i: nat, j: nat)
    requires i < |db| && j < |db| && i != j
    requires Find(db, user) == Some(i) && Find(db, target) == Some(j)
    requires NoDuplicates(db[i].following) && NoDuplicates(db[j].followers)
    ensures var r := UnFollow(db, user, target);
      && (r.status == Ok <==> j in db[i].following)
      && (r.status != Ok ==> r == Step(AlreadyExists, db))
      && (r.status == Ok ==>
            && |r.db| == |db|
            && (forall p :: 0 <= p < |db[i].following| && db[i].following[p] == j ==>
                  r.db[i].following == db[i].following[..p] + db[i].following[p + 1..])
            && (forall p :: 0 <= p < |db[j].followers| && db[j].followers[p] == i ==>
                  r.db[j].followers == db[j].followers[..p] + db[j].followers[p + 1..])
            && r.db[i].followers == db[i].followers
            && r.db[j].following == db[j].following
            && Names(r.db) == Names(db)
            && (forall k :: 0 <= k < |db| ==> r.db[k].hasStream == db[k].hasStream)
            && (forall k :: 0 <= k < |db| && k != i && k != j ==> r.db[k] == db[k]))
  {
    assert UnFollow(db, user, target)
        == if j in db[i].following then Step(Ok, RemoveEdge(db, i, j)) else Step(AlreadyExists, db);
    RemoveEdgeShape(db, i, j);
    RemoveEdgeAt(db, i, j);
  }

  /** RemoveEdge drops exactly the position holding the edge from each
      list, keeping the other entries in order. */
  lemma RemoveEdgeAt(db: seq<ClientRecord>, i: nat, j: nat)
    requires i < |db| && j < |db| && i != j
    requires NoDuplicates(db[i].following) && NoDuplicates(db[j].followers)
    ensures var r := RemoveEdge(db, i, j);
      && (forall p :: 0 <= p < |db[i].following| && db[i].following[p] == j ==>
            r[i].following == db[i].following[..p] + db[i].following[p + 1..])
      && (forall p :: 0 <= p < |db[j].followers| && db[j].followers[p] == i ==>
            r[j].followers == db[j].followers[..p] + db[j].followers[p + 1..])
  {
    RemoveEdgeShape(db, i, j);
    WithoutAt(db[i].following, j);
    WithoutAt(db[j].followers, i);
  }

  /** A successful Follow undone by UnFollow restores the registry exactly. */
  lemma FollowThenUnFollow(db: seq<ClientRecord>, user: string, target: string)
    requires Valid(db)
    requires Follow(db, user, target).status == Ok
    ensures UnFollow(Follow(db, user, target).db, user, target) == Step(Ok, db)
  {
    var i, j := FollowSucceeded(db, user, target);
    var db' := AddEdge(db, i, j);
    AddEdgeShape(db, i, j);
    FindByNames(db, db', user);
    FindByNames(db, db', target);
    assert UnFollow(db', user, target) == Step(Ok, RemoveEdge(db', i, j));
    RemoveAfterAdd(db, i, j);
  }

  /** What a successful Follow did: the indices it resolved and the edge it
      added. */
  lemma FollowSucceeded(db: seq<ClientRecord>, user: string, target: string) returns (i: nat, j: nat)
    requires Follow(db, user, target).status == Ok
    ensures Find(db, user) == Some(i) && Find(db, target) == Some(j)
    ensures i < |db| && j < |db| && i != j && j !in db[i].following
    ensures Follow(db, user, target).db == AddEdge(db, i, j)
  {
    i, j := Find(db, user).value, Find(db, target).value;
  }

  /** Removing a freshly added edge gives back the registry. */
  lemma RemoveAfterAdd(db: seq<ClientRecord>, i: nat, j: nat)
    requires Valid(db)
    requires i < |db| && j < |db| && i != j && j !in db[i].following
    ensures RemoveEdge(AddEdge(db, i, j), i, j) == db
  {
    var db' := AddEdge(db, i, j);
    AddEdgeShape(db, i, j);
    EdgeFacts(db, i, j);
    WithoutAppended(db[i].following, j);
    WithoutAppended(db[j].followers, i);
    RemoveEdgeShape(db', i, j);
    var back := RemoveEdge(db', i, j);
    assert forall k :: 0 <= k < |db| ==> back[k] == db[k];
  }

  /** The parts of the invariant that one edge between `i` and `j` involves. */
  lemma EdgeFacts(db: seq<ClientRecord>, i: nat, j: nat)
    requires Valid(db)
    requires i < |db| && j < |db|
    ensures WellLinked(db, i) && WellLinked(db, j)
    ensures i in db[j].followers <==> j in db[i].following
  {
  }

  /** Login keeps the registry invariant. */
  lemma LoginPreservesValid(db: seq<ClientRecord>, name: string)
    requires Valid(db)
    ensures Valid(Login(db, name).db)
  {
    LoginOutcome(db, name);
  }

  /** Follow keeps the registry invariant: mirrored lists, no self-edges,
      no duplicates. */
  lemma FollowPreservesValid(db: seq<ClientRecord>, user: string, target: string)
    requires Valid(db)
    ensures Valid(Follow(db, user, target).db)
  {
    if Follow(db, user, target).status == Ok {
      var i, j := Find(db, user).value, Find(db, target).value;
      EdgeFacts(db, i, j);
      AddEdgePreservesValid(db, i, j);
    }
  }

  lemma AddEdgePreservesValid(db: seq<ClientRecord>, i: nat, j: nat)
    requires Valid(db)
    requires i < |db| && j < |db| && i != j && j !in db[i].following
    ensures Valid(AddEdge(db, i, j))
  {
    var db' := AddEdge(db, i, j);
    AddEdgeShape(db, i, j);
    SameNamesDistinct(db, db');
    AddEdgeWellLinked(db, i, j);
    AddEdgeMirrored(db, i, j);
  }

  /** Registries with the same names agree on name distinctness. */
  lemma SameNamesDistinct(db: seq<ClientRecord>, db': seq<ClientRecord>)
    requires DistinctNames(db) && Names(db') == Names(db)
    ensures DistinctNames(db')
  {
    forall a, b | 0 <= a < b < |db'| ensures db'[a].username != db'[b].username {
      assert db'[a].username == Names(db)[a] && db'[b].username == Names(db)[b];
    }
  }

  /** A new edge between distinct records keeps every record well linked. */
  lemma AddEdgeWellLinked(db: seq<ClientRecord>, i: nat, j: nat)
    requires Valid(db)
    requires i < |db| && j < |db| && i != j && j !in db[i].following
    ensures forall k :: 0 <= k < |db| ==> WellLinked(AddEdge(db, i, j), k)
  {
    var db' := AddEdge(db, i, j);
    AddEdgeShape(db, i, j);
    EdgeFacts(db, i, j);
    forall k | 0 <= k < |db'| ensures WellLinked(db', k) {
      assert WellLinked(db, k);
    }
  }

  /** A new edge is recorded on both sides, so the lists stay mirrored. */
  lemma AddEdgeMirrored(db: seq<ClientRecord>, i: nat, j: nat)
    requires Valid(db)
    requires i < |db| && j < |db| && i != j && j !in db[i].following
    ensures Mirrored(AddEdge(db, i, j))
  {
    var db' := AddEdge(db, i, j);
    AddEdgeShape(db, i, j);
    EdgeFacts(db, i, j);
    forall a, b | 0 <= a < |db'| && 0 <= b < |db'|
      ensures a in db'[b].followers <==> b in db'[a].following
    {
      assert a in db[b].followers <==> b in db[a].following;
    }
  }

  /** UnFollow keeps the registry invariant. */
  lemma UnFollowPreservesValid(db: seq<ClientRecord>, user: string, target: string)
    requires Valid(db)
    ensures Valid(UnFollow(db, user, target).db)
  {
    if UnFollow(db, user, target).status == Ok {
      var i, j := Find(db, user).value, Find(db, target).value;
      RemoveEdgePreservesValid(db, i, j);
    }
  }

  lemma RemoveEdgePreservesValid(db: seq<ClientRecord>, i: nat, j: nat)
    requires Valid(db)
    requires i < |db| && j < |db| && i != j
    ensures Valid(RemoveEdge(db, i, j))
  {
    var db' := RemoveEdge(db, i, j);
    RemoveEdgeShape(db, i, j);
    EdgeFacts(db, i, j);
    WithoutNoDuplicates(db[i].following, j);
    WithoutNoDuplicates(db[j].followers, i);
    WithoutInRange(db, db[i].following, j);
    WithoutInRange(db, db[j].followers, i);
    SameNamesDistinct(db, db');
    forall k | 0 <= k < |db'| ensures WellLinked(db', k) {
      assert WellLinked(db, k);
    }
    forall a, b | 0 <= a < |db'| && 0 <= b < |db'|
      ensures a in db'[b].followers <==> b in db'[a].following
    {
      assert a in db[b].followers <==> b in db[a].following;
    }
  }

  /** Erasing keeps the indices in range. */
  lemma WithoutInRange(db: seq<ClientRecord>, s: seq<nat>, x: nat)
    requires InRange(db, s)
    ensures InRange(db, Without(s, x))
  {
    var r := Without(s, x);
    forall p | 0 <= p < |r| ensures r[p] < |db| {
      assert r[p] in s;
    }
  }

  /** List refuses an unknown requester; otherwise it reports every user in
      insertion order, and as followers exactly the users whose following
      holds the requester, each once. */
  lemma ListReportsGraph(db: seq<ClientRecord>, user: string)
    requires Valid(db)
    ensures List(db, user).ListCancelled? <==> user !in Names(db)
    ensures List(db, user).ListOk? ==>
      && List(db, user).allUsers == Names(db)
      && (forall k :: 0 <= k < |db| ==>
            (db[k].username in List(db, user).followers <==> Id(db, user) in db[k].following))
      && (forall a, b :: 0 <= a < b < |List(db, user).followers| ==>
            List(db, user).followers[a] != List(db, user).followers[b])
  {
    if user in Names(db) {
      var i := Id(db, user);
      var fs := List(db, user).followers;
      assert WellLinked(db, i);
      forall k | 0 <= k < |db|
        ensures db[k].username in fs <==> i in db[k].following
      {
        if db[k].username in fs {
          var p :| 0 <= p < |fs| && fs[p] == db[k].username;
          assert db[db[i].followers[p]].username == db[k].username;
          assert db[i].followers[p] == k;
        }
        if i in db[k].following {
          assert k in db[i].followers;
          var p :| 0 <= p < |db[i].followers| && db[i].followers[p] == k;
          assert fs[p] == db[k].username;
        }
      }
    }
  }

  /** After `user` starts following `target`, List for `target` reports the
      same users as before and the followers it reported before, in order,
      with `user` added at the end. */
  lemma FollowThenList(db: seq<ClientRecord>, user: string, target: string)
    requires Valid(db)
    requires Follow(db, user, target).status == Ok
    ensures Valid(Follow(db, user, target).db)
    ensures target in Names(db) && List(db, target).ListOk?
    ensures var l := List(Follow(db, user, target).db, target);
      && l.ListOk?
      && l.allUsers == List(db, target).allUsers
      && l.followers == List(db, target).followers + [user]
  {
    var i, j := FollowSucceeded(db, user, target);
    var db' := AddEdge(db, i, j);
    FollowPreservesValid(db, user, target);
    AddEdgeShape(db, i, j);
    FindByNames(db, db', target);
    ListOf(db, target);
    ListOf(db', target);
    assert Names(db') == Names(db);
    var fs := db[j].followers;
    assert db'[j].followers == fs + [i];
    var before := NamesOf(db, fs);
    var after := NamesOf(db', fs + [i]);
    assert |after| == |before + [user]|;
    forall p | 0 <= p < |after| ensures after[p] == (before + [user])[p] {
      if p < |fs| {
        assert db'[fs[p]].username == db[fs[p]].username;
      }
    }
  }

  /** List for a registered requester. */
  lemma ListOf(db: seq<ClientRecord>, user: string)
    requires Valid(db) && user in Names(db)
    ensures WellLinked(db, Id(db, user))
    ensures List(db, user) == ListOk(Names(db), NamesOf(db, db[Id(db, user)].followers))
  {
  }
}
