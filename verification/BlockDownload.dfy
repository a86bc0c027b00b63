// Which blocks have been asked of which peer (src/main.cpp): per-peer lists with global indexes
// into them, kept in step while peers come and go.
module BlockDownload {
  import opened Common

  const MAX_BLOCKS_IN_TRANSIT_PER_PEER: nat := 128

  type NodeId = int

  // One list element; the token is its address, which the global indexes hold on to.
  datatype Entry = Entry(token: nat, hash: Hash256)

  type Lists = map<NodeId, seq<Entry>>
  type Where = map<Hash256, (NodeId, nat)>

  // ---------------------------------------------------------------- lists and their index

  predicate EntryFound(lists: Lists, index: Where, n: NodeId, i: int)
    requires n in lists && 0 <= i < |lists[n]|
  {
    lists[n][i].hash in index && index[lists[n][i].hash] == (n, lists[n][i].token)
  }

  predicate HashFound(lists: Lists, index: Where, h: Hash256)
    requires h in index
  {
    index[h].0 in lists && Entry(index[h].1, h) in lists[index[h].0]
  }

  predicate Apart(list: seq<Entry>, bound: nat) {
    && (forall i :: 0 <= i < |list| ==> list[i].token < bound)
    && (forall i, j :: 0 <= i < j < |list| ==> list[i].token != list[j].token)
  }

  // The index is exactly the inverse of the lists.
  ghost predicate Agree(lists: Lists, index: Where, bound: nat) {
    && (forall n, i :: n in lists && 0 <= i < |lists[n]| ==> EntryFound(lists, index, n, i))
    && (forall h :: h in index ==> HashFound(lists, index, h))
    && (forall n :: n in lists ==> Apart(lists[n], bound))
  }

  // No hash is listed twice, by whatever peers.
  lemma ListedOnce(lists: Lists, index: Where, bound: nat, n: NodeId, i: nat, m: NodeId, j: nat)
    requires Agree(lists, index, bound) && n in lists && i < |lists[n]| && m in lists && j < |lists[m]|
    requires lists[n][i].hash == lists[m][j].hash
    ensures n == m && i == j
  {
    assert EntryFound(lists, index, n, i) && EntryFound(lists, index, m, j);
    assert Apart(lists[n], bound);
  }

  function Erased(list: seq<Entry>, token: nat): (r: seq<Entry>)
    ensures |r| <= |list|
  {
    if list == [] then [] else if list[0].token == token then list[1..] else [list[0]] + Erased(list[1..], token)
  }

  lemma ApartTail(list: seq<Entry>, bound: nat)
    requires Apart(list, bound) && list != []
    ensures Apart(list[1..], bound) && forall x :: x in list[1..] ==> x.token != list[0].token
    ensures forall x :: x in list <==> x == list[0] || x in list[1..]
  {
    assert list == [list[0]] + list[1..];
    forall x | x in list[1..] ensures x.token != list[0].token {
      var k :| 0 <= k < |list[1..]| && list[1..][k] == x;
      assert list[k + 1] == x;
    }
  }

  lemma ApartCons(list: seq<Entry>, e: Entry, bound: nat)
    requires Apart(list, bound) && e.token < bound && forall x :: x in list ==> x.token != e.token
    ensures Apart([e] + list, bound)
  {
    var more := [e] + list;
    forall i, j | 0 <= i < j < |more| ensures more[i].token != more[j].token {
      assert more[j] == list[j - 1] && list[j - 1] in list;
    }
  }

  lemma {:induction false} ErasedFacts(list: seq<Entry>, e: Entry, bound: nat)
    requires Apart(list, bound) && e in list
    ensures Apart(Erased(list, e.token), bound) && |Erased(list, e.token)| == |list| - 1
    ensures forall x :: x in Erased(list, e.token) <==> x in list && x != e
  {
    ApartTail(list, bound);
    assert list[0].token < bound;
    hide Apart;
    if list[0] != e {
      assert list[0].token != e.token;
      ErasedFacts(list[1..], e, bound);
      ApartCons(Erased(list[1..], e.token), list[0], bound);
    }
  }

  lemma AppendAgrees(lists: Lists, index: Where, bound: nat, n: NodeId, h: Hash256)
    requires Agree(lists, index, bound) && n in lists && h !in index
    ensures Agree(lists[n := lists[n] + [Entry(bound, h)]], index[h := (n, bound)], bound + 1)
  {
    var e := Entry(bound, h);
    var lists', index' := lists[n := lists[n] + [e]], index[h := (n, bound)];
    forall m, i | m in lists' && 0 <= i < |lists'[m]| ensures EntryFound(lists', index', m, i) {
      if m != n || i < |lists[n]| {
        assert EntryFound(lists, index, m, i);
      }
    }
    forall x | x in index' ensures HashFound(lists', index', x) {
      if x != h {
        assert HashFound(lists, index, x);
      } else {
        assert lists'[n][|lists[n]|] == e;
      }
    }
    forall m | m in lists' ensures Apart(lists'[m], bound + 1) { assert Apart(lists[m], bound); }
  }

  lemma EraseAgrees(lists: Lists, index: Where, bound: nat, h: Hash256)
    requires Agree(lists, index, bound) && h in index
    ensures var (n, token) := index[h];
            && n in lists && |lists[n]| > 0 && |Erased(lists[n], token)| == |lists[n]| - 1
            && Agree(lists[n := Erased(lists[n], token)], index - {h}, bound)
  {
    assert HashFound(lists, index, h);
    var n, token := index[h].0, index[h].1;
    var e := Entry(token, h);
    assert Apart(lists[n], bound);
    ErasedFacts(lists[n], e, bound);
    var lists', index' := lists[n := Erased(lists[n], token)], index - {h};
    forall m, i | m in lists' && 0 <= i < |lists'[m]| ensures EntryFound(lists', index', m, i) {
      var x := lists'[m][i];
      assert x in lists'[m];
      var k :| 0 <= k < |lists[m]| && lists[m][k] == x;
      assert EntryFound(lists, index, m, k);
    }
    forall x | x in index' ensures HashFound(lists', index', x) { assert HashFound(lists, index, x); }
    forall m | m in lists' ensures Apart(lists'[m], bound) { assert Apart(lists[m], bound); }
  }

  lemma NewPeerAgrees(lists: Lists, index: Where, bound: nat, n: NodeId)
    requires Agree(lists, index, bound) && n !in lists
    ensures Agree(lists[n := []], index, bound)
  {
    var lists' := lists[n := []];
    forall m, i | m in lists' && 0 <= i < |lists'[m]| ensures EntryFound(lists', index, m, i) {
      assert EntryFound(lists, index, m, i);
    }
    forall x | x in index ensures HashFound(lists', index, x) { assert HashFound(lists, index, x); }
    forall m | m in lists' ensures Apart(lists'[m], bound) { assert m in lists ==> Apart(lists[m], bound); }
  }

  function HashesOf(list: seq<Entry>): (r: seq<Hash256>)
    ensures |r| == |list| && forall i :: 0 <= i < |r| ==> r[i] == list[i].hash
  {
    seq(|list|, i requires 0 <= i < |list| => list[i].hash)
  }

  function HashSet(list: seq<Entry>): set<Hash256> { set e | e in list :: e.hash }

  lemma RemovePeerAgrees(lists: Lists, index: Where, bound: nat, n: NodeId)
    requires Agree(lists, index, bound) && n in lists
    ensures Agree(lists - {n}, index - HashSet(lists[n]), bound)
  {
    var lists', index' := lists - {n}, index - HashSet(lists[n]);
    forall h | h in HashSet(lists[n]) ensures h in index && index[h].0 == n {
      var e :| e in lists[n] && e.hash == h;
      var k :| 0 <= k < |lists[n]| && lists[n][k] == e;
      assert EntryFound(lists, index, n, k);
    }
    forall h | h in index ensures HashFound(lists, index, h) && (index[h].0 == n ==> h in HashSet(lists[n])) {
      assert HashFound(lists, index, h);
    }
    forall m, i | m in lists' && 0 <= i < |lists'[m]| ensures EntryFound(lists', index', m, i) {
      assert EntryFound(lists, index, m, i);
    }
    forall h | h in index' ensures HashFound(lists', index', h) { assert HashFound(lists, index, h); }
    forall m | m in lists' ensures Apart(lists'[m], bound) { assert Apart(lists[m], bound); }
  }

  lemma MoreTokens(lists: Lists, index: Where, bound: nat)
    requires Agree(lists, index, bound)
    ensures Agree(lists, index, bound + 1)
  {
    forall n | n in lists ensures Apart(lists[n], bound + 1) { assert Apart(lists[n], bound); }
  }

  // ---------------------------------------------------------------- the node's state

  datatype Peer = Peer(inFlight: seq<Entry>, nInFlight: int, toDownload: seq<Entry>, nToDownload: int)

  datatype State = State(peers: map<NodeId, Peer>, toDownload: Where, inFlight: Where, nextToken: nat)

  function Queues(peers: map<NodeId, Peer>): Lists { map n | n in peers :: peers[n].toDownload }
  function Flights(peers: map<NodeId, Peer>): Lists { map n | n in peers :: peers[n].inFlight }

  predicate Counted(p: Peer) {
    p.nToDownload == |p.toDownload| && p.nInFlight == |p.inFlight|
  }

  // Every hash is listed with at most one live peer, as wanted or as requested; the indexes point
  // at list elements that exist; the counters are the lengths.
  ghost predicate Inv(s: State) {
    && Agree(Queues(s.peers), s.toDownload, s.nextToken) && Agree(Flights(s.peers), s.inFlight, s.nextToken)
    && s.toDownload.Keys !! s.inFlight.Keys
    && forall n :: n in s.peers ==> Counted(s.peers[n])
  }

  // No peer owes more blocks than the limit.
  predicate WithinLimit(s: State) {
    forall n :: n in s.peers ==> |s.peers[n].inFlight| <= MAX_BLOCKS_IN_TRANSIT_PER_PEER
  }

  // The hash is wanted from nobody.
  function Unlisted(s: State, h: Hash256): State {
    if h !in s.toDownload || s.toDownload[h].0 !in s.peers then s
    else
      var (n, token) := s.toDownload[h];
      var p := s.peers[n];
      s.(peers := s.peers[n := p.(toDownload := Erased(p.toDownload, token), nToDownload := p.nToDownload - 1)],
         toDownload := s.toDownload - {h})
  }

  // The hash is requested from nobody.
  function Unflown(s: State, h: Hash256): State {
    if h !in s.inFlight || s.inFlight[h].0 !in s.peers then s
    else
      var (n, token) := s.inFlight[h];
      var p := s.peers[n];
      s.(peers := s.peers[n := p.(inFlight := Erased(p.inFlight, token), nInFlight := p.nInFlight - 1)],
         inFlight := s.inFlight - {h})
  }

  function Received(s: State, h: Hash256): State { Unflown(Unlisted(s, h), h) }

  function Enqueued(s: State, n: NodeId, h: Hash256): State
    requires n in s.peers
  {
    var p := s.peers[n];
    s.(peers := s.peers[n := p.(toDownload := p.toDownload + [Entry(s.nextToken, h)],
                                nToDownload := p.nToDownload + 1)],
       toDownload := s.toDownload[h := (n, s.nextToken)], nextToken := s.nextToken + 1)
  }

  function Launched(s: State, n: NodeId, h: Hash256): State
    requires n in s.peers
  {
    var p := s.peers[n];
    s.(peers := s.peers[n := p.(inFlight := p.inFlight + [Entry(s.nextToken, h)], nInFlight := p.nInFlight + 1)],
       inFlight := s.inFlight[h := (n, s.nextToken)], nextToken := s.nextToken + 1)
  }

  function Joined(s: State, n: NodeId): State {
    if n in s.peers then s else s.(peers := s.peers[n := Peer([], 0, [], 0)])
  }

  function Left(s: State, n: NodeId): State
    requires n in s.peers
  {
    s.(peers := s.peers - {n}, toDownload := s.toDownload - HashSet(s.peers[n].toDownload),
       inFlight := s.inFlight - HashSet(s.peers[n].inFlight))
  }

  // One peer's record replaced.
  lemma OnePeer(peers: map<NodeId, Peer>, n: NodeId, p: Peer)
    requires n in peers
    ensures Queues(peers[n := p]) == if p.toDownload == peers[n].toDownload then Queues(peers)
            else Queues(peers)[n := p.toDownload]
    ensures Flights(peers[n := p]) == if p.inFlight == peers[n].inFlight then Flights(peers)
            else Flights(peers)[n := p.inFlight]
    ensures Queues(peers).Keys == Flights(peers).Keys == peers.Keys
    ensures Queues(peers)[n] == peers[n].toDownload && Flights(peers)[n] == peers[n].inFlight
  {
  }

  lemma PeersExist(s: State, h: Hash256)
    requires Inv(s)
    ensures h in s.toDownload ==> s.toDownload[h].0 in s.peers
    ensures h in s.inFlight ==> s.inFlight[h].0 in s.peers
  {
    assert h in s.toDownload ==> HashFound(Queues(s.peers), s.toDownload, h);
    assert h in s.inFlight ==> HashFound(Flights(s.peers), s.inFlight, h);
  }

  // What leaving a list does to the peers' lists.
  lemma UnlistedParts(s: State, h: Hash256)
    requires h in s.toDownload && s.toDownload[h].0 in s.peers
    ensures var (n, token) := s.toDownload[h];
            var p, u := s.peers[n], Unlisted(s, h);
            && u.peers == s.peers[n := p.(toDownload := Erased(p.toDownload, token), nToDownload := p.nToDownload - 1)]
            && Queues(u.peers) == Queues(s.peers)[n := Erased(Queues(s.peers)[n], token)]
            && Flights(u.peers) == Flights(s.peers)
            && u == State(u.peers, s.toDownload - {h}, s.inFlight, s.nextToken)
  {
    hide Erased;
  }

  lemma UnflownParts(s: State, h: Hash256)
    requires h in s.inFlight && s.inFlight[h].0 in s.peers
    ensures var (n, token) := s.inFlight[h];
            var p, u := s.peers[n], Unflown(s, h);
            && u.peers == s.peers[n := p.(inFlight := Erased(p.inFlight, token), nInFlight := p.nInFlight - 1)]
            && Flights(u.peers) == Flights(s.peers)[n := Erased(Flights(s.peers)[n], token)]
            && Queues(u.peers) == Queues(s.peers)
            && u == State(u.peers, s.toDownload, s.inFlight - {h}, s.nextToken)
  {
    hide Erased;
  }

  lemma UnlistedKeeps(s: State, h: Hash256)
    requires Inv(s)
    ensures Inv(Unlisted(s, h)) && Unlisted(s, h).toDownload == s.toDownload - {h}
            && Unlisted(s, h).peers.Keys == s.peers.Keys
  {
    PeersExist(s, h);
    if h in s.toDownload {
      assert Queues(s.peers)[s.toDownload[h].0] == s.peers[s.toDownload[h].0].toDownload;
      hide Agree, Erased, Queues, Flights, Unlisted;
      EraseAgrees(Queues(s.peers), s.toDownload, s.nextToken, h);
      UnlistedParts(s, h);
    }
  }

  lemma UnflownKeeps(s: State, h: Hash256)
    requires Inv(s)
    ensures Inv(Unflown(s, h)) && Unflown(s, h).inFlight == s.inFlight - {h} && Unflown(s, h).peers.Keys == s.peers.Keys
  {
    PeersExist(s, h);
    if h in s.inFlight {
      assert Flights(s.peers)[s.inFlight[h].0] == s.peers[s.inFlight[h].0].inFlight;
      hide Agree, Erased, Queues, Flights, Unflown;
      EraseAgrees(Flights(s.peers), s.inFlight, s.nextToken, h);
      UnflownParts(s, h);
    }
  }

  lemma EnqueuedKeeps(s: State, n: NodeId, h: Hash256)
    requires Inv(s) && n in s.peers && h !in s.toDownload && h !in s.inFlight
    ensures Inv(Enqueued(s, n, h))
  {
    hide Agree, Queues, Flights;
    var p := s.peers[n];
    OnePeer(s.peers, n, p.(toDownload := p.toDownload + [Entry(s.nextToken, h)], nToDownload := p.nToDownload + 1));
    AppendAgrees(Queues(s.peers), s.toDownload, s.nextToken, n, h);
    MoreTokens(Flights(s.peers), s.inFlight, s.nextToken);
  }

  lemma LaunchedKeeps(s: State, n: NodeId, h: Hash256)
    requires Inv(s) && n in s.peers && h !in s.toDownload && h !in s.inFlight
    ensures Inv(Launched(s, n, h))
  {
    hide Agree, Queues, Flights;
    var p := s.peers[n];
    OnePeer(s.peers, n, p.(inFlight := p.inFlight + [Entry(s.nextToken, h)], nInFlight := p.nInFlight + 1));
    AppendAgrees(Flights(s.peers), s.inFlight, s.nextToken, n, h);
    MoreTokens(Queues(s.peers), s.toDownload, s.nextToken);
  }

  lemma JoinedKeeps(s: State, n: NodeId)
    requires Inv(s)
    ensures Inv(Joined(s, n))
  {
    if n !in s.peers {
      NewPeerAgrees(Queues(s.peers), s.toDownload, s.nextToken, n);
      NewPeerAgrees(Flights(s.peers), s.inFlight, s.nextToken, n);
      hide Agree;
      var u := Joined(s, n);
      assert Queues(u.peers) == Queues(s.peers)[n := []] && Flights(u.peers) == Flights(s.peers)[n := []];
    }
  }

  lemma LeftKeeps(s: State, n: NodeId)
    requires Inv(s) && n in s.peers
    ensures Inv(Left(s, n))
  {
    RemovePeerAgrees(Queues(s.peers), s.toDownload, s.nextToken, n);
    RemovePeerAgrees(Flights(s.peers), s.inFlight, s.nextToken, n);
    hide Agree;
    var u := Left(s, n);
    assert Queues(u.peers) == Queues(s.peers) - {n} && Flights(u.peers) == Flights(s.peers) - {n};
  }

  // A hash is wanted from at most one peer, once, and never while it is requested from one.
  lemma WantedOnce(s: State, n: NodeId, i: nat, m: NodeId, j: nat)
    requires Inv(s) && n in s.peers && m in s.peers
    ensures i < |s.peers[n].toDownload| && j < |s.peers[m].toDownload|
            && s.peers[n].toDownload[i].hash == s.peers[m].toDownload[j].hash ==>
              n == m && i == j
    ensures i < |s.peers[n].inFlight| && j < |s.peers[m].inFlight|
            && s.peers[n].inFlight[i].hash == s.peers[m].inFlight[j].hash ==>
              n == m && i == j
    ensures i < |s.peers[n].toDownload| && j < |s.peers[m].inFlight|
            ==> s.peers[n].toDownload[i].hash != s.peers[m].inFlight[j].hash
  {
    var q: Lists, f: Lists := Queues(s.peers), Flights(s.peers);
    if i < |q[n]| && j < |q[m]| && q[n][i].hash == q[m][j].hash {
      ListedOnce(q, s.toDownload, s.nextToken, n, i, m, j);
    }
    if i < |f[n]| && j < |f[m]| && f[n][i].hash == f[m][j].hash {
      ListedOnce(f, s.inFlight, s.nextToken, n, i, m, j);
    }
    if i < |q[n]| && j < |f[m]| {
      assert EntryFound(q, s.toDownload, n, i) && EntryFound(f, s.inFlight, m, j);
    }
  }

  // Counts never grow when a hash is forgotten.
  lemma ReceivedCounts(s: State, h: Hash256, n: NodeId)
    requires Inv(s) && n in s.peers
    ensures Inv(Received(s, h)) && h !in Received(s, h).toDownload && h !in Received(s, h).inFlight
    ensures n in Received(s, h).peers && Received(s, h).peers[n].nInFlight <= s.peers[n].nInFlight
    ensures Received(s, h).toDownload == s.toDownload - {h} && Received(s, h).inFlight == s.inFlight - {h}
  {
    UnlistedKeeps(s, h);
    UnflownKeeps(Unlisted(s, h), h);
    hide Inv, Erased;
  }

  // Only a new request can pass the limit, and not for a peer that is below it.
  lemma LimitKept(s: State, n: NodeId, h: Hash256)
    requires WithinLimit(s)
    ensures WithinLimit(Received(s, h)) && WithinLimit(Joined(s, n))
    ensures n in s.peers ==> WithinLimit(Enqueued(s, n, h)) && WithinLimit(Left(s, n))
    ensures n in s.peers && n in Received(s, h).peers && |s.peers[n].inFlight| < MAX_BLOCKS_IN_TRANSIT_PER_PEER ==>
              WithinLimit(Launched(Received(s, h), n, h))
  {
  }

  // A peer's next block, requested from it: the hash moves from one list's front to the other's end.
  lemma NextRequest(s: State, n: NodeId)
    requires Inv(s) && n in s.peers && s.peers[n].toDownload != []
    ensures var h, p := s.peers[n].toDownload[0].hash, s.peers[n];
            && n in Received(s, h).peers && h !in s.inFlight
            && var u := Launched(Received(s, h), n, h);
               && u.peers == s.peers[n := u.peers[n]] && u.peers[n].toDownload == p.toDownload[1..]
               && HashesOf(u.peers[n].inFlight) == HashesOf(p.inFlight) + [h]
               && |u.peers[n].inFlight| == |p.inFlight| + 1
  {
    assert EntryFound(Queues(s.peers), s.toDownload, n, 0);
    hide Agree;
    var p := s.peers[n];
    var h := p.toDownload[0].hash;
    assert Erased(p.toDownload, p.toDownload[0].token) == p.toDownload[1..];
    hide Erased;
    var r := Received(s, h);
    assert r == Unlisted(s, h) && r.peers == s.peers[n := r.peers[n]];
    assert r.peers[n].inFlight == p.inFlight;
    var u := Launched(r, n, h);
    assert u.peers[n].inFlight == p.inFlight + [Entry(s.nextToken, h)];
  }

  // ---------------------------------------------------------------- the operations

  // ---------------------------------------------------------------- what the operations do

  // The hash goes to the end of that peer's list, and nothing else changes.
  lemma EnqueuedExactly(s: State, n: NodeId, h: Hash256)
    requires n in s.peers
    ensures var u := Enqueued(s, n, h);
            && u.peers == s.peers[n := u.peers[n]] && u.inFlight == s.inFlight
            && HashesOf(u.peers[n].toDownload) == HashesOf(s.peers[n].toDownload) + [h]
            && u.peers[n].nToDownload == s.peers[n].nToDownload + 1
            && u.peers[n].inFlight == s.peers[n].inFlight && u.peers[n].nInFlight == s.peers[n].nInFlight
            && u.toDownload.Keys == s.toDownload.Keys + {h} && u.toDownload[h].0 == n
            && forall x :: x in s.toDownload && x != h ==> u.toDownload[x] == s.toDownload[x]
  {
  }

  // The same for requests.
  lemma LaunchedExactly(s: State, n: NodeId, h: Hash256)
    requires n in s.peers
    ensures var u := Launched(s, n, h);
            && u.peers == s.peers[n := u.peers[n]] && u.toDownload == s.toDownload
            && HashesOf(u.peers[n].inFlight) == HashesOf(s.peers[n].inFlight) + [h]
            && u.peers[n].nInFlight == s.peers[n].nInFlight + 1
            && u.peers[n].toDownload == s.peers[n].toDownload && u.peers[n].nToDownload == s.peers[n].nToDownload
            && u.inFlight.Keys == s.inFlight.Keys + {h} && u.inFlight[h].0 == n
            && forall x :: x in s.inFlight && x != h ==> u.inFlight[x] == s.inFlight[x]
  {
  }

  // Erasing takes one element out and leaves the others in order.
  lemma {:induction false} ErasedExactly(list: seq<Entry>, e: Entry) returns (i: nat)
    requires e in list && forall j, k :: 0 <= j < k < |list| ==> list[j].token != list[k].token
    ensures i < |list| && list[i] == e && Erased(list, e.token) == list[..i] + list[i + 1..]
  {
    if list[0].token == e.token {
      i := 0;
    } else {
      assert forall j, k :: 0 <= j < k < |list[1..]| ==> list[1..][j].token != list[1..][k].token;
      var k := ErasedExactly(list[1..], e);
      i := k + 1;
      assert list[..i] + list[i + 1..] == [list[0]] + (list[1..][..k] + list[1..][k + 1..]);
    }
  }

  // A hash that is wanted leaves the list it is on, of which the rest stays in order; every other peer
  // keeps its lists.
  lemma UnlistedExactly(s: State, h: Hash256) returns (i: nat)
    requires Inv(s) && h in s.toDownload
    ensures var n, u := s.toDownload[h].0, Unlisted(s, h);
            && n in s.peers && u.peers == s.peers[n := u.peers[n]]
            && u.toDownload == s.toDownload - {h} && u.inFlight == s.inFlight
            && i < |s.peers[n].toDownload| && s.peers[n].toDownload[i].hash == h
            && u.peers[n].toDownload == s.peers[n].toDownload[..i] + s.peers[n].toDownload[i + 1..]
            && u.peers[n].nToDownload == s.peers[n].nToDownload - 1
            && u.peers[n].inFlight == s.peers[n].inFlight && u.peers[n].nInFlight == s.peers[n].nInFlight
  {
    PeersExist(s, h);
    var n, token := s.toDownload[h].0, s.toDownload[h].1;
    assert HashFound(Queues(s.peers), s.toDownload, h) && Apart(Queues(s.peers)[n], s.nextToken);
    i := ErasedExactly(s.peers[n].toDownload, Entry(token, h));
  }

  lemma UnflownExactly(s: State, h: Hash256) returns (i: nat)
    requires Inv(s) && h in s.inFlight
    ensures var n, u := s.inFlight[h].0, Unflown(s, h);
            && n in s.peers && u.peers == s.peers[n := u.peers[n]]
            && u.inFlight == s.inFlight - {h} && u.toDownload == s.toDownload
            && i < |s.peers[n].inFlight| && s.peers[n].inFlight[i].hash == h
            && u.peers[n].inFlight == s.peers[n].inFlight[..i] + s.peers[n].inFlight[i + 1..]
            && u.peers[n].nInFlight == s.peers[n].nInFlight - 1
            && u.peers[n].toDownload == s.peers[n].toDownload && u.peers[n].nToDownload == s.peers[n].nToDownload
  {
    PeersExist(s, h);
    var n, token := s.inFlight[h].0, s.inFlight[h].1;
    assert HashFound(Flights(s.peers), s.inFlight, h) && Apart(Flights(s.peers)[n], s.nextToken);
    i := ErasedExactly(s.peers[n].inFlight, Entry(token, h));
  }

  // A hash that is on no list is left alone.
  lemma NotListed(s: State, h: Hash256)
    ensures h !in s.toDownload ==> Unlisted(s, h) == s
    ensures h !in s.inFlight ==> Unflown(s, h) == s
    ensures Received(s, h) == Unflown(Unlisted(s, h), h)
  {
  }

  // A peer that leaves takes exactly its own hashes along.
  lemma LeftExactly(s: State, n: NodeId)
    requires Inv(s) && n in s.peers
    ensures var u := Left(s, n);
            && u.peers == s.peers - {n}
            && (forall h :: h in u.toDownload <==> h in s.toDownload && s.toDownload[h].0 != n)
            && (forall h :: h in u.inFlight <==> h in s.inFlight && s.inFlight[h].0 != n)
            && (forall h :: h in u.toDownload ==> u.toDownload[h] == s.toDownload[h])
            && (forall h :: h in u.inFlight ==> u.inFlight[h] == s.inFlight[h])
  {
    OwnHashes(Queues(s.peers), s.toDownload, s.nextToken, n);
    OwnHashes(Flights(s.peers), s.inFlight, s.nextToken, n);
  }

  lemma OwnHashes(lists: Lists, index: Where, bound: nat, n: NodeId)
    requires Agree(lists, index, bound) && n in lists
    ensures forall h :: h in index ==> (h in HashSet(lists[n]) <==> index[h].0 == n)
  {
    forall h | h in index ensures h in HashSet(lists[n]) <==> index[h].0 == n {
      assert HashFound(lists, index, h);
      if h in HashSet(lists[n]) {
        var e :| e in lists[n] && e.hash == h;
        var k :| 0 <= k < |lists[n]| && lists[n][k] == e;
        assert EntryFound(lists, index, n, k);
      }
    }
  }

  // A new peer starts with empty lists; one that is known keeps its own.
  lemma JoinedExactly(s: State, n: NodeId)
    ensures n in s.peers ==> Joined(s, n) == s
    ensures n !in s.peers ==> Joined(s, n) == s.(peers := s.peers[n := Peer([], 0, [], 0)])
  {
  }

  class Downloads {
    var peers: map<NodeId, Peer>         // mapNodeState
    var toDownload: Where                // mapBlocksToDownload
    var inFlight: Where                  // mapBlocksInFlight
    var nextToken: nat

    constructor ()
      ensures Inv(Now()) && peers == map[]
    {
      peers, toDownload, inFlight, nextToken := map[], map[], map[], 0;
    }

    ghost function Now(): State
      reads this
    {
      State(peers, toDownload, inFlight, nextToken)
    }

    method InitializeNode(n: NodeId)
      requires Inv(Now())
      modifies this
      ensures Inv(Now()) && Now() == Joined(old(Now()), n)
    {
      JoinedKeeps(Now(), n);
      hide Inv;
      if n !in peers {
        peers := peers[n := Peer([], 0, [], 0)];
      }
    }

    // Forgets a peer and everything it was asked for.
    method FinalizeNode(n: NodeId)
      requires Inv(Now()) && n in peers
      modifies this
      ensures Inv(Now()) && Now() == Left(old(Now()), n)
    {
      LeftKeeps(Now(), n);
      hide Inv, HashSet;
      inFlight := EraseAll(inFlight, peers[n].inFlight);
      toDownload := EraseAll(toDownload, peers[n].toDownload);
      peers := peers - {n};
    }

    static method EraseAll(index: Where, list: seq<Entry>) returns (r: Where)
      ensures r == index - HashSet(list)
    {
      r := index;
      for i := 0 to |list|
        invariant r == index - HashSet(list[..i])
      {
        HashSetSnoc(list, i);
        r := r - {list[i].hash};
      }
      assert list[..|list|] == list;
    }

    static lemma HashSetSnoc(list: seq<Entry>, i: nat)
      requires i < |list|
      ensures HashSet(list[..i + 1]) == HashSet(list[..i]) + {list[i].hash}
    {
      assert list[..i + 1] == list[..i] + [list[i]];
      forall h ensures h in HashSet(list[..i + 1]) <==> h in HashSet(list[..i]) || h == list[i].hash {
        if h in HashSet(list[..i]) {
          var e :| e in list[..i] && e.hash == h;
          assert e in list[..i + 1];
        }
        assert list[i] in list[..i + 1];
      }
    }

    // A block arrived, or is about to be requested: it is wanted from nobody any more.
    method MarkBlockAsReceived(hash: Hash256)
      requires Inv(Now())
      modifies this
      ensures Inv(Now()) && Now() == Received(old(Now()), hash)
      ensures toDownload == old(toDownload) - {hash} && inFlight == old(inFlight) - {hash}
    {
      hide Inv, Unlisted, Unflown;
      ghost var before := Now();
      UnlistedKeeps(before, hash);
      UnflownKeeps(Unlisted(before, hash), hash);
      Unlist(hash);
      Unfly(hash);
      SameOther(before, hash);
    }

    static lemma SameOther(s: State, h: Hash256)
      ensures Unlisted(s, h).inFlight == s.inFlight && Unflown(s, h).toDownload == s.toDownload
      ensures Received(s, h).toDownload == Unlisted(s, h).toDownload
    {
    }

    method Unlist(hash: Hash256)
      requires Inv(Now())
      modifies this
      ensures Now() == Unlisted(old(Now()), hash)
    {
      PeersExist(Now(), hash);
      hide Inv, Erased;
      if hash in toDownload {
        var n, token := toDownload[hash].0, toDownload[hash].1;
        var p := peers[n];
        peers := peers[n := p.(toDownload := Erased(p.toDownload, token), nToDownload := p.nToDownload - 1)];
        toDownload := toDownload - {hash};
      }
    }

    method Unfly(hash: Hash256)
      requires Inv(Now())
      modifies this
      ensures Now() == Unflown(old(Now()), hash)
    {
      PeersExist(Now(), hash);
      hide Inv, Erased;
      if hash in inFlight {
        var n, token := inFlight[hash].0, inFlight[hash].1;
        var p := peers[n];
        peers := peers[n := p.(inFlight := Erased(p.inFlight, token), nInFlight := p.nInFlight - 1)];
        inFlight := inFlight - {hash};
      }
    }

    // Puts a block at the end of a peer's list, unless it is listed already or the peer is gone.
    method AddBlockToQueue(n: NodeId, hash: Hash256) returns (added: bool)
      requires Inv(Now())
      modifies this
      ensures Inv(Now())
      ensures added <==> hash !in old(toDownload) && hash !in old(inFlight) && n in old(peers)
      ensures Now() == if added then Enqueued(old(Now()), n, hash) else old(Now())
    {
      hide Inv;
      if hash in toDownload || hash in inFlight {
        return false;
      }
      if n !in peers {
        return false;
      }
      EnqueuedKeeps(Now(), n, hash);
      var p := peers[n];
      peers := peers[n := p.(toDownload := p.toDownload + [Entry(nextToken, hash)], nToDownload := p.nToDownload + 1)];
      toDownload := toDownload[hash := (n, nextToken)];
      nextToken := nextToken + 1;
      added := true;
    }

    method MarkBlockAsInFlight(n: NodeId, hash: Hash256)
      requires Inv(Now()) && n in peers
      modifies this
      ensures Inv(Now()) && n in Received(old(Now()), hash).peers
              && Now() == Launched(Received(old(Now()), hash), n, hash)
    {
      hide Inv, Received;
      ReceivedCounts(Now(), hash, n);
      LaunchedKeeps(Received(Now(), hash), n, hash);
      MarkBlockAsReceived(hash);
      var p := peers[n];
      peers := peers[n := p.(inFlight := p.inFlight + [Entry(nextToken, hash)], nInFlight := p.nInFlight + 1)];
      inFlight := inFlight[hash := (n, nextToken)];
      nextToken := nextToken + 1;
    }

    // Requests blocks from the front of a peer's list while fewer than the limit are in flight.
    method RequestBlocks(n: NodeId) returns (requested: seq<Hash256>)
      requires Inv(Now()) && n in peers
      modifies this
      ensures Inv(Now()) && n in peers && peers == old(peers)[n := peers[n]]
      ensures old(WithinLimit(Now())) ==> WithinLimit(Now())
      ensures |requested| == Min(|old(peers[n]).toDownload|,
                                 Max(0, 128 - |old(peers[n]).inFlight|))
      ensures requested + HashesOf(peers[n].toDownload) == HashesOf(old(peers[n]).toDownload)
      ensures HashesOf(peers[n].inFlight) == HashesOf(old(peers[n]).inFlight) + requested
    {
      hide Inv, Received, Launched, HashesOf;
      requested := [];
      ghost var first := peers[n];
      PeerCounted(Now(), n);
      while peers[n].nToDownload != 0 && peers[n].nInFlight < MAX_BLOCKS_IN_TRANSIT_PER_PEER
        invariant Inv(Now()) && n in peers && peers == old(peers)[n := peers[n]] && Counted(peers[n])
        invariant requested + HashesOf(peers[n].toDownload) == HashesOf(first.toDownload)
        invariant HashesOf(peers[n].inFlight) == HashesOf(first.inFlight) + requested
        invariant requested == [] || |peers[n].inFlight| <= MAX_BLOCKS_IN_TRANSIT_PER_PEER
        decreases peers[n].nToDownload
      {
        var hash := peers[n].toDownload[0].hash;
        ghost var before := peers[n].toDownload;
        NextRequest(Now(), n);
        MarkBlockAsInFlight(n, hash);
        PeerCounted(Now(), n);
        FrontRequested(requested, before, HashesOf(first.toDownload));
        requested := requested + [hash];
      }
    }

    static lemma FrontRequested(requested: seq<Hash256>, queue: seq<Entry>, all: seq<Hash256>)
      requires queue != [] && requested + HashesOf(queue) == all
      ensures requested + [queue[0].hash] + HashesOf(queue[1..]) == all
    {
      FirstHash(queue);
      hide HashesOf;
      Regroup(requested, [queue[0].hash], HashesOf(queue[1..]));
    }

    static lemma FirstHash(queue: seq<Entry>)
      requires queue != []
      ensures HashesOf(queue) == [queue[0].hash] + HashesOf(queue[1..])
    {
    }

    static lemma PeerCounted(s: State, n: NodeId)
      requires Inv(s) && n in s.peers
      ensures Counted(s.peers[n])
    {
    }
  }
}
