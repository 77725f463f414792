/** The search service on real texts: peers set up from the bootstrap's ring make a faithful World, so what
    RingProtocol proves of every run holds of the datagrams the programs exchange. */
module RingService {
  import opened Wrappers
  import opened OatHash
  import opened Text
  import opened HashRing
  import opened RingSearch
  import opened RingProtocol

  /** The peers with the index their maps were cut from and the position each file belongs to, and what a peer
      does with a text: `search` at its user's request, `receive` with what the network delivers; `cut` is what
      arrives of a request. */
  datatype Setting = Setting(
    address: string -> Address,
    search: (string, Peer) -> Datagram,
    receive: (string, Peer) -> Action,
    cut: (string, string) -> string,
    peers: seq<Peer>,
    index: map<string, string>,
    home: string -> nat)

  /** A search is answered to the asker, or passed on to the successor unchanged. */
  ghost predicate Searched(g: Setting, f: string, asker: string, node: Peer) {
    Word(f) && Word(asker) ==>
      g.search(Request(f, asker), node)
        == if f in node.myFileInfo then Datagram(g.address(asker), Reply(f, node.myFileInfo[f]))
           else Datagram(g.address(node.scr), Request(f, asker))
  }

  /** What a peer makes of a request that it received. */
  function HeardBy(g: Setting, f: string, asker: string, node: Peer): Datagram {
    var heard := HeardFile(f);
    if heard in node.myFileInfo then Datagram(g.address(HeardAsker(f, asker)), Reply(heard, node.myFileInfo[heard]))
    else Datagram(g.address(node.scr), g.cut(f, asker))
  }

  /** A request received, whole or cut, is searched for as it is heard; a reply received is shown. */
  ghost predicate Dispatched(g: Setting, f: string, asker: string, node: Peer) {
    && (Word(f) && Word(asker) && !Contains(f, "owner_of") && !Contains(asker, "owner_of") ==>
          && g.receive(Request(f, asker), node) == Send(HeardBy(g, f, asker, node))
          && g.receive(g.cut(f, asker), node) == Send(HeardBy(g, f, asker, node))
          && !Contains(g.cut(f, asker), "owner_of"))
    && g.receive(Reply(f, asker), node) == Show(Received(Reply(f, asker)))
  }

  ghost predicate Behaves(g: Setting) {
    && (forall f, asker, node {:trigger Searched(g, f, asker, node)} :: Searched(g, f, asker, node))
    && (forall f, asker, node {:trigger Dispatched(g, f, asker, node)} :: Dispatched(g, f, asker, node))
  }

  /** What the set-up provides: a ring of distinct addresses whose maps are the slices of one index. */
  ghost predicate SetUp(g: Setting) {
    && g.peers != []
    && (forall i, f {:trigger HoldsSlice(g, i, f)} :: 0 <= i < |g.peers| ==> HoldsSlice(g, i, f))
    && (forall f :: f in g.index ==> g.home(f) < |g.peers|)
    && LinkedPeers(g.peers)
    && FitNames(Names(g.peers))
    && OwnAddresses(g.address, Names(g.peers))
  }

  function Names(peers: seq<Peer>): seq<string> {
    seq(|peers|, i requires 0 <= i < |peers| => peers[i].ipPort)
  }

  predicate LinkedPeers(peers: seq<Peer>) {
    forall i {:trigger peers[i].scr} :: 0 <= i < |peers| ==> peers[i].scr == peers[Next(|peers|, i)].ipPort
  }

  /** Names a request can carry. */
  ghost predicate FitNames(names: seq<string>) {
    forall i :: 0 <= i < |names| ==> Word(names[i]) && !Contains(names[i], "owner_of")
  }

  ghost predicate OwnAddresses(address: string -> Address, names: seq<string>) {
    forall i, j | 0 <= i < |names| && 0 <= j < |names| :: address(names[i]) == address(names[j]) ==> i == j
  }

  /** Peer i knows f exactly when f belongs to it, with the index's value. */
  predicate HoldsSlice(g: Setting, i: nat, f: string)
    requires i < |g.peers|
  {
    var info := g.peers[i].myFileInfo;
    (f in info <==> f in g.index && g.home(f) == i) && (f in info ==> info[f] == g.index[f])
  }

  /** A search a user can type: one word, and no "owner_of" inside it. */
  ghost predicate Askable(g: Setting, i: nat, f: string) {
    i < |g.peers| && Word(f) && !Contains(f, "owner_of")
  }

  /** The asker itself holds the file. */
  predicate Held(g: Setting, i: nat, f: string) {
    f in g.index && g.home(f) == i
  }

  /** How often the search is forwarded: to the home of the file that the others hear, once round if that is the
      asker. */
  function HopsOf(g: Setting, i: nat, f: string): Option<nat> {
    var n, heard := |g.peers|, HeardFile(f);
    if i >= n then None
    else if Held(g, i, f) then Some(0)
    else if heard in g.index && g.home(heard) < n then Some(StepsTo(n, i, g.home(heard)))
    else None
  }

  /** Steps from i to p, at least one. */
  function StepsTo(n: nat, i: nat, p: nat): nat
    requires i < n && p < n
  {
    if i == p then n else Distance(n, i, p)
  }

  lemma PlaceHits(n: nat, i: nat, k: nat, p: nat)
    requires i < n && p < n && 1 <= k <= n
    ensures Place(n, i, k) == p <==> k == StepsTo(n, i, p)
  {
    PlaceIsAround(n, i, k);
  }

  /** The datagram that answers a search: to the asker if it holds the file itself, else to the name that was heard,
      about the file that was heard. */
  function AnswerOf(g: Setting, i: nat, f: string): Datagram {
    var names, heard := Names(g.peers), HeardFile(f);
    if i >= |names| then NOWHERE
    else if Held(g, i, f) then Datagram(g.address(names[i]), Reply(f, g.index[f]))
    else if heard in g.index then Datagram(g.address(HeardAsker(f, names[i])), Reply(heard, g.index[heard]))
    else NOWHERE
  }

  /** Where the k-th request of a search is sent. */
  function StopOf(g: Setting, i: nat, k: nat): Address
    requires i < |g.peers|
  {
    var names := Names(g.peers);
    g.address(names[Place(|names|, i, k)])
  }

  /** What it says. */
  function Carried(g: Setting, f: string, asker: string, k: nat): string {
    if k <= 1 then Request(f, asker) else g.cut(f, asker)
  }

  /** The datagram a message is sent as. Only the asker sends the request whole; everybody else sends what arrived. */
  function AsText(g: Setting, m: Message): Datagram {
    var names := Names(g.peers);
    match m
    case Forwarded(i, f, k) =>
      if i < |names| then Datagram(StopOf(g, i, k), Carried(g, f, names[i], k)) else NOWHERE
    case Answered(i, f) => AnswerOf(g, i, f)
  }

  const NOWHERE := Datagram(Address("", 0), "")

  ghost function Service(g: Setting): World {
    var names := Names(g.peers);
    World(
      |names|,
      (i: nat, f) => Askable(g, i, f),
      (i: nat, f) => HopsOf(g, i, f),
      (i: nat, f) => if i < |names| then g.search(Request(f, names[i]), g.peers[i]) else NOWHERE,
      m => AsText(g, m),
      (d: Datagram, p: nat) => p < |names| && g.address(names[p]) == d.to,
      (d: Datagram, p: nat) => if p < |names| then g.receive(d.text, g.peers[p]) else Ignore,
      (i: nat, f) => Received(AnswerOf(g, i, f).text))
  }

  /** The asker's own handling of its search. */
  lemma BeginsFaithfully(g: Setting, i: nat, f: string)
    requires SetUp(g) && Behaves(g)
    ensures Begins(Service(g), i, f)
  {
    if i < |g.peers| && Askable(g, i, f) {
      var names := Names(g.peers);
      assert Word(names[i]);
      assert Searched(g, f, names[i], g.peers[i]);
      assert HoldsSlice(g, i, f);
      assert Place(|names|, i, 1) == Next(|names|, Place(|names|, i, 0));
      assert g.peers[i].scr == g.peers[Next(|g.peers|, i)].ipPort;
    }
  }

  /** The handling of a search that has come k steps from its asker: it is answered if and only if this is the last
      hop, and else sent on to the next peer as it arrived. */
  lemma HandleSearch(g: Setting, i: nat, f: string, k: nat)
    requires SetUp(g) && Askable(g, i, f) && k >= 1
    requires HopsOf(g, i, f).Some? ==> k <= HopsOf(g, i, f).value
    ensures var p, names := Place(|g.peers|, i, k), Names(g.peers);
            HeardBy(g, f, names[i], g.peers[p])
              == if HopsOf(g, i, f) == Some(k) then AnswerOf(g, i, f)
                 else AsText(g, Forwarded(i, f, k + 1))
  {
    HeldAtLastHop(g, i, f, k);
    if HopsOf(g, i, f) == Some(k) {
      AnsweredHere(g, i, f, g.peers[Place(|g.peers|, i, k)]);
    } else {
      SentOn(g, i, f, k);
    }
  }

  lemma AnsweredHere(g: Setting, i: nat, f: string, node: Peer)
    requires i < |g.peers| && !Held(g, i, f) && HeardFile(f) in g.index && HeardFile(f) in node.myFileInfo
    requires node.myFileInfo[HeardFile(f)] == g.index[HeardFile(f)]
    ensures HeardBy(g, f, Names(g.peers)[i], node) == AnswerOf(g, i, f)
  {
  }

  lemma SentOn(g: Setting, i: nat, f: string, k: nat)
    requires SetUp(g) && i < |g.peers| && k >= 1
    requires HeardFile(f) !in g.peers[Place(|g.peers|, i, k)].myFileInfo
    ensures HeardBy(g, f, Names(g.peers)[i], g.peers[Place(|g.peers|, i, k)])
         == AsText(g, Forwarded(i, f, k + 1))
  {
    NextStop(g, i, k);
  }

  lemma NextStop(g: Setting, i: nat, k: nat)
    requires SetUp(g) && i < |g.peers|
    ensures StopOf(g, i, k + 1) == g.address(g.peers[Place(|g.peers|, i, k)].scr)
  {
    PlaceNext(|g.peers|, i, k);
    SuccessorName(g, Place(|g.peers|, i, k));
  }

  lemma PlaceNext(n: nat, i: nat, k: nat)
    requires i < n
    ensures Place(n, i, k + 1) == Next(n, Place(n, i, k))
  {
  }

  lemma SuccessorName(g: Setting, p: nat)
    requires SetUp(g) && p < |g.peers|
    ensures g.peers[p].scr == Names(g.peers)[Next(|g.peers|, p)]
  {
    assert g.peers[p].scr == g.peers[Next(|g.peers|, p)].ipPort;
  }

  lemma HeldAtLastHop(g: Setting, i: nat, f: string, k: nat)
    requires SetUp(g) && i < |g.peers| && k >= 1
    requires HopsOf(g, i, f).Some? ==> k <= HopsOf(g, i, f).value
    ensures var info, heard := g.peers[Place(|g.peers|, i, k)].myFileInfo, HeardFile(f);
            && !Held(g, i, f)
            && (heard in info <==> HopsOf(g, i, f) == Some(k))
            && (heard in info ==> heard in g.index && info[heard] == g.index[heard])
  {
    var n, p, heard := |g.peers|, Place(|g.peers|, i, k), HeardFile(f);
    assert HoldsSlice(g, p, heard);
    if heard in g.index {
      PlaceHits(n, i, k, g.home(heard));
    }
  }

  lemma RequestReceived(g: Setting, i: nat, f: string, k: nat, p: nat)
    requires SetUp(g) && Behaves(g) && Askable(g, i, f) && p < |g.peers|
    ensures g.receive(AsText(g, Forwarded(i, f, k)).text, g.peers[p])
         == Send(HeardBy(g, f, Names(g.peers)[i], g.peers[p]))
  {
    var name := Names(g.peers)[i];
    assert Word(name) && !Contains(name, "owner_of");
    assert Dispatched(g, f, name, g.peers[p]);
  }

  lemma ForwardedHandled(g: Setting, i: nat, f: string, k: nat)
    requires SetUp(g) && Behaves(g) && Meaningful(Service(g), Forwarded(i, f, k))
    ensures var w, m := Service(g), Forwarded(i, f, k);
            w.react(w.text(m), Place(w.n, i, k)) == Send(w.text(Follow(w, m)))
  {
    ReactReceives(g, AsText(g, Forwarded(i, f, k)), Place(|g.peers|, i, k));
    RequestReceived(g, i, f, k, Place(|g.peers|, i, k));
    HandleSearch(g, i, f, k);
    FollowText(g, i, f, k);
  }

  lemma ReactReceives(g: Setting, d: Datagram, p: nat)
    requires p < |g.peers|
    ensures Service(g).react(d, p) == g.receive(d.text, g.peers[p])
  {
  }

  lemma FollowText(g: Setting, i: nat, f: string, k: nat)
    ensures Service(g).text(Follow(Service(g), Forwarded(i, f, k)))
         == if HopsOf(g, i, f) == Some(k) then AnswerOf(g, i, f) else AsText(g, Forwarded(i, f, k + 1))
  {
  }

  lemma AnsweredHandled(g: Setting, i: nat, f: string, p: nat)
    requires SetUp(g) && Behaves(g) && Meaningful(Service(g), Answered(i, f)) && p < |g.peers|
    ensures Service(g).react(AnswerOf(g, i, f), p) == Show(Received(AnswerOf(g, i, f).text))
  {
    if Held(g, i, f) {
      assert Dispatched(g, f, g.index[f], g.peers[p]);
    } else {
      assert Dispatched(g, HeardFile(f), g.index[HeardFile(f)], g.peers[p]);
    }
  }

  /** Addresses are a peer's own, so a request arrives at the peer it is sent to and nowhere else. */
  lemma ArrivesThere(g: Setting, i: nat, f: string, k: nat, p: nat)
    requires SetUp(g) && i < |g.peers| && p < |g.peers|
    ensures Service(g).arrives(AsText(g, Forwarded(i, f, k)), p) <==> p == Place(|g.peers|, i, k)
  {
  }

  lemma HandledFaithfully(g: Setting, m: Message, p: nat)
    requires SetUp(g) && Behaves(g)
    ensures Handled(Service(g), m, p)
  {
    if Meaningful(Service(g), m) && p < |g.peers| {
      if m.Forwarded? {
        ArrivesThere(g, m.i, m.f, m.k, p);
        ForwardedHandled(g, m.i, m.f, m.k);
      } else {
        AnsweredHandled(g, m.i, m.f, p);
      }
    }
  }

  lemma LegibleTexts(g: Setting, m: Message)
    requires SetUp(g) && Behaves(g)
    ensures Legible(Service(g), m)
  {
    if Meaningful(Service(g), m) {
      if m.Forwarded? {
        RequestIsIllegible(g, m.i, m.f, m.k);
      } else if Held(g, m.i, m.f) {
        assert At(Reply(m.f, g.index[m.f]), "owner_of", 0);
      } else {
        assert At(Reply(HeardFile(m.f), g.index[HeardFile(m.f)]), "owner_of", 0);
      }
    }
  }

  lemma RequestIsIllegible(g: Setting, i: nat, f: string, k: nat)
    requires SetUp(g) && Behaves(g) && Askable(g, i, f)
    ensures !Contains(AsText(g, Forwarded(i, f, k)).text, "owner_of")
  {
    var name := Names(g.peers)[i];
    assert Word(name) && !Contains(name, "owner_of");
    RequestIsNoAnswer(f, name);
    assert Dispatched(g, f, name, g.peers[i]);
  }

  /** Texts that behave make a faithful World. */
  lemma ServiceIsFaithful(g: Setting)
    requires SetUp(g) && Behaves(g)
    ensures Faithful(Service(g))
  {
    forall i: nat, f ensures Begins(Service(g), i, f) {
      BeginsFaithfully(g, i, f);
    }
    forall m, p: nat ensures Handled(Service(g), m, p) {
      HandledFaithfully(g, m, p);
    }
    forall m ensures Legible(Service(g), m) {
      LegibleTexts(g, m);
    }
  }

  /** The peers of a ring the bootstrap built. */
  function PeersOf(ring: seq<Node>): seq<Peer> {
    seq(|ring|, i requires 0 <= i < |ring| => Peer(ring[i].ipPort, ring[i].scr, ring[i].myFileInfo))
  }

  ghost function RingSetting(address: string -> Address, hash: string -> word, nodes: seq<Node>): Setting {
    var linked := Linked(nodes);
    Setting(address,
            (req, node) => SearchFunc(address, req, node),
            (text, node) => Dispatch(address, Received(text), node),
            (f, asker) => Received(Request(f, asker)),
            PeersOf(Placed(hash, linked)), Index(Listings(linked)), (f: string) => Home(Ids(linked), hash(f)))
  }

  /** search_func and the dispatch loop behave. */
  lemma ProgramsBehave(address: string -> Address, hash: string -> word, nodes: seq<Node>)
    ensures Behaves(RingSetting(address, hash, nodes))
  {
    var g := RingSetting(address, hash, nodes);
    forall f, asker, node ensures Searched(g, f, asker, node) {
      if Word(f) && Word(asker) {
        SearchRequest(address, f, asker, node);
      }
    }
    forall f, asker, node ensures Dispatched(g, f, asker, node) {
      ReplyIsShown(address, f, asker, node);
      if Word(f) && Word(asker) && !Contains(f, "owner_of") && !Contains(asker, "owner_of") {
        RequestIsHeard(address, f, asker, node);
        ReceivedRequest(f, asker);
        ReceivedIsNoAnswer(f, asker);
      }
    }
  }

  /** Freshly registered nodes with names a request can carry and addresses of their own. */
  ghost predicate Registrants(address: string -> Address, nodes: seq<Node>) {
    && nodes != []
    && (forall i :: 0 <= i < |nodes| ==> nodes[i].myFileInfo == map[])
    && FitNames(NodeNames(nodes))
    && OwnAddresses(address, NodeNames(nodes))
  }

  function NodeNames(nodes: seq<Node>): seq<string> {
    seq(|nodes|, i requires 0 <= i < |nodes| => nodes[i].ipPort)
  }

  /** The bootstrap's linking and placing set the service up. */
  lemma BootstrapSetsUp(address: string -> Address, hash: string -> word, nodes: seq<Node>)
    requires Registrants(address, nodes)
    ensures SetUp(RingSetting(address, hash, nodes))
  {
    var g := RingSetting(address, hash, nodes);
    PeersLinked(hash, nodes);
    forall i, f | 0 <= i < |g.peers| ensures HoldsSlice(g, i, f) {
      PeerHoldsSlice(address, hash, nodes, i, f);
    }
  }

  lemma PeersLinked(hash: string -> word, nodes: seq<Node>)
    ensures var peers := PeersOf(Placed(hash, Linked(nodes)));
            |peers| == |nodes| && LinkedPeers(peers) && Names(peers) == NodeNames(nodes)
  {
    var linked := Linked(nodes);
    LinkedNames(nodes);
    PeersKeepLinks(hash, linked);
    assert NodeNames(linked) == NodeNames(nodes);
  }

  lemma PeersKeepLinks(hash: string -> word, ring: seq<Node>)
    requires Successive(ring)
    ensures var peers := PeersOf(Placed(hash, ring));
            |peers| == |ring| && LinkedPeers(peers) && Names(peers) == NodeNames(ring)
  {
    var peers := PeersOf(Placed(hash, ring));
    assert forall i :: 0 <= i < |ring| ==> peers[i].ipPort == ring[i].ipPort && peers[i].scr == ring[i].scr;
  }

  lemma PeerHoldsSlice(address: string -> Address, hash: string -> word, nodes: seq<Node>, i: nat, f: string)
    requires i < |nodes| && nodes[i].myFileInfo == map[]
    ensures HoldsSlice(RingSetting(address, hash, nodes), i, f)
  {
    HeldSlice(hash, Linked(nodes), i, f);
  }

  lemma SettingIsFaithful(address: string -> Address, hash: string -> word, nodes: seq<Node>)
    requires Registrants(address, nodes)
    ensures Faithful(Service(RingSetting(address, hash, nodes)))
    ensures Service(RingSetting(address, hash, nodes)).n == |nodes|
  {
    BootstrapSetsUp(address, hash, nodes);
    ProgramsBehave(address, hash, nodes);
    ServiceIsFaithful(RingSetting(address, hash, nodes));
    RingNames(address, hash, nodes);
  }

  lemma RingNames(address: string -> Address, hash: string -> word, nodes: seq<Node>)
    ensures var names := Names(RingSetting(address, hash, nodes).peers);
            |names| == |nodes| && forall i :: 0 <= i < |nodes| ==> names[i] == nodes[i].ipPort
  {
    PeersLinked(hash, nodes);
  }

  /** The index knows exactly the listed files, by the last node on the ring that listed them. */
  lemma IndexOfRing(address: string -> Address, hash: string -> word, nodes: seq<Node>, f: string)
    ensures var index := RingSetting(address, hash, nodes).index;
            && (f in index <==> Listed(nodes, f))
            && (forall k: nat :: LastToList(nodes, k, f) ==> f in index && index[f] == nodes[k].ipPort)
  {
    var linked := Linked(nodes);
    IndexIsLastLister(linked, f);
    assert forall j :: 0 <= j < |nodes| ==> linked[j].myFile == nodes[j].myFile && linked[j].ipPort == nodes[j].ipPort;
    assert forall k: nat :: LastToList(nodes, k, f) ==> LastToList(linked, k, f);
  }

  // ---------- what a search comes to ----------

  /** The position a file belongs to. */
  function HomeOf(hash: string -> word, nodes: seq<Node>, f: string): nat {
    Home(Ids(Linked(nodes)), hash(f))
  }

  predicate HasItself(hash: string -> word, nodes: seq<Node>, i: nat, f: string) {
    Listed(nodes, f) && HomeOf(hash, nodes, f) == i
  }

  /** The file a search is answered about. */
  function Meant(hash: string -> word, nodes: seq<Node>, i: nat, f: string): string {
    if HasItself(hash, nodes, i, f) then f else HeardFile(f)
  }

  /** The name its answer is sent to. */
  function Addressee(hash: string -> word, nodes: seq<Node>, i: nat, f: string): string
    requires i < |nodes|
  {
    if HasItself(hash, nodes, i, f) then nodes[i].ipPort else HeardAsker(f, nodes[i].ipPort)
  }

  /** The answer to a search of node i for f, naming node k. */
  predicate AnswersSearch(address: string -> Address, hash: string -> word, nodes: seq<Node>, i: nat, f: string,
                          k: nat, d: Datagram)
  {
    && i < |nodes|
    && LastToList(nodes, k, Meant(hash, nodes, i, f))
    && d == Datagram(address(Addressee(hash, nodes, i, f)), Reply(Meant(hash, nodes, i, f), nodes[k].ipPort))
  }

  lemma AnswerNames(address: string -> Address, hash: string -> word, nodes: seq<Node>, i: nat, f: string, k: nat)
    requires i < |nodes| && LastToList(nodes, k, Meant(hash, nodes, i, f))
    ensures AnswersSearch(address, hash, nodes, i, f, k, AnswerOf(RingSetting(address, hash, nodes), i, f))
  {
    IndexOfRing(address, hash, nodes, f);
    IndexOfRing(address, hash, nodes, HeardFile(f));
    RingNames(address, hash, nodes);
  }

  /** A search is answered if and only if somebody listed the file it is heard for. */
  lemma AnsweredExactly(address: string -> Address, hash: string -> word, nodes: seq<Node>, i: nat, f: string)
    requires i < |nodes|
    ensures HopsOf(RingSetting(address, hash, nodes), i, f).Some? <==> Listed(nodes, Meant(hash, nodes, i, f))
  {
    IndexOfRing(address, hash, nodes, f);
    IndexOfRing(address, hash, nodes, HeardFile(f));
    RingNames(address, hash, nodes);
  }

  /** In every run, whatever is searched for, every answer that was sent is about the file that was heard, names the
      last node on the ring that registered it, and goes to the name that was heard. */
  lemma SentOwnersRegistered(address: string -> Address, hash: string -> word, nodes: seq<Node>, steps: seq<Step>)
    requires Registrants(address, nodes)
    requires ValidRun(Service(RingSetting(address, hash, nodes)), START, steps)
    ensures var s := Run(Service(RingSetting(address, hash, nodes)), START, steps);
            forall d :: d in s.sent && Contains(d.text, "owner_of") ==>
              AnswersSome(address, hash, nodes, s.asked, d)
  {
    var g := RingSetting(address, hash, nodes);
    SettingIsFaithful(address, hash, nodes);
    var s := Run(Service(g), START, steps);
    AnswersAreRight(Service(g), steps);
    var log := RunKeeps(Service(g), START, {}, steps);
    forall d | d in s.sent && Contains(d.text, "owner_of") ensures AnswersSome(address, hash, nodes, s.asked, d) {
      assert Means(Service(g), log, d);
      var m :| m in log && Service(g).text(m) == d;
      assert Legible(Service(g), m);
      AnswerIsSome(address, hash, nodes, s.asked, m.i, m.f);
    }
  }

  ghost predicate AnswersSome(address: string -> Address, hash: string -> word, nodes: seq<Node>,
                              asked: set<(nat, string)>, d: Datagram)
  {
    exists i: nat, f, k: nat :: (i, f) in asked && AnswersSearch(address, hash, nodes, i, f, k, d)
  }

  lemma AnswerIsSome(address: string -> Address, hash: string -> word, nodes: seq<Node>, asked: set<(nat, string)>,
                     i: nat, f: string)
    requires i < |nodes| && (i, f) in asked && HopsOf(RingSetting(address, hash, nodes), i, f).Some?
    ensures AnswersSome(address, hash, nodes, asked, AnswerOf(RingSetting(address, hash, nodes), i, f))
  {
    AnsweredExactly(address, hash, nodes, i, f);
    var k := LastLister(nodes, Meant(hash, nodes, i, f));
    AnswerNames(address, hash, nodes, i, f, k);
  }

  /** The answer to some search arrives at node p, where it shows t. */
  ghost predicate ShowsSome(address: string -> Address, hash: string -> word, nodes: seq<Node>,
                            asked: set<(nat, string)>, p: nat, t: string)
    requires p < |nodes|
  {
    exists i: nat, f, k: nat, d ::
      && (i, f) in asked && AnswersSearch(address, hash, nodes, i, f, k, d)
      && address(nodes[p].ipPort) == d.to && t == Received(d.text)
  }

  lemma OutcomeShows(address: string -> Address, hash: string -> word, nodes: seq<Node>, asked: set<(nat, string)>,
                     p: nat, t: string)
    requires p < |nodes| && forall a :: a in asked ==> a.0 < |nodes|
    ensures RightlyShown(Service(RingSetting(address, hash, nodes)), asked, (p, t))
        <==> ShowsSome(address, hash, nodes, asked, p, t)
  {
    var w := Service(RingSetting(address, hash, nodes));
    if RightlyShown(w, asked, (p, t)) {
      var i: nat, f :| (i, f) in asked && Outcome(w, i, f, p, t);
      assert (i, f).0 < |nodes|;
      OutcomeIs(address, hash, nodes, i, f, p, t);
      AnsweredExactly(address, hash, nodes, i, f);
      var k := LastLister(nodes, Meant(hash, nodes, i, f));
      AnswerNames(address, hash, nodes, i, f, k);
    }
    if ShowsSome(address, hash, nodes, asked, p, t) {
      var i: nat, f, k: nat, d :|
        && (i, f) in asked && AnswersSearch(address, hash, nodes, i, f, k, d)
        && address(nodes[p].ipPort) == d.to && t == Received(d.text);
      AnsweredExactly(address, hash, nodes, i, f);
      AnswerNames(address, hash, nodes, i, f, k);
      OutcomeIs(address, hash, nodes, i, f, p, t);
    }
  }

  lemma OutcomeIs(address: string -> Address, hash: string -> word, nodes: seq<Node>, i: nat, f: string,
                  p: nat, t: string)
    requires p < |nodes| && i < |nodes|
    ensures var g := RingSetting(address, hash, nodes);
            Outcome(Service(g), i, f, p, t) <==>
              && HopsOf(g, i, f).Some?
              && address(nodes[p].ipPort) == AnswerOf(g, i, f).to && t == Received(AnswerOf(g, i, f).text)
  {
    RingNames(address, hash, nodes);
  }

  lemma ArrivesAtNode(address: string -> Address, hash: string -> word, nodes: seq<Node>, d: Datagram, q: nat)
    requires q < |nodes|
    ensures Service(RingSetting(address, hash, nodes)).arrives(d, q) <==> address(nodes[q].ipPort) == d.to
  {
    RingNames(address, hash, nodes);
  }

  lemma AskedAreNodes(address: string -> Address, hash: string -> word, nodes: seq<Node>, steps: seq<Step>)
    requires Registrants(address, nodes)
    requires ValidRun(Service(RingSetting(address, hash, nodes)), START, steps)
    ensures forall a :: a in Run(Service(RingSetting(address, hash, nodes)), START, steps).asked ==> a.0 < |nodes|
    ensures forall a :: a in Run(Service(RingSetting(address, hash, nodes)), START, steps).shown ==> a.0 < |nodes|
  {
    var w := Service(RingSetting(address, hash, nodes));
    SettingIsFaithful(address, hash, nodes);
    var log := RunKeeps(w, START, {}, steps);
    assert forall a :: a in Run(w, START, steps).asked ==> Started(w, log, a);
    assert forall a :: a in Run(w, START, steps).shown ==> RightlyShown(w, Run(w, START, steps).asked, a);
  }

  /** In every run, everything shown is the answer to some search arrived where it was addressed; and in every run in
      which nothing is lost, all such answers are shown. */
  lemma ShownOwnersRegistered(address: string -> Address, hash: string -> word, nodes: seq<Node>, steps: seq<Step>,
                              p: nat, t: string)
    requires Registrants(address, nodes) && p < |nodes|
    requires ValidRun(Service(RingSetting(address, hash, nodes)), START, steps)
    ensures var w := Service(RingSetting(address, hash, nodes));
            var s := Run(w, START, steps);
            && ((p, t) in s.shown ==> ShowsSome(address, hash, nodes, s.asked, p, t))
            && (NothingLost(w, steps) && ShowsSome(address, hash, nodes, s.asked, p, t) ==> (p, t) in s.shown)
  {
    var w := Service(RingSetting(address, hash, nodes));
    SettingIsFaithful(address, hash, nodes);
    AnswersAreRight(w, steps);
    AskedAreNodes(address, hash, nodes, steps);
    OutcomeShows(address, hash, nodes, Run(w, START, steps).asked, p, t);
    if NothingLost(w, steps) {
      ShownExactly(w, steps, p, t);
    }
  }

  // ---------- when the asker gets its answer ----------

  /** The asker has the file itself, or the file name arrives whole and what arrives of the asker's name still leads
      to the asker. */
  predicate Reaches(address: string -> Address, hash: string -> word, nodes: seq<Node>, i: nat, f: string)
    requires i < |nodes|
  {
    || HasItself(hash, nodes, i, f)
    || (|f| <= FILE_ROOM && address(HeardAsker(f, nodes[i].ipPort)) == address(nodes[i].ipPort))
  }

  /** As every request that fits a datagram does. */
  lemma FittingReaches(address: string -> Address, hash: string -> word, nodes: seq<Node>, i: nat, f: string)
    requires i < |nodes| && |Request(f, nodes[i].ipPort)| <= RECEIVE_LIMIT
    ensures Reaches(address, hash, nodes, i, f)
    ensures Meant(hash, nodes, i, f) == f && Addressee(hash, nodes, i, f) == nodes[i].ipPort
  {
    FittingIsHeard(f, nodes[i].ipPort);
  }

  /** The right answer to a search of node i for f that node `owner` was the last to list. */
  function RightAnswer(address: string -> Address, nodes: seq<Node>, i: nat, f: string, owner: nat): Datagram
    requires i < |nodes| && owner < |nodes|
  {
    Datagram(address(nodes[i].ipPort), Reply(f, nodes[owner].ipPort))
  }

  /** Exactly when the answer that is sent is the right one. */
  lemma RightExactly(address: string -> Address, hash: string -> word, nodes: seq<Node>, i: nat, f: string, owner: nat)
    requires i < |nodes| && LastToList(nodes, owner, f) && Word(f)
    ensures Reaches(address, hash, nodes, i, f) <==>
              var g := RingSetting(address, hash, nodes);
              HopsOf(g, i, f).Some? && AnswerOf(g, i, f) == RightAnswer(address, nodes, i, f, owner)
  {
    AnsweredExactly(address, hash, nodes, i, f);
    if |f| <= FILE_ROOM || HasItself(hash, nodes, i, f) {
      assert Meant(hash, nodes, i, f) == f;
      AnswerNames(address, hash, nodes, i, f, owner);
    } else if Listed(nodes, HeardFile(f)) {
      OtherFileAnswered(address, hash, nodes, i, f, owner);
    }
  }

  lemma OtherFileAnswered(address: string -> Address, hash: string -> word, nodes: seq<Node>, i: nat, f: string,
                          owner: nat)
    requires i < |nodes| && owner < |nodes| && Word(f) && |f| > FILE_ROOM && !HasItself(hash, nodes, i, f)
    requires Listed(nodes, HeardFile(f))
    ensures AnswerOf(RingSetting(address, hash, nodes), i, f) != RightAnswer(address, nodes, i, f, owner)
  {
    var k := LastLister(nodes, HeardFile(f));
    AnswerNames(address, hash, nodes, i, f, k);
    assert ' ' !in HeardFile(f);
    if Reply(f, nodes[owner].ipPort) == Reply(HeardFile(f), nodes[k].ipPort) {
      ReplyNamesFile(f, nodes[owner].ipPort, HeardFile(f), nodes[k].ipPort);
    }
  }

  /** A search for a registered file, in every run in which nothing is lost: if it reaches, the right answer is sent and
      shown on the asker's screen. */
  lemma RegisteredFilesAreFound(address: string -> Address, hash: string -> word, nodes: seq<Node>,
                                steps: seq<Step>, i: nat, f: string, owner: nat)
    requires Registrants(address, nodes) && i < |nodes| && LastToList(nodes, owner, f)
    requires ValidRun(Service(RingSetting(address, hash, nodes)), START, steps)
    requires NothingLost(Service(RingSetting(address, hash, nodes)), steps)
    requires (i, f) in Run(Service(RingSetting(address, hash, nodes)), START, steps).asked
    ensures var s := Run(Service(RingSetting(address, hash, nodes)), START, steps);
            Reaches(address, hash, nodes, i, f) ==>
              && RightAnswer(address, nodes, i, f, owner) in s.sent
              && (i, Received(Reply(f, nodes[owner].ipPort))) in s.shown
  {
    var w := Service(RingSetting(address, hash, nodes));
    SettingIsFaithful(address, hash, nodes);
    if Reaches(address, hash, nodes, i, f) {
      AnsweredExactly(address, hash, nodes, i, f);
      AnswerNames(address, hash, nodes, i, f, owner);
      AnswerIsSent(w, steps, i, f);
      RingNames(address, hash, nodes);
      ReceivedIsHandled(w, steps, Answered(i, f), i);
    }
  }

  /** And if it is the only search made, the right answer is sent if and only if it reaches. */
  lemma FoundExactly(address: string -> Address, hash: string -> word, nodes: seq<Node>,
                     steps: seq<Step>, i: nat, f: string, owner: nat)
    requires Registrants(address, nodes) && i < |nodes| && LastToList(nodes, owner, f)
    requires ValidRun(Service(RingSetting(address, hash, nodes)), START, steps)
    requires NothingLost(Service(RingSetting(address, hash, nodes)), steps)
    requires Run(Service(RingSetting(address, hash, nodes)), START, steps).asked == {(i, f)}
    ensures RightAnswer(address, nodes, i, f, owner)
         in Run(Service(RingSetting(address, hash, nodes)), START, steps).sent
        <==> Reaches(address, hash, nodes, i, f)
  {
    var w := Service(RingSetting(address, hash, nodes));
    var s := Run(w, START, steps);
    RegisteredFilesAreFound(address, hash, nodes, steps, i, f, owner);
    if RightAnswer(address, nodes, i, f, owner) in s.sent {
      SettingIsFaithful(address, hash, nodes);
      assert At(Reply(f, nodes[owner].ipPort), "owner_of", 0);
      OnlyAnswer(w, steps, i, f, RightAnswer(address, nodes, i, f, owner));
      AskedIsAskable(address, hash, nodes, steps, i, f);
      RightExactly(address, hash, nodes, i, f, owner);
    }
  }

  lemma OnlyAnswer(w: World, steps: seq<Step>, i: nat, f: string, d: Datagram)
    requires Faithful(w) && ValidRun(w, START, steps) && Run(w, START, steps).asked == {(i, f)}
    requires d in Run(w, START, steps).sent && Contains(d.text, "owner_of")
    ensures w.hops(i, f).Some? && d == w.text(Answered(i, f))
  {
    AnswersAreRight(w, steps);
    var j: nat, g :| (j, g) in Run(w, START, steps).asked && w.hops(j, g).Some? && d == w.text(Answered(j, g));
    assert (j, g) == (i, f);
  }

  lemma AskedIsAskable(address: string -> Address, hash: string -> word, nodes: seq<Node>, steps: seq<Step>,
                       i: nat, f: string)
    requires Registrants(address, nodes)
    requires ValidRun(Service(RingSetting(address, hash, nodes)), START, steps)
    requires (i, f) in Run(Service(RingSetting(address, hash, nodes)), START, steps).asked
    ensures i < |nodes| && Askable(RingSetting(address, hash, nodes), i, f)
  {
    var w := Service(RingSetting(address, hash, nodes));
    SettingIsFaithful(address, hash, nodes);
    var log := RunKeeps(w, START, {}, steps);
    assert Started(w, log, (i, f));
  }

  /** Then the asker shows it if and only if it reaches, at least for file names that a request can carry. */
  lemma ShownToAskerExactly(address: string -> Address, hash: string -> word, nodes: seq<Node>,
                            steps: seq<Step>, i: nat, f: string, owner: nat)
    requires Registrants(address, nodes) && i < |nodes| && LastToList(nodes, owner, f) && |f| <= FILE_ROOM
    requires ValidRun(Service(RingSetting(address, hash, nodes)), START, steps)
    requires NothingLost(Service(RingSetting(address, hash, nodes)), steps)
    requires Run(Service(RingSetting(address, hash, nodes)), START, steps).asked == {(i, f)}
    ensures (i, Received(Reply(f, nodes[owner].ipPort)))
         in Run(Service(RingSetting(address, hash, nodes)), START, steps).shown
        <==> Reaches(address, hash, nodes, i, f)
  {
    var t := Received(Reply(f, nodes[owner].ipPort));
    RegisteredFilesAreFound(address, hash, nodes, steps, i, f, owner);
    ShownOwnersRegistered(address, hash, nodes, steps, i, t);
  }

  /** What it takes to reach when the request is cut within the asker's name. */
  lemma CutAskerReaches(address: string -> Address, hash: string -> word, nodes: seq<Node>, i: nat, f: string)
    requires i < |nodes| && !HasItself(hash, nodes, i, f) && |Request(f, "")| <= RECEIVE_LIMIT
    ensures Reaches(address, hash, nodes, i, f) <==>
              var name := nodes[i].ipPort;
              || |Request(f, name)| <= RECEIVE_LIMIT
              || address(name[..RECEIVE_LIMIT - |Request(f, "")|]) == address(name)
  {
    var name := nodes[i].ipPort;
    assert |Request(f, name)| == |Request(f, "")| + |name|;
  }

  /** The searches whose request fits a datagram, among themselves: whatever a peer then shows is the answer to a search
      of its own and names the last node on the ring that registered the file. */
  lemma FittingSearchesAreRight(address: string -> Address, hash: string -> word, nodes: seq<Node>, steps: seq<Step>)
    requires Registrants(address, nodes)
    requires ValidRun(Service(RingSetting(address, hash, nodes)), START, steps)
    requires AllFit(nodes, Run(Service(RingSetting(address, hash, nodes)), START, steps).asked)
    ensures var s := Run(Service(RingSetting(address, hash, nodes)), START, steps);
            forall a :: a in s.shown ==>
              exists f, k: nat :: (a.0, f) in s.asked && LastToList(nodes, k, f)
                && a.1 == Received(Reply(f, nodes[k].ipPort))
  {
    var s := Run(Service(RingSetting(address, hash, nodes)), START, steps);
    AskedAreNodes(address, hash, nodes, steps);
    forall a | a in s.shown
      ensures exists f, k: nat :: (a.0, f) in s.asked && LastToList(nodes, k, f)
                && a.1 == Received(Reply(f, nodes[k].ipPort))
    {
      ShownOwnersRegistered(address, hash, nodes, steps, a.0, a.1);
      FittingShows(address, hash, nodes, s.asked, a.0, a.1);
    }
  }

  predicate AllFit(nodes: seq<Node>, asked: set<(nat, string)>) {
    forall a :: a in asked && a.0 < |nodes| ==> |Request(a.1, nodes[a.0].ipPort)| <= RECEIVE_LIMIT
  }

  lemma FittingShows(address: string -> Address, hash: string -> word, nodes: seq<Node>, asked: set<(nat, string)>,
                     p: nat, t: string)
    requires p < |nodes| && OwnAddresses(address, NodeNames(nodes)) && ShowsSome(address, hash, nodes, asked, p, t)
    requires AllFit(nodes, asked) && forall a :: a in asked ==> a.0 < |nodes|
    ensures exists f, k: nat :: (p, f) in asked && LastToList(nodes, k, f) && t == Received(Reply(f, nodes[k].ipPort))
  {
    var i: nat, f, k: nat, d :|
      && (i, f) in asked && AnswersSearch(address, hash, nodes, i, f, k, d)
      && address(nodes[p].ipPort) == d.to && t == Received(d.text);
    assert (i, f).0 < |nodes| && |Request((i, f).1, nodes[i].ipPort)| <= RECEIVE_LIMIT;
    FittingReaches(address, hash, nodes, i, f);
    assert address(NodeNames(nodes)[p]) == address(NodeNames(nodes)[i]);
  }

  // ---------- how far a search travels ----------

  function Hops(hash: string -> word, nodes: seq<Node>, i: nat, f: string): nat
    requires i < |nodes|
  {
    Distance(|nodes|, i, HomeOf(hash, nodes, f))
  }

  lemma HopsToHome(address: string -> Address, hash: string -> word, nodes: seq<Node>, i: nat, f: string)
    requires i < |nodes| && Listed(nodes, f) && Reaches(address, hash, nodes, i, f)
    ensures HopsOf(RingSetting(address, hash, nodes), i, f) == Some(Hops(hash, nodes, i, f))
  {
    HeldItself(address, hash, nodes, i, f);
    if !HasItself(hash, nodes, i, f) {
      assert HeardFile(f) == f;
    }
  }

  /** What the setting of a ring says of homes, in terms of its nodes. */
  lemma HeldItself(address: string -> Address, hash: string -> word, nodes: seq<Node>, i: nat, f: string)
    requires i < |nodes|
    ensures var g := RingSetting(address, hash, nodes);
            && |g.peers| == |nodes| && g.home(f) == HomeOf(hash, nodes, f) < |nodes|
            && (f in g.index <==> Listed(nodes, f))
            && (Held(g, i, f) <==> HasItself(hash, nodes, i, f))
  {
    IndexOfRing(address, hash, nodes, f);
    RingNames(address, hash, nodes);
  }

  /** A search that reaches takes (home - i) mod n deliveries of the request, one at each peer after the asker, and one
      of the answer. */
  lemma FoundWithinDistance(address: string -> Address, hash: string -> word, nodes: seq<Node>,
                            steps: seq<Step>, i: nat, f: string, owner: nat)
    requires Registrants(address, nodes) && i < |nodes| && LastToList(nodes, owner, f)
    requires Reaches(address, hash, nodes, i, f)
    requires ValidRun(Service(RingSetting(address, hash, nodes)), START, steps)
    requires (i, f) in Run(Service(RingSetting(address, hash, nodes)), START, steps).asked
    ensures var w, hops := Service(RingSetting(address, hash, nodes)), Hops(hash, nodes, i, f);
            && w.hops(i, f) == Some(hops)
            && w.text(Answered(i, f)) == RightAnswer(address, nodes, i, f, owner)
            && var more := Journey(w, i, f, i, 1);
               && Deliveries(w, i, f, hops, more)
               && ValidRun(w, Run(w, START, steps), more)
               && (i, Received(Reply(f, nodes[owner].ipPort))) in Run(w, Run(w, START, steps), more).shown
  {
    var w := Service(RingSetting(address, hash, nodes));
    SettingIsFaithful(address, hash, nodes);
    HopsToHome(address, hash, nodes, i, f);
    AnswerNames(address, hash, nodes, i, f, owner);
    OutcomeIs(address, hash, nodes, i, f, i, Received(Reply(f, nodes[owner].ipPort)));
    SearchIsAnswered(w, steps, i, f, i);
    JourneyDeliveries(w, i, f);
  }

  /** The request at each of the `hops` peers after i, and then the answer at i. */
  predicate Deliveries(w: World, i: nat, f: string, hops: nat, steps: seq<Step>)
    requires i < w.n
  {
    && |steps| == hops + 1 && steps[hops] == Deliver(w.text(Answered(i, f)), i)
    && forall j :: 0 <= j < hops ==> steps[j] == Deliver(w.text(Forwarded(i, f, j + 1)), Place(w.n, i, j + 1))
  }

  lemma JourneyDeliveries(w: World, i: nat, f: string)
    requires i < w.n && w.hops(i, f).Some?
    ensures Deliveries(w, i, f, w.hops(i, f).value, Journey(w, i, f, i, 1))
  {
    JourneySteps(w, i, f, i, 1);
  }

  /** A search that nobody can answer travels through all the other peers and back to its asker within n deliveries,
      and goes on from there; no answer is shown. What travels is the request, cut to a datagram from the second
      forward on. */
  lemma UnregisteredSearchReturns(address: string -> Address, hash: string -> word, nodes: seq<Node>,
                                  s: State, i: nat, f: string)
    requires Registrants(address, nodes) && i < |nodes| && !Listed(nodes, Meant(hash, nodes, i, f))
    requires var g := RingSetting(address, hash, nodes);
             Askable(g, i, f) && AsText(g, Forwarded(i, f, 1)) in s.sent
    ensures var w := Service(RingSetting(address, hash, nodes));
            && w.n == |nodes| && GoesRound(w, s, i, f)
            && forall k: nat :: w.text(Forwarded(i, f, k)) == RequestTo(address, nodes, i, f, k)
  {
    var g := RingSetting(address, hash, nodes);
    SettingIsFaithful(address, hash, nodes);
    AnsweredExactly(address, hash, nodes, i, f);
    UnplacedSearchCirculates(Service(g), s, i, f);
    RequestTexts(address, hash, nodes, i, f);
  }

  /** The request of node i as it is sent to the k-th peer after it. */
  function RequestTo(address: string -> Address, nodes: seq<Node>, i: nat, f: string, k: nat): Datagram
    requires i < |nodes|
  {
    var req := Request(f, nodes[i].ipPort);
    Datagram(address(nodes[Place(|nodes|, i, k)].ipPort), if k <= 1 then req else Received(req))
  }

  lemma RequestTexts(address: string -> Address, hash: string -> word, nodes: seq<Node>, i: nat, f: string)
    requires i < |nodes|
    ensures forall k: nat :: Service(RingSetting(address, hash, nodes)).text(Forwarded(i, f, k))
              == RequestTo(address, nodes, i, f, k)
  {
    RingNames(address, hash, nodes);
  }
}
