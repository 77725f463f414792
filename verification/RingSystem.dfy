/** The whole file index, from what the peers register to what they show: registrations travel to the bootstrap, its
    mails to the peers, and the peers answer one another's searches. */
module RingSystem {
  import opened OatHash
  import opened Text
  import opened HashRing
  import opened RingMessages
  import opened Bootstraps
  import opened RingSearch
  import opened RingProtocol
  import opened RingService

  /** How the programs hash a name and find its address. */
  datatype Programs = Programs(address: string -> Address, hash: string -> word)

  /** What a peer's user types in: address, port and the files to share. */
  datatype Registrant = Registrant(ip: string, port: string, files: seq<string>)

  function NameOf(r: Registrant): string { r.ip + ":" + r.port }

  /** The registration message. */
  function RegistrationOf(r: Registrant): string {
    Spaced(RegistrationWords(r.ip, r.port, |r.files|, r.files))
  }

  /** A name is sent to its host, at its port taken as a 16-bit number. */
  predicate Resolved(address: string -> Address, ip: string, port: string) {
    address(ip + ":" + port) == Address(ip, Atoi(port) % 0x1_0000)
  }

  ghost predicate Resolves(address: string -> Address) {
    forall ip, port {:trigger Resolved(address, ip, port)} :: ':' !in ip && ':' !in port ==> Resolved(address, ip, port)
  }

  /** The programs' names do. */
  lemma AddressOfResolves()
    ensures Resolves(AddressOf)
  {
    forall ip, port | ':' !in ip && ':' !in port ensures Resolved(AddressOf, ip, port) {
      AddressOfSplit(ip, port);
    }
  }

  ghost predicate Fit(r: Registrant) {
    && Word(r.ip) && Word(r.port) && ':' !in r.ip && ':' !in r.port && Words(r.files)
    && |RegistrationOf(r)| <= RECEIVE_LIMIT + 1
    && !Contains(NameOf(r), "owner_of")
  }

  /** Peers that fit, at addresses of their own. */
  ghost predicate Community(address: string -> Address, rs: seq<Registrant>) {
    && rs != []
    && (forall i :: 0 <= i < |rs| ==> Fit(rs[i]))
    && (forall i, j :: 0 <= i < j < |rs| ==> address(NameOf(rs[i])) != address(NameOf(rs[j])))
  }

  /** What the bootstrap receives. */
  function Inbox(rs: seq<Registrant>): seq<string> {
    seq(|rs|, i requires 0 <= i < |rs| => Received(RegistrationOf(rs[i])))
  }

  /** The peer of r once it has read its mail. */
  function PeerOf(r: Registrant, mail: Mail): Peer {
    var t := ReadTopology(Received(mail.text));
    Peer(NameOf(r), t.scr, t.myFileInfo)
  }

  /** The peer that made itself out of a mail is one that the mail was sent to. */
  ghost predicate Delivered(address: string -> Address, rs: seq<Registrant>, mail: Mail, peer: Peer) {
    exists r :: r in rs && address(NameOf(r)) == Address(mail.ip, mail.port % 0x1_0000) && peer == PeerOf(r, mail)
  }

  predicate MailsFit(out: seq<Mail>) {
    forall i :: 0 <= i < |out| ==> |out[i].text| <= RECEIVE_LIMIT + 1
  }

  /** A system that has been set up: `nodes` is a ring the bootstrap can make of the registrations, `out` what it then
      mails, and `peers` what the recipients make of that. */
  ghost predicate Deployed(p: Programs, rs: seq<Registrant>, nodes: seq<Node>, out: seq<Mail>,
                           peers: seq<Peer>)
  {
    && Resolves(p.address)
    && Community(p.address, rs)
    && IsRing(p.hash, Inbox(rs), nodes)
    && Mailed(out, Placed(p.hash, Linked(nodes)))
    && MailsFit(out)
    && |peers| == |out|
    && (forall i :: 0 <= i < |peers| ==> Delivered(p.address, rs, out[i], peers[i]))
  }

  // ---------- every node is a registrant's, and every registrant's node is on the ring ----------

  function NodeFor(hash: string -> word, r: Registrant): Node {
    Node(r.ip, r.port, NameOf(r), hash(NameOf(r)), "", "", r.files, map[])
  }

  function NodesFor(hash: string -> word, rs: seq<Registrant>): seq<Node> {
    seq(|rs|, i requires 0 <= i < |rs| => NodeFor(hash, rs[i]))
  }

  lemma CollectedNodes(p: Programs, rs: seq<Registrant>, registered: seq<Node>)
    requires Community(p.address, rs) && Collected(p.hash, Inbox(rs), registered)
    ensures registered == NodesFor(p.hash, rs)
  {
    forall i | 0 <= i < |rs| ensures registered[i] == NodeFor(p.hash, rs[i]) {
      var r := rs[i];
      assert Fit(r) && IsNodeOf(p.hash, Inbox(rs)[i], registered[i]);
      RegistrantBecomesNode(p.hash, r.ip, r.port, |r.files|, r.files, registered[i]);
    }
  }

  lemma RingOfRegistrants(p: Programs, rs: seq<Registrant>, nodes: seq<Node>)
    requires Community(p.address, rs) && IsRing(p.hash, Inbox(rs), nodes)
    ensures Sorted(Ids(nodes)) && multiset(nodes) == multiset(NodesFor(p.hash, rs)) && nodes != []
  {
    var registered :| Collected(p.hash, Inbox(rs), registered) && multiset(nodes) == multiset(registered);
    CollectedNodes(p, rs, registered);
    assert |multiset(nodes)| == |nodes|;
    assert |multiset(registered)| == |registered|;
  }

  lemma SamePlaces(a: seq<Node>, b: seq<Node>)
    requires multiset(a) == multiset(b)
    ensures forall x :: x in a <==> x in b
  {
    forall x ensures x in a <==> x in b {
      assert x in a <==> x in multiset(a);
      assert x in b <==> x in multiset(b);
    }
  }

  lemma NodeIsSomeones(hash: string -> word, rs: seq<Registrant>, nodes: seq<Node>, k: nat) returns (j: nat)
    requires multiset(nodes) == multiset(NodesFor(hash, rs)) && k < |nodes|
    ensures j < |rs| && nodes[k] == NodeFor(hash, rs[j])
  {
    SamePlaces(nodes, NodesFor(hash, rs));
    assert nodes[k] in NodesFor(hash, rs);
    j :| 0 <= j < |rs| && NodesFor(hash, rs)[j] == nodes[k];
  }

  lemma RegistrantHasNode(hash: string -> word, rs: seq<Registrant>, nodes: seq<Node>, j: nat) returns (k: nat)
    requires multiset(nodes) == multiset(NodesFor(hash, rs)) && j < |rs|
    ensures k < |nodes| && nodes[k] == NodeFor(hash, rs[j])
  {
    SamePlaces(nodes, NodesFor(hash, rs));
    assert NodesFor(hash, rs)[j] in nodes;
    k :| 0 <= k < |nodes| && nodes[k] == NodesFor(hash, rs)[j];
  }

  lemma TwiceCounts(nodes: seq<Node>, i: nat, j: nat)
    requires i < j < |nodes| && nodes[i] == nodes[j]
    ensures multiset(nodes)[nodes[i]] >= 2
  {
    var front := nodes[..j];
    assert nodes == front + [nodes[j]] + nodes[j + 1..];
    assert front[i] in multiset(front);
  }

  lemma {:induction false} OnceCounts(nodes: seq<Node>, x: Node)
    requires DistinctNames(nodes)
    ensures multiset(nodes)[x] <= 1
  {
    if nodes != [] {
      var last := |nodes| - 1;
      assert nodes == nodes[..last] + [nodes[last]];
      OnceCounts(nodes[..last], x);
      assert nodes[last] !in nodes[..last];
    }
  }

  lemma AddressesStayOwn(p: Programs, rs: seq<Registrant>, nodes: seq<Node>)
    requires Community(p.address, rs) && multiset(nodes) == multiset(NodesFor(p.hash, rs))
    ensures OwnAddresses(p.address, NodeNames(nodes))
  {
    forall i, j | 0 <= i < j < |nodes| ensures p.address(nodes[i].ipPort) != p.address(nodes[j].ipPort) {
      var a := NodeIsSomeones(p.hash, rs, nodes, i);
      var b := NodeIsSomeones(p.hash, rs, nodes, j);
      if a == b {
        TwiceCounts(nodes, i, j);
        NamesStayOwn(p, rs);
        OnceCounts(NodesFor(p.hash, rs), nodes[i]);
      }
    }
    OwnAddressesOrdered(p.address, NodeNames(nodes));
  }

  lemma NamesStayOwn(p: Programs, rs: seq<Registrant>)
    requires Community(p.address, rs)
    ensures DistinctNames(NodesFor(p.hash, rs))
  {
    var nodes := NodesFor(p.hash, rs);
    forall i, j | 0 <= i < j < |nodes| ensures nodes[i].ipPort != nodes[j].ipPort {
      assert p.address(NameOf(rs[i])) != p.address(NameOf(rs[j]));
    }
  }

  lemma OwnAddressesOrdered(address: string -> Address, names: seq<string>)
    requires forall i, j :: 0 <= i < j < |names| ==> address(names[i]) != address(names[j])
    ensures OwnAddresses(address, names)
  {
    forall i, j | 0 <= i < |names| && 0 <= j < |names| && i != j ensures address(names[i]) != address(names[j]) {
      assert i < j || j < i;
    }
  }

  // ---------- the peers are the ring the bootstrap computed ----------

  /** The nodes of a deployed system are registrants the search service can serve. */
  lemma RegistrantsOnRing(p: Programs, rs: seq<Registrant>, nodes: seq<Node>)
    requires Community(p.address, rs) && IsRing(p.hash, Inbox(rs), nodes)
    ensures Registrants(p.address, nodes)
  {
    RingOfRegistrants(p, rs, nodes);
    AddressesStayOwn(p, rs, nodes);
    forall k | 0 <= k < |nodes| ensures NodeOfWords(nodes[k]) && !Contains(nodes[k].ipPort, "owner_of") {
      NodeFits(p, rs, nodes, k);
    }
    NamesFit(nodes);
  }

  lemma NodeFits(p: Programs, rs: seq<Registrant>, nodes: seq<Node>, k: nat)
    requires Community(p.address, rs) && multiset(nodes) == multiset(NodesFor(p.hash, rs)) && k < |nodes|
    ensures NodeOfWords(nodes[k]) && !Contains(nodes[k].ipPort, "owner_of")
  {
    var j := NodeIsSomeones(p.hash, rs, nodes, k);
    assert Fit(rs[j]);
  }

  lemma NamesFit(nodes: seq<Node>)
    requires forall k :: 0 <= k < |nodes| ==> NodeOfWords(nodes[k]) && !Contains(nodes[k].ipPort, "owner_of")
    ensures FitNames(NodeNames(nodes))
  {
  }

  /** What every peer makes of its mail is exactly the node that the bootstrap computed for it. */
  lemma PeersAsComputed(p: Programs, rs: seq<Registrant>, nodes: seq<Node>, out: seq<Mail>, peers: seq<Peer>)
    requires Deployed(p, rs, nodes, out, peers)
    ensures peers == PeersOf(Placed(p.hash, Linked(nodes)))
  {
    forall i | 0 <= i < |peers| ensures peers[i] == PeersOf(Placed(p.hash, Linked(nodes)))[i] {
      PeerAsComputed(p, rs, nodes, out, peers, i);
    }
  }

  lemma PeerAsComputed(p: Programs, rs: seq<Registrant>, nodes: seq<Node>, out: seq<Mail>, peers: seq<Peer>,
                       i: nat)
    requires Deployed(p, rs, nodes, out, peers) && i < |peers|
    ensures peers[i] == PeersOf(Placed(p.hash, Linked(nodes)))[i]
  {
    RingOfRegistrants(p, rs, nodes);
    forall k | 0 <= k < |nodes| ensures NodeOfWords(nodes[k]) {
      NodeFits(p, rs, nodes, k);
    }
    PeerLearnsItsPlace(p.hash, nodes, i, out[i]);
    assert Delivered(p.address, rs, out[i], peers[i]);
    var r :| r in rs && p.address(NameOf(r)) == Address(out[i].ip, out[i].port % 0x1_0000)
             && peers[i] == PeerOf(r, out[i]);
    PlacedAddress(p.hash, nodes, i);
    MailReachesItsNode(p, rs, nodes, i, out[i], r);
  }

  lemma PlacedAddress(hash: string -> word, nodes: seq<Node>, i: nat)
    requires i < |nodes|
    ensures var node := Placed(hash, Linked(nodes))[i];
            node.ip == nodes[i].ip && node.port == nodes[i].port && node.ipPort == nodes[i].ipPort
  {
    assert Linked(nodes)[i] == LinkedNode(nodes, i);
  }

  /** Only the registrant whose node a mail was made for is at the mail's address. */
  lemma MailReachesItsNode(p: Programs, rs: seq<Registrant>, nodes: seq<Node>, i: nat, mail: Mail,
                           r: Registrant)
    requires Community(p.address, rs) && multiset(nodes) == multiset(NodesFor(p.hash, rs)) && i < |nodes|
    requires mail.ip == nodes[i].ip && mail.port == Atoi(nodes[i].port)
    requires Resolves(p.address)
    requires r in rs && p.address(NameOf(r)) == Address(mail.ip, mail.port % 0x1_0000)
    ensures NameOf(r) == nodes[i].ipPort
  {
    var j := NodeIsSomeones(p.hash, rs, nodes, i);
    assert Fit(rs[j]);
    assert Resolved(p.address, rs[j].ip, rs[j].port);
    var a :| 0 <= a < |rs| && rs[a] == r;
    assert p.address(NameOf(rs[a])) == p.address(NameOf(rs[j]));
  }

  // ---------- setting a system up ----------

  /** The two programs' set-up in one: the bootstrap is run on what the peers register, and every mail is read by the
      peer at its address. If the mails fit, the system is deployed. */
  method Deploy(p: Programs, rs: seq<Registrant>) returns (out: seq<Mail>, peers: seq<Peer>)
    requires Resolves(p.address) && Community(p.address, rs)
    ensures MailsFit(out) ==> exists nodes :: Deployed(p, rs, nodes, out, peers)
  {
    out := Bootstrap(p.hash, Inbox(rs));
    ghost var nodes :| IsRing(p.hash, Inbox(rs), nodes) && Mailed(out, Placed(p.hash, Linked(nodes)));
    forall i: nat | i < |out| ensures HasReader(p.address, rs, out[i]) {
      MailHasReader(p, rs, nodes, out, i);
    }
    peers := ReadMails(p.address, rs, out);
    assert MailsFit(out) ==> Deployed(p, rs, nodes, out, peers);
  }

  /** Somebody is at the mail's address. */
  ghost predicate HasReader(address: string -> Address, rs: seq<Registrant>, mail: Mail) {
    exists r :: r in rs && address(NameOf(r)) == Address(mail.ip, mail.port % 0x1_0000)
  }

  method ReadMails(address: string -> Address, rs: seq<Registrant>, out: seq<Mail>) returns (peers: seq<Peer>)
    requires forall i :: 0 <= i < |out| ==> HasReader(address, rs, out[i])
    ensures |peers| == |out| && forall i :: 0 <= i < |peers| ==> Delivered(address, rs, out[i], peers[i])
  {
    peers := [];
    for i := 0 to |out|
      invariant |peers| == i && forall k :: 0 <= k < i ==> Delivered(address, rs, out[k], peers[k])
    {
      var peer := ReadMail(address, rs, out[i]);
      peers := peers + [peer];
    }
  }

  method ReadMail(address: string -> Address, rs: seq<Registrant>, mail: Mail) returns (peer: Peer)
    requires HasReader(address, rs, mail)
    ensures Delivered(address, rs, mail, peer)
  {
    var r :| r in rs && address(NameOf(r)) == Address(mail.ip, mail.port % 0x1_0000);
    var t := ParseTopology(Received(mail.text));
    peer := Peer(NameOf(r), t.scr, t.myFileInfo);
  }

  lemma MailHasReader(p: Programs, rs: seq<Registrant>, nodes: seq<Node>, out: seq<Mail>, i: nat)
    requires Resolves(p.address) && Community(p.address, rs) && IsRing(p.hash, Inbox(rs), nodes)
    requires Mailed(out, Placed(p.hash, Linked(nodes))) && i < |out|
    ensures HasReader(p.address, rs, out[i])
  {
    RingOfRegistrants(p, rs, nodes);
    var j := NodeIsSomeones(p.hash, rs, nodes, i);
    assert Fit(rs[j]);
    PlacedAddress(p.hash, nodes, i);
    assert IsMailFor(out[i], Placed(p.hash, Linked(nodes))[i]);
    assert Resolved(p.address, rs[j].ip, rs[j].port);
  }

  // ---------- the main results ----------

  /** r registered f, and nobody whose name hashes higher did. */
  predicate Owns(hash: string -> word, rs: seq<Registrant>, r: Registrant, f: string) {
    && r in rs && f in r.files
    && forall q :: q in rs && f in q.files ==> hash(NameOf(q)) <= hash(NameOf(r))
  }

  /** The service of the peers as they are. Its index and homes only serve to state what is true of it: no step of a
      run depends on them. */
  ghost function System(p: Programs, nodes: seq<Node>, peers: seq<Peer>): World {
    Service(RingSetting(p.address, p.hash, nodes).(peers := peers))
  }

  /** The peers of a deployed system run the service of the ring that the bootstrap computed. */
  lemma SystemIsService(p: Programs, rs: seq<Registrant>, nodes: seq<Node>, out: seq<Mail>, peers: seq<Peer>)
    requires Deployed(p, rs, nodes, out, peers)
    ensures OwnersOnRing(p, rs, nodes) && Registrants(p.address, nodes)
    ensures System(p, nodes, peers) == Service(RingSetting(p.address, p.hash, nodes))
    ensures |peers| == |nodes| && forall i :: 0 <= i < |peers| ==> peers[i].ipPort == nodes[i].ipPort
  {
    PeersAsComputed(p, rs, nodes, out, peers);
    RegistrantsOnRing(p, rs, nodes);
    RingHasOwners(p, rs, nodes);
    PeerNames(p.hash, nodes, peers);
    assert RingSetting(p.address, p.hash, nodes).(peers := peers) == RingSetting(p.address, p.hash, nodes);
  }

  lemma PeerNames(hash: string -> word, nodes: seq<Node>, peers: seq<Peer>)
    requires peers == PeersOf(Placed(hash, Linked(nodes)))
    ensures |peers| == |nodes| && forall i :: 0 <= i < |peers| ==> peers[i].ipPort == nodes[i].ipPort
  {
    forall i | 0 <= i < |peers| ensures peers[i].ipPort == nodes[i].ipPort {
      PlacedAddress(hash, nodes, i);
    }
  }

  lemma LastListerOwns(p: Programs, rs: seq<Registrant>, nodes: seq<Node>, k: nat, f: string)
    returns (r: Registrant)
    requires Community(p.address, rs) && IsRing(p.hash, Inbox(rs), nodes) && LastToList(nodes, k, f)
    ensures Owns(p.hash, rs, r, f) && nodes[k].ipPort == NameOf(r)
  {
    RingOfRegistrants(p, rs, nodes);
    var j := NodeIsSomeones(p.hash, rs, nodes, k);
    r := rs[j];
    forall q | q in rs && f in q.files ensures p.hash(NameOf(q)) <= p.hash(NameOf(r)) {
      var a :| 0 <= a < |rs| && rs[a] == q;
      var b := RegistrantHasNode(p.hash, rs, nodes, a);
      EarlierIsLower(nodes, b, k, f);
    }
  }

  /** Who is last on the ring to list a file owns it, and every registered file is listed. */
  ghost predicate OwnerAt(p: Programs, rs: seq<Registrant>, nodes: seq<Node>, k: nat, f: string) {
    && (LastToList(nodes, k, f) ==> exists r :: Owns(p.hash, rs, r, f) && nodes[k].ipPort == NameOf(r))
    && ((exists q :: q in rs && f in q.files) ==> Listed(nodes, f))
  }

  ghost predicate OwnersOnRing(p: Programs, rs: seq<Registrant>, nodes: seq<Node>) {
    forall k: nat, f {:trigger OwnerAt(p, rs, nodes, k, f)} :: OwnerAt(p, rs, nodes, k, f)
  }

  lemma RingHasOwners(p: Programs, rs: seq<Registrant>, nodes: seq<Node>)
    requires Community(p.address, rs) && IsRing(p.hash, Inbox(rs), nodes)
    ensures OwnersOnRing(p, rs, nodes)
  {
    forall k: nat, f ensures OwnerAt(p, rs, nodes, k, f) {
      if LastToList(nodes, k, f) {
        var r := LastListerOwns(p, rs, nodes, k, f);
      }
      if q :| q in rs && f in q.files {
        RegisteredIsListed(p, rs, nodes, q, f);
      }
    }
  }

  lemma RegisteredIsListed(p: Programs, rs: seq<Registrant>, nodes: seq<Node>, q: Registrant, f: string)
    requires Community(p.address, rs) && IsRing(p.hash, Inbox(rs), nodes) && q in rs && f in q.files
    ensures Listed(nodes, f)
  {
    RingOfRegistrants(p, rs, nodes);
    var a :| 0 <= a < |rs| && rs[a] == q;
    var b := RegistrantHasNode(p.hash, rs, nodes, a);
  }

  lemma EarlierIsLower(nodes: seq<Node>, b: nat, k: nat, f: string)
    requires Sorted(Ids(nodes)) && LastToList(nodes, k, f) && b < |nodes| && f in nodes[b].myFile
    ensures nodes[b].nodeId <= nodes[k].nodeId
  {
    assert Ids(nodes)[b] == nodes[b].nodeId && Ids(nodes)[k] == nodes[k].nodeId;
  }

  /** A search that was made, and what its answer is about and whom it is addressed to: f and the asker if the asker
      holds the file itself, and else what the other peers hear. */
  ghost predicate Searching(peers: seq<Peer>, asked: set<(nat, string)>, file: string, addressee: string) {
    exists i: nat, f :: i < |peers| && (i, f) in asked
      && ((file == f && addressee == peers[i].ipPort)
          || (file == HeardFile(f) && addressee == HeardAsker(f, peers[i].ipPort)))
  }

  /** The answer to some search, naming the owner of the file it is about. */
  ghost predicate SendsOwner(p: Programs, rs: seq<Registrant>, peers: seq<Peer>, asked: set<(nat, string)>, d: Datagram)
  {
    exists file, addressee, r :: Searching(peers, asked, file, addressee) && Owns(p.hash, rs, r, file)
      && d == Datagram(p.address(addressee), Reply(file, NameOf(r)))
  }

  lemma AnswerIsOwners(p: Programs, rs: seq<Registrant>, nodes: seq<Node>, peers: seq<Peer>,
                       asked: set<(nat, string)>, i: nat, f: string, k: nat, d: Datagram)
    requires OwnersOnRing(p, rs, nodes) && (i, f) in asked
    requires |peers| == |nodes| && forall i :: 0 <= i < |peers| ==> peers[i].ipPort == nodes[i].ipPort
    requires AnswersSearch(p.address, p.hash, nodes, i, f, k, d)
    ensures SendsOwner(p, rs, peers, asked, d)
  {
    assert OwnerAt(p, rs, nodes, k, Meant(p.hash, nodes, i, f));
    assert Searching(peers, asked, Meant(p.hash, nodes, i, f), Addressee(p.hash, nodes, i, f));
  }

  /** In every run of a deployed system, whatever is searched for, every answer that is sent names a peer that
      registered the file it is about, the one of highest hash, and goes to the name that was heard. */
  lemma SentIsOwner(p: Programs, rs: seq<Registrant>, nodes: seq<Node>, out: seq<Mail>, peers: seq<Peer>,
                    steps: seq<Step>)
    requires Deployed(p, rs, nodes, out, peers) && ValidRun(System(p, nodes, peers), START, steps)
    ensures var s := Run(System(p, nodes, peers), START, steps);
            forall d :: d in s.sent && Contains(d.text, "owner_of") ==> SendsOwner(p, rs, peers, s.asked, d)
  {
    SystemIsService(p, rs, nodes, out, peers);
    ServiceSendsOwners(p, rs, nodes, peers, steps);
  }

  lemma ServiceSendsOwners(p: Programs, rs: seq<Registrant>, nodes: seq<Node>, peers: seq<Peer>, steps: seq<Step>)
    requires OwnersOnRing(p, rs, nodes) && Registrants(p.address, nodes)
    requires |peers| == |nodes| && forall i :: 0 <= i < |peers| ==> peers[i].ipPort == nodes[i].ipPort
    requires ValidRun(Service(RingSetting(p.address, p.hash, nodes)), START, steps)
    ensures var s := Run(Service(RingSetting(p.address, p.hash, nodes)), START, steps);
            forall d :: d in s.sent && Contains(d.text, "owner_of") ==> SendsOwner(p, rs, peers, s.asked, d)
  {
    SentOwnersRegistered(p.address, p.hash, nodes, steps);
    AllSendOwners(p, rs, nodes, peers, Run(Service(RingSetting(p.address, p.hash, nodes)), START, steps));
  }

  lemma AllSendOwners(p: Programs, rs: seq<Registrant>, nodes: seq<Node>, peers: seq<Peer>, s: State)
    requires OwnersOnRing(p, rs, nodes)
    requires |peers| == |nodes| && forall i :: 0 <= i < |peers| ==> peers[i].ipPort == nodes[i].ipPort
    requires forall d :: d in s.sent && Contains(d.text, "owner_of") ==>
               AnswersSome(p.address, p.hash, nodes, s.asked, d)
    ensures forall d :: d in s.sent && Contains(d.text, "owner_of") ==> SendsOwner(p, rs, peers, s.asked, d)
  {
    forall d | d in s.sent && Contains(d.text, "owner_of") ensures SendsOwner(p, rs, peers, s.asked, d) {
      var i: nat, f, k: nat :| (i, f) in s.asked && AnswersSearch(p.address, p.hash, nodes, i, f, k, d);
      AnswerIsOwners(p, rs, nodes, peers, s.asked, i, f, k, d);
    }
  }

  /** And whatever a peer shows is the received text of such an answer addressed to it. */
  lemma ShownIsOwner(p: Programs, rs: seq<Registrant>, nodes: seq<Node>, out: seq<Mail>, peers: seq<Peer>,
                     steps: seq<Step>)
    requires Deployed(p, rs, nodes, out, peers) && ValidRun(System(p, nodes, peers), START, steps)
    ensures var s := Run(System(p, nodes, peers), START, steps);
            forall a :: a in s.shown ==> ShowsOwner(p, rs, peers, s.asked, a)
  {
    SystemIsService(p, rs, nodes, out, peers);
    AskedAreNodes(p.address, p.hash, nodes, steps);
    var s := Run(System(p, nodes, peers), START, steps);
    forall a | a in s.shown ensures ShowsOwner(p, rs, peers, s.asked, a) {
      ShownOwnersRegistered(p.address, p.hash, nodes, steps, a.0, a.1);
      AnyShowsOwner(p, rs, nodes, peers, s.asked, a);
    }
  }

  ghost predicate ShowsOwner(p: Programs, rs: seq<Registrant>, peers: seq<Peer>, asked: set<(nat, string)>,
                             a: (nat, string))
  {
    exists d :: SendsOwner(p, rs, peers, asked, d)
      && a.0 < |peers| && d.to == p.address(peers[a.0].ipPort) && a.1 == Received(d.text)
  }

  lemma AnyShowsOwner(p: Programs, rs: seq<Registrant>, nodes: seq<Node>, peers: seq<Peer>,
                      asked: set<(nat, string)>, a: (nat, string))
    requires OwnersOnRing(p, rs, nodes)
    requires |peers| == |nodes| && forall i :: 0 <= i < |peers| ==> peers[i].ipPort == nodes[i].ipPort
    requires a.0 < |nodes| && ShowsSome(p.address, p.hash, nodes, asked, a.0, a.1)
    ensures ShowsOwner(p, rs, peers, asked, a)
  {
    var i: nat, f, k: nat, d :|
      && (i, f) in asked && AnswersSearch(p.address, p.hash, nodes, i, f, k, d)
      && p.address(nodes[a.0].ipPort) == d.to && a.1 == Received(d.text);
    AnswerIsOwners(p, rs, nodes, peers, asked, i, f, k, d);
  }

  /** As long as all requests fit a datagram, whatever a peer shows is the answer to a search of its own and names an
      owner of the file. */
  lemma FittingShownIsOwner(p: Programs, rs: seq<Registrant>, nodes: seq<Node>, out: seq<Mail>, peers: seq<Peer>,
                            steps: seq<Step>)
    requires Deployed(p, rs, nodes, out, peers) && ValidRun(System(p, nodes, peers), START, steps)
    requires forall a :: a in Run(System(p, nodes, peers), START, steps).asked && a.0 < |peers| ==>
               |Request(a.1, peers[a.0].ipPort)| <= RECEIVE_LIMIT
    ensures var s := Run(System(p, nodes, peers), START, steps);
            forall a :: a in s.shown ==>
              exists f, r :: (a.0, f) in s.asked && Owns(p.hash, rs, r, f) && a.1 == Received(Reply(f, NameOf(r)))
  {
    SystemIsService(p, rs, nodes, out, peers);
    FittingSearchesAreRight(p.address, p.hash, nodes, steps);
    var s := Run(System(p, nodes, peers), START, steps);
    forall a | a in s.shown
      ensures exists f, r :: (a.0, f) in s.asked && Owns(p.hash, rs, r, f) && a.1 == Received(Reply(f, NameOf(r)))
    {
      var f, k: nat :| (a.0, f) in s.asked && LastToList(nodes, k, f) && a.1 == Received(Reply(f, nodes[k].ipPort));
      assert OwnerAt(p, rs, nodes, k, f);
    }
  }

  /** Read word by word, such a text gives the file that was searched for and the name of its owner, as long as it was
      not cut. */
  lemma ShownNamesOwner(p: Programs, rs: seq<Registrant>, nodes: seq<Node>, out: seq<Mail>, peers: seq<Peer>,
                        steps: seq<Step>)
    requires Deployed(p, rs, nodes, out, peers) && ValidRun(System(p, nodes, peers), START, steps)
    requires forall a :: a in Run(System(p, nodes, peers), START, steps).asked && a.0 < |peers| ==>
               |Request(a.1, peers[a.0].ipPort)| <= RECEIVE_LIMIT
    ensures var s := Run(System(p, nodes, peers), START, steps);
            forall a :: a in s.shown && |a.1| < RECEIVE_LIMIT ==>
              var q := ReadQuery(a.1);
              (a.0, q.file) in s.asked && exists r :: Owns(p.hash, rs, r, q.file) && q.asker == NameOf(r)
  {
    FittingShownIsOwner(p, rs, nodes, out, peers, steps);
    AskedAreWords(p, rs, nodes, out, peers, steps);
    var s := Run(System(p, nodes, peers), START, steps);
    forall a | a in s.shown && |a.1| < RECEIVE_LIMIT
      ensures var q := ReadQuery(a.1);
              (a.0, q.file) in s.asked && exists r :: Owns(p.hash, rs, r, q.file) && q.asker == NameOf(r)
    {
      var f, r :| (a.0, f) in s.asked && Owns(p.hash, rs, r, f) && a.1 == Received(Reply(f, NameOf(r)));
      NamesAreWords(p.address, rs, r);
      assert Word((a.0, f).1);
      ShownIsReply(f, NameOf(r));
    }
  }

  /** Every answer that is sent, read word by word, gives a file and the name of its owner. */
  lemma SentNamesOwner(p: Programs, rs: seq<Registrant>, nodes: seq<Node>, out: seq<Mail>, peers: seq<Peer>,
                       steps: seq<Step>)
    requires Deployed(p, rs, nodes, out, peers) && ValidRun(System(p, nodes, peers), START, steps)
    ensures forall d :: d in Run(System(p, nodes, peers), START, steps).sent && Contains(d.text, "owner_of") ==>
              var q := ReadQuery(d.text);
              exists r :: Owns(p.hash, rs, r, q.file) && q.asker == NameOf(r)
  {
    SentIsOwner(p, rs, nodes, out, peers, steps);
    AskedAreWords(p, rs, nodes, out, peers, steps);
    var s := Run(System(p, nodes, peers), START, steps);
    forall d | d in s.sent && Contains(d.text, "owner_of")
      ensures var q := ReadQuery(d.text);
              exists r :: Owns(p.hash, rs, r, q.file) && q.asker == NameOf(r)
    {
      SendsNamedOwner(p, rs, peers, s.asked, d);
    }
  }

  lemma SendsNamedOwner(p: Programs, rs: seq<Registrant>, peers: seq<Peer>, asked: set<(nat, string)>, d: Datagram)
    requires Community(p.address, rs) && SendsOwner(p, rs, peers, asked, d) && forall a :: a in asked ==> Word(a.1)
    ensures var q := ReadQuery(d.text);
            exists r :: Owns(p.hash, rs, r, q.file) && q.asker == NameOf(r)
  {
    var file, addressee, r :| Searching(peers, asked, file, addressee) && Owns(p.hash, rs, r, file)
      && d == Datagram(p.address(addressee), Reply(file, NameOf(r)));
    var i: nat, f :| i < |peers| && (i, f) in asked && (file == f || file == HeardFile(f));
    assert Word((i, f).1);
    NamesAreWords(p.address, rs, r);
    ReplyText(file, NameOf(r));
  }

  /** A received reply that is shorter than a datagram may be is the whole reply. */
  lemma ShownIsReply(f: string, owner: string)
    requires Word(f) && Word(owner) && |Received(Reply(f, owner))| < RECEIVE_LIMIT
    ensures ReadQuery(Received(Reply(f, owner))) == Query(f, owner)
  {
    ReplyIsUncut(f, owner);
    ReplyText(f, owner);
  }

  lemma ReplyIsUncut(f: string, owner: string)
    requires Word(f) && Word(owner) && |Received(Reply(f, owner))| < RECEIVE_LIMIT
    ensures Received(Reply(f, owner)) == Reply(f, owner)
  {
    var s := Reply(f, owner);
    assert s[..|s|] == s;
    IndexOfIs(s, '\0', |s|);
  }

  lemma NamesAreWords(address: string -> Address, rs: seq<Registrant>, r: Registrant)
    requires Community(address, rs) && r in rs
    ensures Word(NameOf(r))
  {
    var i :| 0 <= i < |rs| && rs[i] == r;
    assert Fit(rs[i]);
  }

  lemma AskedAreWords(p: Programs, rs: seq<Registrant>, nodes: seq<Node>, out: seq<Mail>, peers: seq<Peer>,
                      steps: seq<Step>)
    requires Deployed(p, rs, nodes, out, peers) && ValidRun(System(p, nodes, peers), START, steps)
    ensures forall a :: a in Run(System(p, nodes, peers), START, steps).asked ==> Word(a.1)
  {
    SystemIsService(p, rs, nodes, out, peers);
    var s := Run(System(p, nodes, peers), START, steps);
    forall a | a in s.asked ensures Word(a.1) {
      AskedIsAskable(p.address, p.hash, nodes, steps, a.0, a.1);
    }
  }

  /** In every run in which no datagram is lost, every search for a file that anybody registered is answered on the
      asker's screen if its request fits a datagram, and more generally if it reaches. */
  lemma EveryFileIsFound(p: Programs, rs: seq<Registrant>, nodes: seq<Node>, out: seq<Mail>, peers: seq<Peer>,
                         steps: seq<Step>, i: nat, f: string) returns (r: Registrant)
    requires Deployed(p, rs, nodes, out, peers) && ValidRun(System(p, nodes, peers), START, steps)
    requires NothingLost(System(p, nodes, peers), steps)
    requires i < |peers| && i < |nodes| && (i, f) in Run(System(p, nodes, peers), START, steps).asked
    requires exists q :: q in rs && f in q.files
    ensures Owns(p.hash, rs, r, f)
    ensures |Request(f, peers[i].ipPort)| <= RECEIVE_LIMIT ==> Reaches(p.address, p.hash, nodes, i, f)
    ensures Reaches(p.address, p.hash, nodes, i, f) ==>
              (i, Received(Reply(f, NameOf(r)))) in Run(System(p, nodes, peers), START, steps).shown
    ensures |Reply(f, NameOf(r))| < RECEIVE_LIMIT ==>
              ReadQuery(Received(Reply(f, NameOf(r)))) == Query(f, NameOf(r))
  {
    SystemIsService(p, rs, nodes, out, peers);
    assert OwnerAt(p, rs, nodes, 0, f);
    var k := LastLister(nodes, f);
    assert OwnerAt(p, rs, nodes, k, f);
    r :| Owns(p.hash, rs, r, f) && nodes[k].ipPort == NameOf(r);
    RegisteredFilesAreFound(p.address, p.hash, nodes, steps, i, f, k);
    if |Request(f, peers[i].ipPort)| <= RECEIVE_LIMIT {
      FittingReaches(p.address, p.hash, nodes, i, f);
    }
    AskedAreWords(p, rs, nodes, out, peers, steps);
    assert Word((i, f).1);
    NamesAreWords(p.address, rs, r);
    if |Reply(f, NameOf(r))| < RECEIVE_LIMIT {
      ReplyArrivesWhole(f, NameOf(r));
      ReplyText(f, NameOf(r));
    }
  }

  /** And if it is the only search made, the right answer is sent to the asker if and only if it reaches. */
  lemma FileIsFoundExactly(p: Programs, rs: seq<Registrant>, nodes: seq<Node>, out: seq<Mail>, peers: seq<Peer>,
                           steps: seq<Step>, i: nat, f: string) returns (r: Registrant)
    requires Deployed(p, rs, nodes, out, peers) && ValidRun(System(p, nodes, peers), START, steps)
    requires NothingLost(System(p, nodes, peers), steps)
    requires i < |peers| && i < |nodes| && Run(System(p, nodes, peers), START, steps).asked == {(i, f)}
    requires exists q :: q in rs && f in q.files
    ensures Owns(p.hash, rs, r, f)
    ensures Datagram(p.address(peers[i].ipPort), Reply(f, NameOf(r))) in Run(System(p, nodes, peers), START, steps).sent
        <==> Reaches(p.address, p.hash, nodes, i, f)
  {
    SystemIsService(p, rs, nodes, out, peers);
    assert OwnerAt(p, rs, nodes, 0, f);
    var k := LastLister(nodes, f);
    assert OwnerAt(p, rs, nodes, k, f);
    r :| Owns(p.hash, rs, r, f) && nodes[k].ipPort == NameOf(r);
    FoundExactly(p.address, p.hash, nodes, steps, i, f, k);
  }
}
