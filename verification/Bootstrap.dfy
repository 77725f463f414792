/** The bootstrap node's main: collect registrations, build the ring, place the files, and mail every peer its part. */
module Bootstraps {
  import opened OatHash
  import opened Text
  import opened HashRing
  import opened RingMessages

  datatype Mail = Mail(ip: string, port: int, text: string)

  /** The node made of a registration. */
  function NodeOf(hash: string -> word, r: Registration): Node {
    SetIpPort(hash, EMPTY_NODE, r.ip + ":" + r.port).(myFile := r.myFile)
  }

  /** The node made of a received message, with a count the message allows. */
  ghost predicate IsNodeOf(hash: string -> word, message: string, node: Node) {
    exists nf :: CountRead(message, nf) && node == NodeOf(hash, Registered(message, nf))
  }

  ghost predicate Collected(hash: string -> word, messages: seq<string>, nodes: seq<Node>) {
    |messages| == |nodes| && forall i :: 0 <= i < |nodes| ==> IsNodeOf(hash, messages[i], nodes[i])
  }

  /** The registered nodes in some sorted order. */
  ghost predicate IsRing(hash: string -> word, messages: seq<string>, nodes: seq<Node>) {
    Sorted(Ids(nodes))
    && exists registered :: Collected(hash, messages, registered) && multiset(nodes) == multiset(registered)
  }

  /** The mail for a node, its map walked in some order. */
  ghost predicate IsMailFor(mail: Mail, node: Node) {
    && mail.ip == node.ip && mail.port == Atoi(node.port)
    && exists order :: Lists(order, node.myFileInfo) && Distinct(order)
         && mail.text == Spaced(TopologyWords(node.scr, node.pdr, order, node.myFileInfo))
  }

  ghost predicate Mailed(out: seq<Mail>, nodes: seq<Node>) {
    |out| == |nodes| && forall i :: 0 <= i < |out| ==> IsMailFor(out[i], nodes[i])
  }

  method CollectOne(hash: string -> word, message: string) returns (node: Node)
    ensures IsNodeOf(hash, message, node)
  {
    var r := ParseRegistration(message);
    node := NodeOf(hash, r);
  }

  method Collect(hash: string -> word, messages: seq<string>) returns (all: array<Node>)
    ensures fresh(all) && Collected(hash, messages, all[..])
  {
    all := new Node[|messages|](_ => EMPTY_NODE);
    for i := 0 to |messages|
      invariant Collected(hash, messages[..i], all[..i])
    {
      var node := CollectOne(hash, messages[i]);
      CollectedGrows(hash, messages[..i], all[..i], messages[i], node);
      all[i] := node;
      assert messages[..i + 1] == messages[..i] + [messages[i]];
      assert all[..i + 1] == all[..i] + [node];
    }
    assert messages[..|messages|] == messages && all[..|messages|] == all[..];
  }

  lemma CollectedGrows(hash: string -> word, messages: seq<string>, nodes: seq<Node>, message: string, node: Node)
    requires Collected(hash, messages, nodes) && IsNodeOf(hash, message, node)
    ensures Collected(hash, messages + [message], nodes + [node])
  {
  }

  method MailAll(all: array<Node>) returns (out: seq<Mail>)
    ensures Mailed(out, all[..])
  {
    out := [];
    for i := 0 to all.Length
      invariant |out| == i && forall k :: 0 <= k < i ==> IsMailFor(out[k], all[k])
    {
      var msg0 := BuildTopology(all[i]);
      out := out + [Mail(all[i].ip, Atoi(all[i].port), msg0)];
    }
  }

  /** Some sorted arrangement of the registered nodes becomes the ring, and every node on it is mailed its
      neighbours and its slice of the index. */
  method Bootstrap(hash: string -> word, messages: seq<string>) returns (out: seq<Mail>)
    ensures exists nodes :: IsRing(hash, messages, nodes) && Mailed(out, Placed(hash, Linked(nodes)))
  {
    var all := Collect(hash, messages);
    ghost var registered := all[..];
    SortNodes(all);
    ghost var nodes := all[..];
    assert IsRing(hash, messages, nodes) by {
      assert Collected(hash, messages, registered);
    }
    LinkRing(all);
    LinkedKeepsIds(nodes);
    PlaceFiles(all, hash);
    out := MailAll(all);
  }

  /** From a peer's registration to its node: address, port, name, hash and files are the peer's own. */
  lemma RegistrantBecomesNode(hash: string -> word, ip: string, port: string, nf: int, files: seq<string>, node: Node)
    requires Word(ip) && Word(port) && ':' !in ip && ':' !in port && Words(files)
    requires |files| == if nf < 0 then 0 else nf
    requires |Spaced(RegistrationWords(ip, port, nf, files))| <= RECEIVE_LIMIT + 1
    requires IsNodeOf(hash, Received(Spaced(RegistrationWords(ip, port, nf, files))), node)
    ensures node == Node(ip, port, ip + ":" + port, hash(ip + ":" + port), "", "", files, map[])
  {
    var message := Received(Spaced(RegistrationWords(ip, port, nf, files)));
    var read :| CountRead(message, read) && node == NodeOf(hash, Registered(message, read));
    RegistrationRoundTrip(ip, port, nf, files, read);
    SplitAddress(hash, ip, port);
  }

  lemma LinkedKeepsIds(nodes: seq<Node>)
    ensures Ids(Linked(nodes)) == Ids(nodes)
  {
  }

  ghost predicate NodeOfWords(node: Node) {
    Word(node.ipPort) && Words(node.myFile) && node.myFileInfo == map[]
  }

  /** Every peer whose mail is at most 1001 characters long ends up with the neighbours and the slice that the
      bootstrap computed for it. */
  lemma PeerLearnsItsPlace(hash: string -> word, nodes: seq<Node>, i: nat, mail: Mail)
    requires i < |nodes| && forall k :: 0 <= k < |nodes| ==> NodeOfWords(nodes[k])
    requires IsMailFor(mail, Placed(hash, Linked(nodes))[i]) && |mail.text| <= RECEIVE_LIMIT + 1
    ensures var node := Placed(hash, Linked(nodes))[i];
            ReadTopology(Received(mail.text)) == Topology(node.scr, node.pdr, node.myFileInfo)
  {
    var node := Placed(hash, Linked(nodes))[i];
    SlicesAreWords(hash, nodes, i);
    var order :| Lists(order, node.myFileInfo)
      && mail.text == Spaced(TopologyWords(node.scr, node.pdr, order, node.myFileInfo));
    TopologyRoundTrip(node.scr, node.pdr, order, node.myFileInfo);
  }

  lemma SlicesAreWords(hash: string -> word, nodes: seq<Node>, i: nat)
    requires i < |nodes| && forall k :: 0 <= k < |nodes| ==> NodeOfWords(nodes[k])
    ensures var node := Placed(hash, Linked(nodes))[i];
            Word(node.scr) && Word(node.pdr) && MapOfWords(node.myFileInfo)
  {
    var linked := Linked(nodes);
    var node := Placed(hash, linked)[i];
    assert NodeOfWords(nodes[Next(|nodes|, i)]) && NodeOfWords(nodes[Previous(|nodes|, i)]);
    forall f | f in node.myFileInfo ensures Word(f) && Word(node.myFileInfo[f]) {
      assert NodeOfWords(nodes[i]);
      HeldSlice(hash, linked, i, f);
      IndexOfWords(linked, f);
    }
  }

  lemma IndexOfWords(nodes: seq<Node>, f: string)
    requires forall k :: 0 <= k < |nodes| ==> Word(nodes[k].ipPort) && Words(nodes[k].myFile)
    requires f in Index(Listings(nodes))
    ensures Word(f) && Word(Index(Listings(nodes))[f])
  {
    IndexIsLastLister(nodes, f);
    var i := LastLister(nodes, f);
  }
}
