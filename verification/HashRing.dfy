/** The bootstrap node's ring: nodes sorted by hash, each key owned by its hash successor, neighbours linked,
    and every registered file placed at the owner of its hash. */
module HashRing {
  import opened Wrappers
  import opened Arithmetic
  import opened OatHash
  import opened Text

  datatype Node = Node(
    ip: string,
    port: string,
    ipPort: string,
    nodeId: word,
    scr: string,
    pdr: string,
    myFile: seq<string>,
    myFileInfo: map<string, string>)

  const EMPTY_NODE := Node("", "", "", 0, "", "", [], map[])

  function BytesOf(s: string): seq<byte> { seq(|s|, i requires 0 <= i < |s| => s[i] as int % 256) }

  /** The hash of a name, which passes through a C string. The ring takes its hash as a parameter; in the
      programs it is this one. */
  function HashName(name: string): word { Hash(BytesOf(CString(name))) }

  /** The node id of a name ends at its first zero character, and is the hash of the characters' codes. */
  lemma NameEndsAtZero(name: string, rest: string)
    requires '\0' !in name
    ensures HashName(name) == Hash(BytesOf(name)) && HashName(name + "\0" + rest) == Hash(BytesOf(name))
  {
    assert name[..|name|] == name;
    IndexOfIs(name, '\0', |name|);
    var longer := name + "\0" + rest;
    assert longer[..|name|] == name;
    IndexOfIs(longer, '\0', |name|);
  }

  /** Names of one length that differ in exactly one 8-bit character have different ids. */
  lemma NamesApart(one: string, other: string, k: nat)
    requires '\0' !in one && '\0' !in other && |one| == |other| && k < |one|
    requires one[k] != other[k] && one[k] as int < 256 && other[k] as int < 256
    requires forall i :: 0 <= i < |one| && i != k ==> one[i] == other[i]
    ensures HashName(one) != HashName(other)
  {
    NameEndsAtZero(one, "");
    NameEndsAtZero(other, "");
    CodesApart(one, other, k, BytesOf(one), BytesOf(other));
  }

  lemma CodesApart(one: string, other: string, k: nat, p: seq<byte>, q: seq<byte>)
    requires |one| == |other| && k < |one| && p == BytesOf(one) && q == BytesOf(other)
    requires one[k] != other[k] && one[k] as int < 256 && other[k] as int < 256
    requires forall i :: 0 <= i < |one| && i != k ==> one[i] == other[i]
    ensures Hash(p) != Hash(q)
  {
    assert p[k] == one[k] as int && q[k] == other[k] as int;
    NoSingleCharacterCollision(p, q, k);
  }

  lemma CodeOfLetterA()
    ensures BytesOf("a") == [97] && '\0' !in "a"
  {
  }

  /** The id of the one-letter name "a". */
  lemma IdOfLetterA()
    ensures HashName("a") == 29161854018
  {
    NameEndsAtZero("a", "");
    CodeOfLetterA();
    HashOfLetterA(BytesOf("a"));
  }

  function SetIpPort(hash: string -> word, node: Node, ipPort: string): Node {
    var ip := GetLine(Open(ipPort), node.ip, ':');
    var port := GetLine(ip.stream, node.port, ':');
    node.(ipPort := ipPort, ip := ip.text, port := port.text, nodeId := hash(ipPort), scr := "", pdr := "")
  }

  function Ids(nodes: seq<Node>): seq<word> {
    seq(|nodes|, i requires 0 <= i < |nodes| => nodes[i].nodeId)
  }

  predicate Sorted(ids: seq<word>) { forall i, j :: 0 <= i < j < |ids| ==> ids[i] <= ids[j] }

  // ---------- who owns a key ----------

  /** The first position whose id is not below the key; the length if there is none. */
  function FirstAtLeast(ids: seq<word>, key: word): (k: nat)
    ensures k <= |ids|
    ensures forall i :: 0 <= i < k ==> ids[i] < key
    ensures k < |ids| ==> key <= ids[k]
  {
    if ids == [] || key <= ids[0] then 0
    else 1 + FirstAtLeast(ids[1..], key)
  }

  /** The hash successor of the key on the ring. */
  function Home(ids: seq<word>, key: word): (k: nat)
    ensures ids != [] ==> k < |ids|
  {
    var k := FirstAtLeast(ids, key);
    if k < |ids| then k else 0
  }

  /** The circular arc (id of the predecessor, id of i]; the first node's arc runs over the top of the key space. */
  predicate InArc(ids: seq<word>, i: nat, key: word)
    requires i < |ids|
  {
    if i > 0 then ids[i - 1] < key <= ids[i] else key <= ids[0] || ids[|ids| - 1] < key
  }

  /** On a sorted ring every key has exactly one owner, the node whose arc it lies in. Of nodes with equal ids
      only the first owns anything. */
  lemma OwnerIsArc(ids: seq<word>, key: word)
    requires Sorted(ids) && ids != []
    ensures forall i: nat :: i < |ids| ==> (InArc(ids, i, key) <==> i == Home(ids, key))
    ensures forall i :: 0 < i < |ids| && ids[i - 1] == ids[i] ==> Home(ids, key) != i
  {
  }

  /** What map_file_to_node computes on any ring: the first node carrying the least id not below the key, or
      the first node when all ids are below it. */
  ghost predicate Selected(ids: seq<word>, key: word, k: nat) {
    if forall i :: 0 <= i < |ids| ==> ids[i] < key then k == 0
    else
      && k < |ids|
      && key <= ids[k]
      && (forall i :: 0 <= i < |ids| && key <= ids[i] ==> ids[k] <= ids[i])
      && (forall i :: 0 <= i < k ==> ids[i] != ids[k])
  }

  /** On a sorted ring that is the hash successor and nothing else. */
  lemma SelectedIsHome(ids: seq<word>, key: word, k: nat)
    requires Sorted(ids)
    ensures Selected(ids, key, k) <==> k == Home(ids, key)
  {
    var f := FirstAtLeast(ids, key);
    if f < |ids| {
      assert key <= ids[f];
    }
  }

  function Insert(x: word, s: seq<word>): seq<word> {
    if s == [] || x <= s[0] then [x] + s else [s[0]] + Insert(x, s[1..])
  }

  function SortWords(s: seq<word>): seq<word> {
    if s == [] then [] else Insert(s[0], SortWords(s[1..]))
  }

  lemma {:induction false} InsertSorted(x: word, s: seq<word>)
    requires Sorted(s)
    ensures Sorted(Insert(x, s))
    ensures forall p :: p in Insert(x, s) <==> p == x || p in s
  {
    if s != [] && s[0] < x {
      InsertSorted(x, s[1..]);
      var rest := Insert(x, s[1..]);
      assert s == [s[0]] + s[1..];
      forall j | 0 <= j < |rest| ensures s[0] <= rest[j] {
        assert rest[j] in rest;
      }
    }
  }

  lemma {:induction false} SortWordsSorts(s: seq<word>)
    ensures Sorted(SortWords(s))
    ensures forall p :: p in SortWords(s) <==> p in s
  {
    if s != [] {
      SortWordsSorts(s[1..]);
      InsertSorted(s[0], SortWords(s[1..]));
      assert s == [s[0]] + s[1..];
    }
  }

  /** The position of the node a key is mapped to; None stands for NULL, which is never returned. */
  method MapFileToNode(key: word, all: array<Node>) returns (dest: Option<nat>)
    ensures dest.Some? && Selected(Ids(all[..]), key, dest.value)
  {
    ghost var ids := Ids(all[..]);
    var poss: seq<word> := [];
    for i := 0 to all.Length
      invariant forall p :: p in poss <==> exists j :: 0 <= j < i && ids[j] == p && key <= p
    {
      if all[i].nodeId >= key {
        poss := poss + [all[i].nodeId];
      }
      assert ids[i] == all[i].nodeId;
    }
    ghost var found := poss;
    SortWordsSorts(poss);
    poss := SortWords(poss);
    if |poss| == 0 {
      assert forall i :: 0 <= i < |ids| && key <= ids[i] ==> ids[i] in found;
      return Some(0);
    }
    assert poss[0] in found;
    for i := 0 to all.Length
      invariant forall j :: 0 <= j < i ==> ids[j] != poss[0]
    {
      if poss[0] == all[i].nodeId {
        assert ids[i] == poss[0];
        assert forall j :: 0 <= j < |ids| && key <= ids[j] ==> ids[j] in poss;
        return Some(i);
      }
    }
    dest := None;
  }

  // ---------- sorting and linking ----------

  method Swap(all: array<Node>, i: nat, j: nat)
    requires i < all.Length && j < all.Length
    modifies all
    ensures all[..] == old(all[..])[i := old(all[j])][j := old(all[i])]
    ensures multiset(all[..]) == multiset(old(all[..]))
  {
    all[i], all[j] := all[j], all[i];
  }

  method LeastFrom(all: array<Node>, i: nat) returns (least: nat)
    requires i < all.Length
    ensures i <= least < all.Length
    ensures forall q :: i <= q < all.Length ==> all[least].nodeId <= all[q].nodeId
  {
    least := i;
    for j := i + 1 to all.Length
      invariant i <= least < all.Length
      invariant forall q :: i <= q < j ==> all[least].nodeId <= all[q].nodeId
    {
      if all[j].nodeId < all[least].nodeId {
        least := j;
      }
    }
  }

  /** The library sort: some sorted arrangement of the same nodes. */
  method SortNodes(all: array<Node>)
    modifies all
    ensures Sorted(Ids(all[..]))
    ensures multiset(all[..]) == multiset(old(all[..]))
  {
    for i := 0 to all.Length
      invariant forall p, q :: 0 <= p < q < all.Length && p < i ==> all[p].nodeId <= all[q].nodeId
      invariant multiset(all[..]) == multiset(old(all[..]))
    {
      var least := LeastFrom(all, i);
      ghost var before := all[..];
      Swap(all, i, least);
      SwapKeepsPrefix(before, all[..], i, least);
    }
  }

  lemma SwapKeepsPrefix(before: seq<Node>, after: seq<Node>, i: nat, least: nat)
    requires i <= least < |before|
    requires after == before[i := before[least]][least := before[i]]
    requires forall p, q :: 0 <= p < q < |before| && p < i ==> before[p].nodeId <= before[q].nodeId
    requires forall q :: i <= q < |before| ==> before[least].nodeId <= before[q].nodeId
    ensures forall p, q :: 0 <= p < q < |after| && p < i + 1 ==> after[p].nodeId <= after[q].nodeId
  {
  }

  function Next(n: nat, i: nat): nat
    requires i < n
  {
    if i + 1 < n then i + 1 else 0
  }

  function Previous(n: nat, i: nat): nat
    requires i < n
  {
    if i > 0 then i - 1 else n - 1
  }

  lemma ModularNeighbours(n: nat, i: nat)
    requires i < n
    ensures (i + 1) % n == Next(n, i) && (i - 1 + n) % n == Previous(n, i)
  {
    ModInRange(i + 1, n);
    ModInRange(i - 1 + n, n);
  }

  lemma ModInRange(x: nat, n: nat)
    requires n > 0
    ensures x < n ==> x % n == x
    ensures n <= x < 2 * n ==> x % n == x - n
  {
    if n <= x < 2 * n {
      assert x / n == 1;
    }
  }

  /** The ring with every node told its neighbours. */
  function Linked(nodes: seq<Node>): seq<Node> {
    seq(|nodes|, i requires 0 <= i < |nodes| => LinkedNode(nodes, i))
  }

  function LinkedNode(nodes: seq<Node>, i: nat): Node
    requires i < |nodes|
  {
    nodes[i].(scr := nodes[Next(|nodes|, i)].ipPort, pdr := nodes[Previous(|nodes|, i)].ipPort)
  }

  method LinkRing(all: array<Node>)
    modifies all
    ensures all[..] == Linked(old(all[..]))
  {
    var n := all.Length;
    ghost var nodes := all[..];
    for i := 0 to n
      invariant forall k :: 0 <= k < i ==> all[k] == LinkedNode(nodes, k)
      invariant forall k :: i <= k < n ==> all[k] == nodes[k]
      invariant forall k :: 0 <= k < n ==> all[k].ipPort == nodes[k].ipPort
    {
      ModularNeighbours(n, i);
      all[i] := all[i].(scr := all[(i + 1) % n].ipPort);
      all[i] := all[i].(pdr := all[(i - 1 + n) % n].ipPort);
    }
  }

  predicate DistinctNames(nodes: seq<Node>) {
    forall i, j :: 0 <= i < j < |nodes| ==> nodes[i].ipPort != nodes[j].ipPort
  }

  /** The node a name belongs to. */
  function Locate(nodes: seq<Node>, ipPort: string): (k: nat)
    ensures k <= |nodes|
    ensures k < |nodes| ==> nodes[k].ipPort == ipPort
    ensures forall i :: 0 <= i < k ==> nodes[i].ipPort != ipPort
  {
    if nodes == [] || nodes[0].ipPort == ipPort then 0 else 1 + Locate(nodes[1..], ipPort)
  }

  /** Where following successors leads after k steps; the length of the ring if a name leads nowhere. */
  function Walk(nodes: seq<Node>, i: nat, k: nat): nat {
    if k == 0 then i
    else
      var before := Walk(nodes, i, k - 1);
      if before < |nodes| then Locate(nodes, nodes[before].scr) else |nodes|
  }

  /** The position k steps further on, for at most one round: (i + k) mod n. */
  function Around(n: nat, i: nat, k: nat): nat
    requires i < n && k <= n
  {
    if i + k < n then i + k else i + k - n
  }

  /** Steps from i to j in successor direction: (j - i) mod n. */
  function Distance(n: nat, i: nat, j: nat): nat
    requires i < n && j < n
  {
    if i <= j then j - i else j - i + n
  }

  lemma LinkedNeighbours(nodes: seq<Node>, i: nat)
    requires i < |nodes|
    ensures Linked(nodes)[i].scr == nodes[Next(|nodes|, i)].ipPort
    ensures Linked(nodes)[Next(|nodes|, i)].pdr == nodes[i].ipPort
    ensures Linked(nodes)[i].ipPort == nodes[i].ipPort
  {
  }

  lemma LocateNode(ring: seq<Node>, i: nat)
    requires DistinctNames(ring) && i < |ring|
    ensures Locate(ring, ring[i].ipPort) == i
  {
  }

  lemma LinkedNames(nodes: seq<Node>)
    ensures DistinctNames(nodes) ==> DistinctNames(Linked(nodes))
    ensures Successive(Linked(nodes))
  {
    forall i | 0 <= i < |nodes| ensures Linked(nodes)[i].scr == Linked(nodes)[Next(|nodes|, i)].ipPort {
      LinkedNeighbours(nodes, i);
    }
  }

  predicate Successive(ring: seq<Node>) {
    forall i {:trigger ring[i].scr} :: 0 <= i < |ring| ==> ring[i].scr == ring[Next(|ring|, i)].ipPort
  }

  /** Where the successor's name leads. */
  function StepFrom(ring: seq<Node>, p: nat): nat
    requires p < |ring|
  {
    Locate(ring, ring[p].scr)
  }

  /** Every name leads to the next position. */
  predicate Circular(ring: seq<Node>) {
    forall p: nat {:trigger StepFrom(ring, p)} :: p < |ring| ==> StepFrom(ring, p) == Next(|ring|, p)
  }

  lemma SuccessiveIsCircular(ring: seq<Node>)
    requires DistinctNames(ring) && Successive(ring)
    ensures Circular(ring)
  {
    forall p: nat | p < |ring| ensures StepFrom(ring, p) == Next(|ring|, p) {
      assert ring[p].scr == ring[Next(|ring|, p)].ipPort;
      LocateNode(ring, Next(|ring|, p));
    }
  }

  lemma {:induction false} WalkGoesRound(ring: seq<Node>, i: nat, k: nat)
    requires Circular(ring) && i < |ring| && k <= |ring|
    ensures Walk(ring, i, k) == Around(|ring|, i, k)
    decreases k
  {
    if k > 0 {
      WalkGoesRound(ring, i, k - 1);
      var p := Around(|ring|, i, k - 1);
      assert Walk(ring, i, k) == StepFrom(ring, p) == Next(|ring|, p);
    }
  }

  /** The links form one cycle through all nodes, and predecessors undo successors. */
  lemma RingIsOneCycle(nodes: seq<Node>, i: nat, j: nat)
    requires DistinctNames(nodes) && i < |nodes| && j < |nodes|
    ensures var ring := Linked(nodes);
            && Walk(ring, i, |nodes|) == i
            && (forall k: nat :: k < |nodes| ==> (Walk(ring, i, k) == j <==> k == Distance(|nodes|, i, j)))
            && (ring[i].scr == ring[j].ipPort <==> ring[j].pdr == ring[i].ipPort)
  {
    LinkedNames(nodes);
    SuccessiveIsCircular(Linked(nodes));
    WalkGoesRound(Linked(nodes), i, |nodes|);
    forall k: nat | k < |nodes| ensures Walk(Linked(nodes), i, k) == j <==> k == Distance(|nodes|, i, j) {
      WalkGoesRound(Linked(nodes), i, k);
    }
    LinksMutual(nodes, i, j);
  }

  lemma LinksMutual(nodes: seq<Node>, i: nat, j: nat)
    requires DistinctNames(nodes) && i < |nodes| && j < |nodes|
    ensures Linked(nodes)[i].scr == Linked(nodes)[j].ipPort <==> Linked(nodes)[j].pdr == Linked(nodes)[i].ipPort
  {
    var n := |nodes|;
    var before := Previous(n, j);
    LinkedNeighbours(nodes, i);
    LinkedNeighbours(nodes, before);
    LocateNode(nodes, i);
    LocateNode(nodes, j);
    LocateNode(nodes, before);
    LocateNode(nodes, Next(n, i));
  }

  // ---------- placing files ----------

  /** All (file, owner) pairs in the order the placement loops meet them. */
  function Listings(nodes: seq<Node>): seq<(string, string)> {
    if nodes == [] then []
    else
      var last := nodes[|nodes| - 1];
      Listings(nodes[..|nodes| - 1]) + Offers(last.myFile, last.ipPort)
  }

  function Offers(files: seq<string>, ipPort: string): seq<(string, string)> {
    seq(|files|, j requires 0 <= j < |files| => (files[j], ipPort))
  }

  /** The index a single machine would keep: the latest listing of a file wins. */
  function Index(listings: seq<(string, string)>): map<string, string> {
    if listings == [] then map[]
    else
      var last := listings[|listings| - 1];
      Index(listings[..|listings| - 1])[last.0 := last.1]
  }

  /** The part of an index that belongs to node k. */
  function Slice(hash: string -> word, ids: seq<word>, index: map<string, string>, k: nat): map<string, string> {
    map f | f in index && Home(ids, hash(f)) == k :: index[f]
  }

  function Placed(hash: string -> word, nodes: seq<Node>): seq<Node> { PlacedAfter(hash, nodes, Listings(nodes)) }

  function PlacedAfter(hash: string -> word, nodes: seq<Node>, listings: seq<(string, string)>): seq<Node> {
    seq(|nodes|, k requires 0 <= k < |nodes| =>
      nodes[k].(myFileInfo := nodes[k].myFileInfo + Slice(hash, Ids(nodes), Index(listings), k)))
  }

  lemma SliceOfUpdate(hash: string -> word, ids: seq<word>, index: map<string, string>,
                      f: string, owner: string, k: nat)
    ensures Slice(hash, ids, index[f := owner], k)
         == if Home(ids, hash(f)) == k then Slice(hash, ids, index, k)[f := owner] else Slice(hash, ids, index, k)
  {
  }

  lemma PlaceOneAt(hash: string -> word, nodes: seq<Node>, listings: seq<(string, string)>,
                   f: string, owner: string, k: nat)
    requires k < |nodes|
    ensures var before := PlacedAfter(hash, nodes, listings)[k];
            PlacedAfter(hash, nodes, listings + [(f, owner)])[k]
              == if k == Home(Ids(nodes), hash(f)) then before.(myFileInfo := before.myFileInfo[f := owner])
                 else before
  {
    var more := listings + [(f, owner)];
    assert more[..|listings|] == listings;
    assert Index(more) == Index(listings)[f := owner];
    SliceOfUpdate(hash, Ids(nodes), Index(listings), f, owner, k);
    UpdateOfSum(nodes[k].myFileInfo, Slice(hash, Ids(nodes), Index(listings), k), f, owner);
  }

  lemma UpdateOfSum(a: map<string, string>, b: map<string, string>, f: string, owner: string)
    ensures (a + b)[f := owner] == a + b[f := owner]
  {
  }

  lemma PlaceOne(hash: string -> word, nodes: seq<Node>, listings: seq<(string, string)>, f: string, owner: string)
    requires nodes != []
    ensures var dest := Home(Ids(nodes), hash(f));
            var before := PlacedAfter(hash, nodes, listings);
            PlacedAfter(hash, nodes, listings + [(f, owner)])
              == before[dest := before[dest].(myFileInfo := before[dest].myFileInfo[f := owner])]
  {
    var dest := Home(Ids(nodes), hash(f));
    var before, after := PlacedAfter(hash, nodes, listings), PlacedAfter(hash, nodes, listings + [(f, owner)]);
    var expected := before[dest := before[dest].(myFileInfo := before[dest].myFileInfo[f := owner])];
    forall k | 0 <= k < |nodes| ensures after[k] == expected[k] {
      PlaceOneAt(hash, nodes, listings, f, owner, k);
    }
    assert after == expected;
  }

  lemma PlacedNothing(hash: string -> word, nodes: seq<Node>)
    ensures PlacedAfter(hash, nodes, []) == nodes
  {
    forall k | 0 <= k < |nodes| ensures PlacedAfter(hash, nodes, [])[k] == nodes[k] {
      assert Slice(hash, Ids(nodes), Index([]), k) == map[];
    }
  }

  lemma PlacedKeepsIds(hash: string -> word, nodes: seq<Node>, listings: seq<(string, string)>)
    ensures Ids(PlacedAfter(hash, nodes, listings)) == Ids(nodes)
  {
  }

  method PlaceFiles(all: array<Node>, hash: string -> word)
    requires Sorted(Ids(all[..]))
    modifies all
    ensures all[..] == Placed(hash, old(all[..]))
  {
    ghost var nodes := all[..];
    PlacedNothing(hash, nodes);
    assert nodes[..0] == [];
    for i := 0 to all.Length
      invariant all[..] == PlacedAfter(hash, nodes, Listings(nodes[..i]))
    {
      assert all[i].ipPort == nodes[i].ipPort && all[i].myFile == nodes[i].myFile;
      PlaceFilesOf(all, hash, all[i].myFile, all[i].ipPort, nodes, Listings(nodes[..i]));
      assert nodes[..i + 1][..i] == nodes[..i];
    }
    assert nodes[..all.Length] == nodes;
  }

  /** The inner loop: the files of one node. */
  method PlaceFilesOf(all: array<Node>, hash: string -> word, myFile: seq<string>, ipPort: string,
                      ghost nodes: seq<Node>, ghost earlier: seq<(string, string)>)
    requires Sorted(Ids(nodes)) && nodes != []
    requires all[..] == PlacedAfter(hash, nodes, earlier)
    modifies all
    ensures all[..] == PlacedAfter(hash, nodes, earlier + Offers(myFile, ipPort))
  {
    assert earlier + Offers(myFile[..0], ipPort) == earlier;
    for j := 0 to |myFile|
      invariant all[..] == PlacedAfter(hash, nodes, earlier + Offers(myFile[..j], ipPort))
    {
      ghost var listings := earlier + Offers(myFile[..j], ipPort);
      assert earlier + Offers(myFile[..j + 1], ipPort) == listings + [(myFile[j], ipPort)];
      PlaceFile(all, hash, myFile[j], ipPort, nodes, listings);
    }
    assert myFile[..|myFile|] == myFile;
  }

  method PlaceFile(all: array<Node>, hash: string -> word, file: string, ipPort: string,
                   ghost nodes: seq<Node>, ghost listings: seq<(string, string)>)
    requires Sorted(Ids(nodes)) && nodes != []
    requires all[..] == PlacedAfter(hash, nodes, listings)
    modifies all
    ensures all[..] == PlacedAfter(hash, nodes, listings + [(file, ipPort)])
  {
    PlacedKeepsIds(hash, nodes, listings);
    var dest := MapFileToNode(hash(file), all);
    SelectedIsHome(Ids(nodes), hash(file), dest.value);
    PlaceOne(hash, nodes, listings, file, ipPort);
    var node := all[dest.value];
    all[dest.value] := node.(myFileInfo := node.myFileInfo[file := ipPort]);
  }

  // ---------- the placement is the simple index, cut up ----------

  lemma {:induction false} IndexOffers(listings: seq<(string, string)>, files: seq<string>, ipPort: string, f: string)
    ensures var index := Index(listings + Offers(files, ipPort));
            && (f in files ==> f in index && index[f] == ipPort)
            && (f !in files ==> (f in index <==> f in Index(listings)))
            && (f !in files && f in index ==> index[f] == Index(listings)[f])
    decreases |files|
  {
    if files == [] {
      assert listings + Offers(files, ipPort) == listings;
    } else {
      var front, last := files[..|files| - 1], files[|files| - 1];
      IndexOffers(listings, front, ipPort, f);
      var longer := listings + Offers(files, ipPort);
      assert longer[..|longer| - 1] == listings + Offers(front, ipPort);
      assert longer[|longer| - 1] == (last, ipPort);
      assert files == front + [last];
    }
  }

  /** Some node listed f. */
  predicate Listed(nodes: seq<Node>, f: string) {
    exists i :: 0 <= i < |nodes| && f in nodes[i].myFile
  }

  /** Node k is the last on the ring to have listed f. */
  predicate LastToList(nodes: seq<Node>, k: nat, f: string) {
    k < |nodes| && f in nodes[k].myFile && forall j :: k < j < |nodes| ==> f !in nodes[j].myFile
  }

  /** A file is in the index exactly when some node listed it, and its value is the last such node in ring order. */
  lemma {:induction false} IndexIsLastLister(nodes: seq<Node>, f: string)
    ensures f in Index(Listings(nodes)) <==> Listed(nodes, f)
    ensures forall i: nat :: LastToList(nodes, i, f) ==> Index(Listings(nodes))[f] == nodes[i].ipPort
    decreases |nodes|
  {
    if nodes != [] {
      var front, last := nodes[..|nodes| - 1], nodes[|nodes| - 1];
      IndexIsLastLister(front, f);
      IndexOffers(Listings(front), last.myFile, last.ipPort, f);
      assert forall i :: 0 <= i < |front| ==> front[i] == nodes[i];
      assert forall i: nat :: LastToList(nodes, i, f) ==> i == |front| || LastToList(front, i, f);
    }
  }

  /** The last lister of a listed file. */
  lemma LastLister(nodes: seq<Node>, f: string) returns (k: nat)
    requires Listed(nodes, f)
    ensures LastToList(nodes, k, f)
  {
    k := |nodes| - 1;
    while f !in nodes[k].myFile
      invariant 0 <= k < |nodes|
      invariant forall j :: k < j < |nodes| ==> f !in nodes[j].myFile
      invariant exists i :: 0 <= i <= k && f in nodes[i].myFile
      decreases k
    {
      k := k - 1;
    }
  }

  /** A node that starts with an empty map ends up with its slice of the index. */
  lemma HeldSlice(hash: string -> word, nodes: seq<Node>, k: nat, f: string)
    requires k < |nodes| && nodes[k].myFileInfo == map[]
    ensures var info := Placed(hash, nodes)[k].myFileInfo;
            var index := Index(Listings(nodes));
            && (f in info <==> f in index && k == Home(Ids(nodes), hash(f)))
            && (f in info ==> info[f] == index[f])
  {
  }

  predicate Unplaced(nodes: seq<Node>) {
    forall i :: 0 <= i < |nodes| ==> nodes[i].myFileInfo == map[]
  }

  /** Placement and the simple index agree. A node knows f exactly when some node listed f and its hash lies in the
      node's own arc, and what it knows is the name of the last node on the ring that listed it. */
  lemma PlacementAgrees(hash: string -> word, nodes: seq<Node>, k: nat, f: string)
    requires Sorted(Ids(nodes)) && Unplaced(nodes) && k < |nodes|
    ensures var info := Placed(hash, nodes)[k].myFileInfo;
            && (f in info <==> Listed(nodes, f) && InArc(Ids(nodes), k, hash(f)))
            && (forall i: nat :: f in info && LastToList(nodes, i, f) ==> info[f] == nodes[i].ipPort)
  {
    HeldSlice(hash, nodes, k, f);
    OwnerIsArc(Ids(nodes), hash(f));
    IndexIsLastLister(nodes, f);
  }

  /** The maps are disjoint, and together they hold exactly the listed files. */
  lemma EachFileHeldOnce(hash: string -> word, nodes: seq<Node>, f: string)
    requires Sorted(Ids(nodes)) && Unplaced(nodes)
    ensures Listed(nodes, f) <==> exists k :: 0 <= k < |nodes| && f in Placed(hash, nodes)[k].myFileInfo
    ensures forall i, j :: 0 <= i < j < |nodes| ==>
              f !in Placed(hash, nodes)[i].myFileInfo || f !in Placed(hash, nodes)[j].myFileInfo
  {
    forall k | 0 <= k < |nodes|
      ensures f in Placed(hash, nodes)[k].myFileInfo <==> Listed(nodes, f) && k == Home(Ids(nodes), hash(f))
    {
      PlacementAgrees(hash, nodes, k, f);
      OwnerIsArc(Ids(nodes), hash(f));
    }
    if Listed(nodes, f) {
      var home := Home(Ids(nodes), hash(f));
      assert f in Placed(hash, nodes)[home].myFileInfo;
    }
  }
}
