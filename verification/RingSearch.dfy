/** Searching the ring: peers answer or pass requests on as text datagrams over a network that may lose,
    reorder and duplicate. A datagram once sent may be delivered any number of times, or never. */
module RingSearch {
  import opened Text
  import opened RingMessages

  datatype Peer = Peer(ipPort: string, scr: string, myFileInfo: map<string, string>)

  datatype Address = Address(ip: string, port: int)

  datatype Datagram = Datagram(to: Address, text: string)

  /** The address a name is sent to: the text before the colon, and the number after it as a 16-bit port. */
  function AddressOf(ipPort: string): Address {
    var ip := GetLine(Open(ipPort), "", ':');
    var port := GetLine(ip.stream, "", ':');
    Address(ip.text, Atoi(port.text) % 0x1_0000)
  }

  lemma AddressOfSplit(ip: string, port: string)
    requires ':' !in ip && ':' !in port
    ensures AddressOf(ip + ":" + port) == Address(ip, Atoi(port) % 0x1_0000)
  {
    GetLineToken(ip, port, "", ':');
    GetLineLast(port, "", ':');
    assert ip + ":" + port == ip + [':'] + port;
  }

  /** A printed port is read back, so peers with different hosts or ports have different addresses. */
  lemma AddressOfName(ip: string, port: nat)
    requires ':' !in ip && port < 0x1_0000
    ensures AddressOf(ip + ":" + PrintInt(port)) == Address(ip, port)
  {
    PrintScan(port);
    AddressOfSplit(ip, PrintInt(port));
  }

  predicate At(s: string, p: string, i: int) {
    0 <= i <= |s| - |p| && s[i..i + |p|] == p
  }

  ghost predicate Contains(s: string, p: string) {
    exists i :: At(s, p, i)
  }

  function Request(file: string, asker: string): string { "search " + file + " for " + asker }

  function Reply(file: string, owner: string): string { "owner_of " + file + " is " + owner }

  /** search_func: answers the asker if the file is in this peer's map, else passes the request on unchanged.
      How a name becomes an address is a parameter; in the programs it is AddressOf. */
  function SearchFunc(address: string -> Address, req: string, node: Peer): Datagram {
    var q := ReadQuery(req);
    if q.file in node.myFileInfo then Datagram(address(q.asker), Reply(q.file, node.myFileInfo[q.file]))
    else Datagram(address(node.scr), req)
  }

  datatype Query = Query(file: string, asker: string)

  /** The second and the fourth word of a request; each variable is read into twice. */
  function ReadQuery(req: string): Query {
    var w1 := GetLine(Open(req), "", ' ');
    var w2 := GetLine(w1.stream, w1.text, ' ');
    var w3 := GetLine(w2.stream, "", ' ');
    var w4 := GetLine(w3.stream, w3.text, ' ');
    Query(w2.text, w4.text)
  }

  datatype Action = Show(text: string) | Send(datagram: Datagram) | Ignore

  /** The dispatch of the receive loop. */
  ghost function Dispatch(address: string -> Address, req: string, node: Peer): Action {
    if Contains(req, "owner_of") then Show(req)
    else if Contains(req, "search") then Send(SearchFunc(address, req, node))
    else Ignore
  }

  // ---------- the texts ----------

  /** A blank-free pattern does not straddle a blank. */
  lemma NoStraddle(a: string, b: string, p: string, i: int)
    requires p != "" && ' ' !in p && At(a + " " + b, p, i)
    ensures At(a, p, i) || At(b, p, i - |a| - 1)
  {
    var s := a + " " + b;
    var window := s[i..i + |p|];
    assert s[|a|] == ' ';
    assert forall x :: i <= x < i + |p| ==> s[x] == window[x - i] && window[x - i] in p;
    if i + |p| <= |a| {
      assert a[i..i + |p|] == window;
    } else {
      assert b[i - |a| - 1..i - |a| - 1 + |p|] == window;
    }
  }

  lemma ContainsSplits(a: string, b: string, p: string)
    requires p != "" && ' ' !in p
    ensures Contains(a + " " + b, p) <==> Contains(a, p) || Contains(b, p)
  {
    var s := a + " " + b;
    if Contains(s, p) {
      var i :| At(s, p, i);
      NoStraddle(a, b, p, i);
    }
    if Contains(a, p) {
      var i :| At(a, p, i);
      assert s[i..i + |p|] == a[i..i + |p|];
      assert At(s, p, i);
    }
    if Contains(b, p) {
      var i :| At(b, p, i);
      assert s[|a| + 1 + i..|a| + 1 + i + |p|] == b[i..i + |p|];
      assert At(s, p, |a| + 1 + i);
    }
  }

  lemma RequestIsNoAnswer(file: string, asker: string)
    ensures Contains(Request(file, asker), "owner_of") <==> Contains(file, "owner_of") || Contains(asker, "owner_of")
  {
    var rest := "for" + " " + asker;
    var tail := file + " " + rest;
    assert Request(file, asker) == "search" + " " + tail;
    ContainsSplits("for", asker, "owner_of");
    ContainsSplits(file, rest, "owner_of");
    ContainsSplits("search", tail, "owner_of");
  }

  /** A request is handled as a search if and only if neither the file name nor the asker contains "owner_of". */
  lemma RequestIsDispatched(address: string -> Address, file: string, asker: string, node: Peer)
    ensures Dispatch(address, Request(file, asker), node) == Send(SearchFunc(address, Request(file, asker), node))
        <==> !Contains(file, "owner_of") && !Contains(asker, "owner_of")
  {
    RequestIsNoAnswer(file, asker);
    assert At(Request(file, asker), "search", 0);
  }

  lemma ReplyIsShown(address: string -> Address, file: string, owner: string, node: Peer)
    ensures Dispatch(address, Received(Reply(file, owner)), node) == Show(Received(Reply(file, owner)))
  {
    var r := Received(Reply(file, owner));
    var s := Reply(file, owner);
    var head := "owner_of ";
    assert s == head + (file + " is " + owner);
    assert forall x :: 0 <= x < 9 ==> s[x] == head[x] && head[x] != '\0';
    assert |r| >= 9 && r == s[..|r|];
    assert r[0..8] == head[0..8];
    assert At(r, "owner_of", 0);
  }

  /** search_func on a well-formed request. */
  lemma SearchRequest(address: string -> Address, file: string, asker: string, node: Peer)
    requires Word(file) && Word(asker)
    ensures SearchFunc(address, Request(file, asker), node)
         == if file in node.myFileInfo then Datagram(address(asker), Reply(file, node.myFileInfo[file]))
            else Datagram(address(node.scr), Request(file, asker))
  {
    assert Request(file, asker) == "search" + [' '] + (file + [' '] + ("for" + [' '] + asker));
    ReadWhole(file, asker);
  }

  lemma RequestText(file: string, asker: string)
    requires Word(file) && Word(asker)
    ensures Carries(Request(file, asker), ["search", file, "for", asker])
    ensures Words(["search", file, "for", asker])
    ensures |Request(file, asker)| <= RECEIVE_LIMIT ==> Received(Request(file, asker)) == Request(file, asker)
  {
    var words := ["search", file, "for", asker];
    SpacedTwo("for", asker);
    assert words[1..] == [file, "for", asker] && words[1..][1..] == ["for", asker];
    assert Spaced(words) == "search" + " " + (file + " " + ("for" + " " + asker + " "));
    assert Chopped(words) == Request(file, asker);
    IndexOfIs(Request(file, asker), '\0', |Request(file, asker)|);
  }

  // ---------- requests that were cut ----------

  /** How much of a file name fits a received request. */
  const FILE_ROOM := RECEIVE_LIMIT - |"search "|

  /** The file name a receiver finds in a request. */
  function HeardFile(file: string): string { Take(file, FILE_ROOM) }

  /** The asker's name it finds there: what is left of it, or of the word in front of it, which the reader's variable
      then still holds. */
  function HeardAsker(file: string, asker: string): string {
    var room := FILE_ROOM - |file|;
    if room >= 5 then Take(asker, room - 5)
    else if room >= 1 then "for"[..room - 1]
    else ""
  }

  /** A request that fits is heard as it was meant. */
  lemma FittingIsHeard(file: string, asker: string)
    requires |Request(file, asker)| <= RECEIVE_LIMIT
    ensures HeardFile(file) == file && HeardAsker(file, asker) == asker
  {
  }

  /** What a peer does with a request it has received, cut or not. */
  function HeardSearch(address: string -> Address, file: string, asker: string, node: Peer): Datagram {
    var heard := HeardFile(file);
    if heard in node.myFileInfo then Datagram(address(HeardAsker(file, asker)), Reply(heard, node.myFileInfo[heard]))
    else Datagram(address(node.scr), Received(Request(file, asker)))
  }

  lemma ReceivedRequest(file: string, asker: string)
    requires Word(file) && Word(asker)
    ensures Received(Request(file, asker)) == Take(Request(file, asker), RECEIVE_LIMIT)
    ensures Received(Received(Request(file, asker))) == Received(Request(file, asker))
  {
    var req := Request(file, asker);
    RequestText(file, asker);
    assert '\0' !in req;
    assert req[..|req|] == req;
    IndexOfIs(req, '\0', |req|);
    var cut := Take(req, RECEIVE_LIMIT);
    assert cut[..|cut|] == cut;
    IndexOfIs(cut, '\0', |cut|);
  }

  /** The words of a request cut within its file name, within "for", or within the asker's name. */
  lemma CutRequest(file: string, asker: string)
    requires Word(file) && Word(asker)
    ensures var cut, heard := Take(Request(file, asker), RECEIVE_LIMIT), HeardFile(file);
            var room := FILE_ROOM - |file|;
            if room >= 5 then cut == "search" + [' '] + (heard + [' '] + ("for" + [' '] + HeardAsker(file, asker)))
            else if room >= 1 then cut == "search" + [' '] + (heard + [' '] + HeardAsker(file, asker))
            else cut == "search" + [' '] + heard
  {
    var req := Request(file, asker);
    var head := "search" + [' '];
    assert req == head + (file + " for " + asker);
    if FILE_ROOM - |file| >= 5 {
      assert req == (head + (file + [' '] + ("for" + [' ']))) + asker;
    } else if FILE_ROOM - |file| >= 1 {
      assert req == (head + (file + [' '])) + ("for" + (" " + asker));
      assert ("for" + (" " + asker))[..FILE_ROOM - |file| - 1] == "for"[..FILE_ROOM - |file| - 1];
    } else {
      assert req[..RECEIVE_LIMIT] == head + (file + " for " + asker)[..FILE_ROOM];
    }
  }

  /** The second and the fourth of four words. */
  lemma ReadFour(one: string, two: string, three: string, four: string)
    requires ' ' !in one && ' ' !in two && ' ' !in three && ' ' !in four
    ensures ReadQuery(one + [' '] + (two + [' '] + (three + [' '] + four))) == Query(two, four)
  {
    GetLineToken(one, two + [' '] + (three + [' '] + four), "", ' ');
    GetLineToken(two, three + [' '] + four, one, ' ');
    GetLineToken(three, four, "", ' ');
    GetLineLast(four, three, ' ');
  }

  lemma ReadWhole(file: string, asker: string)
    requires ' ' !in file && ' ' !in asker
    ensures ReadQuery("search" + [' '] + (file + [' '] + ("for" + [' '] + asker))) == Query(file, asker)
  {
    ReadFour("search", file, "for", asker);
  }

  /** A reply is the words owner_of, the file, is, and the owner; whoever reads it word by word finds file and owner. */
  lemma ReplyText(file: string, owner: string)
    requires Word(file) && Word(owner)
    ensures Carries(Reply(file, owner), ["owner_of", file, "is", owner])
    ensures ReadQuery(Reply(file, owner)) == Query(file, owner)
  {
    FourWords("owner_of", file, "is", owner);
    assert Reply(file, owner) == "owner_of" + [' '] + (file + [' '] + ("is" + [' '] + owner));
    ReadFour("owner_of", file, "is", owner);
  }

  lemma FourWords(one: string, two: string, three: string, four: string)
    ensures Chopped([one, two, three, four]) == one + [' '] + (two + [' '] + (three + [' '] + four))
  {
    var words := [one, two, three, four];
    ChoppedCons(words);
    ChoppedCons(words[1..]);
    ChoppedCons(words[2..]);
    ChoppedCons(words[3..]);
    assert words[1..][1..] == words[2..] && words[2..][1..] == words[3..];
  }

  /** A reply names one file and one owner. */
  lemma ReplyNamesBoth(f: string, owner: string, h: string, other: string)
    requires Word(f) && Word(owner) && Word(h) && Word(other) && Reply(f, owner) == Reply(h, other)
    ensures f == h && owner == other
  {
    ReplyText(f, owner);
    ReplyText(h, other);
  }

  /** What the receive loop does with any text: show it if owner_of occurs, else search if search does, else nothing. */
  lemma DispatchedExactly(address: string -> Address, req: string, node: Peer)
    ensures Dispatch(address, req, node) == Show(req) <==> Contains(req, "owner_of")
    ensures Dispatch(address, req, node).Send? <==> !Contains(req, "owner_of") && Contains(req, "search")
    ensures Dispatch(address, req, node).Ignore? <==> !Contains(req, "owner_of") && !Contains(req, "search")
  {
  }

  lemma ReadWithoutAsker(file: string, rest: string)
    requires ' ' !in file && ' ' !in rest
    ensures ReadQuery("search" + [' '] + (file + [' '] + rest)) == Query(file, rest)
  {
    GetLineToken("search", file + [' '] + rest, "", ' ');
    GetLineToken(file, rest, "search", ' ');
    GetLineLast(rest, "", ' ');
  }

  lemma ReadFileOnly(file: string)
    requires ' ' !in file
    ensures ReadQuery("search" + [' '] + file) == Query(file, "")
  {
    GetLineToken("search", file, "", ' ');
    GetLineLast(file, "search", ' ');
  }

  /** What a receiver reads in a request, whatever its length. */
  lemma QueryHeard(file: string, asker: string)
    requires Word(file) && Word(asker)
    ensures ReadQuery(Take(Request(file, asker), RECEIVE_LIMIT)) == Query(HeardFile(file), HeardAsker(file, asker))
  {
    CutRequest(file, asker);
    if FILE_ROOM - |file| >= 5 {
      ReadWhole(HeardFile(file), HeardAsker(file, asker));
    } else if FILE_ROOM - |file| >= 1 {
      ReadWithoutAsker(HeardFile(file), HeardAsker(file, asker));
    } else {
      ReadFileOnly(HeardFile(file));
    }
  }

  lemma ContainsGrows(a: string, n: nat, p: string)
    requires n <= |a| && Contains(a[..n], p)
    ensures Contains(a, p)
  {
    var i :| At(a[..n], p, i);
    assert a[i..i + |p|] == a[..n][i..i + |p|];
    assert At(a, p, i);
  }

  lemma ReceivedIsNoAnswer(file: string, asker: string)
    requires Word(file) && Word(asker) && !Contains(file, "owner_of") && !Contains(asker, "owner_of")
    ensures !Contains(Received(Request(file, asker)), "owner_of")
  {
    var req, cut := Request(file, asker), Received(Request(file, asker));
    ReceivedRequest(file, asker);
    RequestIsNoAnswer(file, asker);
    if Contains(cut, "owner_of") {
      ContainsGrows(req, |cut|, "owner_of");
    }
  }

  /** The dispatch loop on a received request: never mistaken for an answer, always searched for. */
  lemma RequestIsHeard(address: string -> Address, file: string, asker: string, node: Peer)
    requires Word(file) && Word(asker) && !Contains(file, "owner_of") && !Contains(asker, "owner_of")
    ensures Dispatch(address, Received(Request(file, asker)), node) == Send(HeardSearch(address, file, asker, node))
  {
    var req, cut := Request(file, asker), Received(Request(file, asker));
    ReceivedRequest(file, asker);
    QueryHeard(file, asker);
    ReceivedIsNoAnswer(file, asker);
    assert cut[0..6] == req[0..6] == "search";
    assert At(cut, "search", 0);
  }

  /** A reply tells which file it is about. */
  lemma ReplyNamesFile(f: string, owner: string, h: string, other: string)
    requires ' ' !in f && ' ' !in h && Reply(f, owner) == Reply(h, other)
    ensures f == h
  {
    var s, t := f + [' '] + ("is " + owner), h + [' '] + ("is " + other);
    assert Reply(f, owner) == "owner_of " + s && Reply(h, other) == "owner_of " + t;
    assert s == Reply(f, owner)[9..] == t;
    assert s[..|f|] == f && t[..|h|] == h;
    IndexOfIs(s, ' ', |f|);
    IndexOfIs(t, ' ', |h|);
  }

  /** And it is received whole, with the owner's name to its end, if and only if it fits a datagram. */
  lemma ReplyArrivesWhole(file: string, owner: string)
    requires Word(file) && Word(owner)
    ensures Received(Reply(file, owner)) == Reply(file, owner) <==> |Reply(file, owner)| <= RECEIVE_LIMIT
  {
    var s := Reply(file, owner);
    assert s[..|s|] == s;
    IndexOfIs(s, '\0', |s|);
  }
}
