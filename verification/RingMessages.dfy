/** The two flat messages of the set-up: a peer's registration, and the slice of the ring it gets back. */
module RingMessages {
  import opened Wrappers
  import opened OatHash
  import opened Text
  import opened HashRing

  // ---------- registration ----------

  /** "ip port count file file ... " */
  function RegistrationWords(ip: string, port: string, nf: int, files: seq<string>): seq<string> {
    [ip, port, PrintInt(nf)] + files
  }

  method BuildRegistration(ip: string, port: string, nf: int, files: seq<string>) returns (msg1: string)
    requires |files| == if nf < 0 then 0 else nf
    ensures msg1 == Spaced(RegistrationWords(ip, port, nf, files))
  {
    var nf_s := PrintInt(nf);
    msg1 := ip + " " + port + " " + nf_s + " ";
    SpacedThree(ip, port, nf_s);
    for i := 0 to |files|
      invariant msg1 == Spaced([ip, port, nf_s] + files[..i])
    {
      SpacedConcat([ip, port, nf_s] + files[..i], [files[i]]);
      assert Spaced([files[i]]) == files[i] + " ";
      assert [ip, port, nf_s] + files[..i + 1] == [ip, port, nf_s] + files[..i] + [files[i]];
      msg1 := msg1 + files[i] + " ";
    }
    assert files[..|files|] == files;
  }

  /** The message word by word: ip, port, the count in decimal, and then the files, a blank behind each. */
  lemma RegistrationText(ip: string, port: string, nf: int, files: seq<string>)
    ensures Spaced(RegistrationWords(ip, port, nf, files)) == ip + " " + port + " " + PrintInt(nf) + " " + Spaced(files)
    ensures files != [] ==> Spaced(files) == files[0] + " " + Spaced(files[1..])
  {
    SpacedThree(ip, port, PrintInt(nf));
    SpacedConcat([ip, port, PrintInt(nf)], files);
  }

  /** A registration of two files. */
  lemma RegistrationSample()
    ensures Spaced(RegistrationWords("10.7.10.1", "8080", 2, ["x", "y"])) == "10.7.10.1 8080 2 x y "
  {
    RegistrationText("10.7.10.1", "8080", 2, ["x", "y"]);
    SpacedTwo("x", "y");
    assert PrintInt(2) == "2";
  }

  lemma SpacedThree(a: string, b: string, c: string)
    ensures Spaced([a, b, c]) == a + " " + b + " " + c + " "
    ensures [a, b, c] + [] == [a, b, c]
  {
    assert [a, b, c][1..] == [b, c];
    SpacedTwo(b, c);
  }

  /** `count` getlines, each into a fresh variable. */
  function ReadNames(s: Stream, count: int): seq<string>
    decreases if count < 0 then 0 else count
  {
    if count <= 0 then []
    else
      var r := GetLine(s, "", ' ');
      [r.text] + ReadNames(r.stream, count - 1)
  }

  /** The three leading fields and what follows. */
  datatype Fields = Fields(ip: string, port: string, count: string, rest: Stream)

  function ReadFields(msg: string): Fields {
    var ip := GetLine(Open(msg), "", ' ');
    var port := GetLine(ip.stream, "", ' ');
    var count := GetLine(port.stream, "", ' ');
    Fields(ip.text, port.text, count.text, count.stream)
  }

  /** What the bootstrap takes from a registration. */
  datatype Registration = Registration(ip: string, port: string, myFile: seq<string>)

  /** The registration whose count was read as nf. */
  function Registered(msg: string, nf: int): Registration {
    var fields := ReadFields(msg);
    Registration(fields.ip, fields.port, ReadNames(fields.rest, nf))
  }

  /** The count; a field without a number leaves the variable as it happened to be. */
  predicate CountRead(msg: string, nf: int) {
    ScanInt(ReadFields(msg).count).Some? ==> ScanInt(ReadFields(msg).count) == Some(nf)
  }

  method ParseRegistration(msg: string) returns (r: Registration)
    ensures exists nf :: CountRead(msg, nf) && r == Registered(msg, nf)
  {
    var ip := GetLine(Open(msg), "", ' ');
    var port := GetLine(ip.stream, "", ' ');
    var nf_s := GetLine(port.stream, "", ' ');
    var count: int := *;
    var scanned := ScanInt(nf_s.text);
    if scanned.Some? {
      count := scanned.value;
    }
    assert CountRead(msg, count);
    var myFile := ParseNames(nf_s.stream, count);
    r := Registration(ip.text, port.text, myFile);
  }

  /** The loop over the file names. */
  method ParseNames(iss: Stream, nf: int) returns (myFile: seq<string>)
    ensures myFile == ReadNames(iss, nf)
  {
    var stream := iss;
    myFile := [];
    var j := 0;
    while j < nf
      invariant 0 <= j && (j <= nf || j == 0)
      invariant myFile + ReadNames(stream, nf - j) == ReadNames(iss, nf)
    {
      var file := GetLine(stream, "", ' ');
      assert ReadNames(stream, nf - j) == [file.text] + ReadNames(file.stream, nf - j - 1);
      stream := file.stream;
      myFile := myFile + [file.text];
      j := j + 1;
    }
  }

  lemma {:induction false} ReadNamesBack(text: string, files: seq<string>)
    requires Words(files) && Carries(text, files)
    ensures ReadNames(Open(text), |files|) == files
    decreases |files|
  {
    if files != [] {
      var r := NextWord(text, files);
      assert ReadNames(Open(text), |files|) == [r.text] + ReadNames(r.stream, |files| - 1);
      if |files| > 1 {
        ReadNamesBack(r.stream.rest, files[1..]);
      }
    }
  }

  lemma NextWord(text: string, words: seq<string>) returns (r: Read)
    requires Words(words) && words != [] && Carries(text, words)
    ensures r == GetLine(Open(text), "", ' ') && r.text == words[0]
    ensures |words| > 1 ==> r.stream == Open(r.stream.rest) && Carries(r.stream.rest, words[1..])
  {
    ReadWord(text, words, "");
    r := GetLine(Open(text), "", ' ');
  }

  /** From a registration of at most 1001 characters the bootstrap recovers address, count and files in order. */
  lemma RegistrationRoundTrip(ip: string, port: string, nf: int, files: seq<string>, read: int)
    requires Word(ip) && Word(port) && Words(files)
    requires |files| == if nf < 0 then 0 else nf
    requires |Spaced(RegistrationWords(ip, port, nf, files))| <= RECEIVE_LIMIT + 1
    requires CountRead(Received(Spaced(RegistrationWords(ip, port, nf, files))), read)
    ensures read == nf
    ensures Registered(Received(Spaced(RegistrationWords(ip, port, nf, files))), read)
         == Registration(ip, port, files)
  {
    var words := RegistrationWords(ip, port, nf, files);
    var msg := Received(Spaced(words));
    PrintScan(nf);
    SpacedArrives(words);
    FieldsBack(msg, words);
    assert words[3..] == files;
    if files != [] {
      ReadNamesBack(ReadFields(msg).rest.rest, files);
    }
  }

  lemma FieldsBack(msg: string, words: seq<string>)
    requires Words(words) && |words| >= 3 && Carries(msg, words)
    ensures var f := ReadFields(msg);
            && f.ip == words[0] && f.port == words[1] && f.count == words[2]
            && (|words| > 3 ==> f.rest.good && Carries(f.rest.rest, words[3..]))
  {
    var ip, port := TwoBack(msg, words, "");
    ReadWord(port.stream.rest, words[2..], "");
    assert words[2..][1..] == words[3..];
  }

  /** The first two words of a text that carries at least two. */
  lemma TwoBack(text: string, words: seq<string>, variable: string) returns (first: Read, second: Read)
    requires Words(words) && |words| >= 2 && Carries(text, words)
    ensures first == GetLine(Open(text), "", ' ') && second == GetLine(first.stream, variable, ' ')
    ensures first.text == words[0] && second.text == words[1]
    ensures |words| > 2 ==> second.stream.good && Carries(second.stream.rest, words[2..])
    ensures |words| == 2 && second.stream.good ==> second.stream.rest == ""
    ensures first.ok
  {
    first, second := GetLine(Open(text), "", ' '), GetLine(GetLine(Open(text), "", ' ').stream, variable, ' ');
    ReadWord(text, words, "");
    ReadWord(first.stream.rest, words[1..], variable);
    assert words[1..][1..] == words[2..];
  }

  /** The node takes its address apart at the colon and hashes the whole. */
  lemma SplitAddress(hash: string -> word, ip: string, port: string)
    requires ':' !in ip && ':' !in port
    ensures SetIpPort(hash, EMPTY_NODE, ip + ":" + port)
         == EMPTY_NODE.(ip := ip, port := port, ipPort := ip + ":" + port, nodeId := hash(ip + ":" + port))
  {
    GetLineToken(ip, port, "", ':');
    GetLineLast(port, "", ':');
    assert ip + ":" + port == ip + [':'] + port;
  }

  // ---------- topology ----------

  /** Key, value, key, value ... in the given order of keys. */
  function Pairs(order: seq<string>, info: map<string, string>): seq<string>
    requires forall k :: k in order ==> k in info
  {
    if order == [] then [] else [order[0], info[order[0]]] + Pairs(order[1..], info)
  }

  function TopologyWords(scr: string, pdr: string, order: seq<string>, info: map<string, string>): seq<string>
    requires forall k :: k in order ==> k in info
  {
    [scr, pdr] + Pairs(order, info)
  }

  /** `order` lists every key of the map. */
  ghost predicate Lists(order: seq<string>, info: map<string, string>) {
    forall k :: k in order <==> k in info
  }

  predicate Distinct(order: seq<string>) {
    forall i, j :: 0 <= i < j < |order| ==> order[i] != order[j]
  }

  ghost predicate MapOfWords(info: map<string, string>) {
    forall k :: k in info ==> Word(k) && Word(info[k])
  }

  lemma {:induction false} PairsAppend(order: seq<string>, info: map<string, string>, k: string)
    requires (forall x :: x in order ==> x in info) && k in info
    ensures Pairs(order + [k], info) == Pairs(order, info) + [k, info[k]]
    decreases |order|
  {
    if order != [] {
      assert (order + [k])[1..] == order[1..] + [k];
      PairsAppend(order[1..], info, k);
    } else {
      assert order + [k] == [k] && [k][1..] == [];
    }
  }

  /** The message to a node, its map walked in some order. */
  method BuildTopology(node: Node) returns (msg0: string)
    ensures exists order :: Lists(order, node.myFileInfo) && Distinct(order)
              && msg0 == Spaced(TopologyWords(node.scr, node.pdr, order, node.myFileInfo))
  {
    var msg := "";
    var left := node.myFileInfo.Keys;
    ghost var order: seq<string> := [];
    while left != {}
      invariant left <= node.myFileInfo.Keys && Distinct(order)
      invariant forall k :: k in order <==> k in node.myFileInfo && k !in left
      invariant msg == Spaced(Pairs(order, node.myFileInfo))
      decreases |left|
    {
      var k :| k in left;
      var v := node.myFileInfo[k];
      PairsAppend(order, node.myFileInfo, k);
      SpacedConcat(Pairs(order, node.myFileInfo), [k, v]);
      SpacedTwo(k, v);
      msg := msg + k + " " + v + " ";
      order := order + [k];
      left := left - {k};
    }
    msg0 := node.scr + " " + node.pdr + " " + msg;
    SpacedTwo(node.scr, node.pdr);
    SpacedConcat([node.scr, node.pdr], Pairs(order, node.myFileInfo));
    assert Lists(order, node.myFileInfo);
  }

  lemma SpacedTwo(a: string, b: string)
    ensures Spaced([a, b]) == a + " " + b + " "
  {
    assert [a, b][1..] == [b] && [b][1..] == [];
    assert Spaced([b]) == b + " ";
  }

  /** What the peer's loop reads: pairs until a key cannot be read. A value that cannot be read keeps the
      variable, so the previous value is stored again. */
  function ReadPairs(s: Stream, val: string, info: map<string, string>): map<string, string>
    decreases |s.rest|, s.good
  {
    var key := GetLine(s, "", ' ');
    if !key.ok then info
    else
      var read := GetLine(key.stream, val, ' ');
      ReadPairs(read.stream, read.text, info[key.text := read.text])
  }

  datatype Topology = Topology(scr: string, pdr: string, myFileInfo: map<string, string>)

  function ReadTopology(msg: string): Topology {
    var scr := GetLine(Open(msg), "", ' ');
    var pdr := GetLine(scr.stream, "", ' ');
    Topology(scr.text, pdr.text, ReadPairs(pdr.stream, "", map[]))
  }

  method ParseTopology(msg3: string) returns (t: Topology)
    ensures t == ReadTopology(msg3)
  {
    var scr := GetLine(Open(msg3), "", ' ');
    var pdr := GetLine(scr.stream, "", ' ');
    var stream, val := pdr.stream, "";
    var myFileInfo: map<string, string> := map[];
    var key := GetLine(stream, "", ' ');
    while key.ok
      invariant key == GetLine(stream, "", ' ')
      invariant ReadPairs(stream, val, myFileInfo) == ReadPairs(pdr.stream, "", map[])
      decreases |stream.rest|, stream.good
    {
      var read := GetLine(key.stream, val, ' ');
      val := read.text;
      myFileInfo := myFileInfo[key.text := val];
      stream := read.stream;
      key := GetLine(stream, "", ' ');
    }
    t := Topology(scr.text, pdr.text, myFileInfo);
  }

  lemma {:induction false} ReadPairsBack(text: string, order: seq<string>, info: map<string, string>,
                                         val: string, sofar: map<string, string>)
    requires MapOfWords(info) && forall k :: k in order ==> k in info
    requires Carries(text, Pairs(order, info))
    ensures var read := ReadPairs(Open(text), val, sofar);
            && (forall k :: k in order ==> k in read && read[k] == info[k])
            && (forall k :: k !in order ==> (k in read <==> k in sofar) && (k in read ==> read[k] == sofar[k]))
    decreases |order|
  {
    if order != [] {
      var k, v := order[0], info[order[0]];
      var left := NextPair(text, order, info, val, sofar);
      if |order| > 1 {
        ReadPairsBack(left.rest, order[1..], info, v, sofar[k := v]);
      } else {
        assert ReadPairs(left, v, sofar[k := v]) == sofar[k := v];
      }
      assert order == [k] + order[1..];
    } else {
      assert text == "";
    }
  }

  /** Reading the first pair of a text that carries at least one. */
  lemma NextPair(text: string, order: seq<string>, info: map<string, string>, val: string, sofar: map<string, string>)
    returns (left: Stream)
    requires MapOfWords(info) && order != [] && (forall k :: k in order ==> k in info)
    requires Carries(text, Pairs(order, info))
    ensures var k, v := order[0], info[order[0]];
            ReadPairs(Open(text), val, sofar) == ReadPairs(left, v, sofar[k := v])
    ensures |order| > 1 ==> left == Open(left.rest) && Carries(left.rest, Pairs(order[1..], info))
    ensures |order| == 1 ==> !GetLine(left, "", ' ').ok
  {
    var words := Pairs(order, info);
    PairsAreWords(order, info);
    assert words[2..] == Pairs(order[1..], info);
    var key, read := TwoBack(text, words, val);
    left := read.stream;
  }

  lemma {:induction false} PairsAreWords(order: seq<string>, info: map<string, string>)
    requires MapOfWords(info) && forall k :: k in order ==> k in info
    ensures Words(Pairs(order, info))
    decreases |order|
  {
    if order != [] {
      assert order[0] in info;
      PairsAreWords(order[1..], info);
    }
  }

  /** A text that carries the topology's words is parsed back into exactly that topology. */
  lemma ReadTopologyBack(text: string, scr: string, pdr: string, order: seq<string>, info: map<string, string>)
    requires Word(scr) && Word(pdr) && MapOfWords(info) && Lists(order, info)
    requires Carries(text, TopologyWords(scr, pdr, order, info))
    ensures ReadTopology(text) == Topology(scr, pdr, info)
  {
    var words := TopologyWords(scr, pdr, order, info);
    PairsAreWords(order, info);
    var first, second := TwoBack(text, words, "");
    assert words[2..] == Pairs(order, info);
    if second.stream.good {
      ReadPairsBack(second.stream.rest, order, info, "", map[]);
    }
  }

  /** A topology message of at most 1001 characters rebuilds the same neighbours and map at the peer. */
  lemma TopologyRoundTrip(scr: string, pdr: string, order: seq<string>, info: map<string, string>)
    requires Word(scr) && Word(pdr) && MapOfWords(info) && Lists(order, info)
    requires |Spaced(TopologyWords(scr, pdr, order, info))| <= RECEIVE_LIMIT + 1
    ensures ReadTopology(Received(Spaced(TopologyWords(scr, pdr, order, info)))) == Topology(scr, pdr, info)
  {
    var words := TopologyWords(scr, pdr, order, info);
    PairsAreWords(order, info);
    SpacedArrives(words);
    ReadTopologyBack(Received(Spaced(words)), scr, pdr, order, info);
  }

  /** A message that is too long by no more than its last value is parsed without complaint into a map that is wrong in
      exactly that value. */
  lemma TruncationCorrupts(scr: string, pdr: string, front: seq<string>, last: string, info: map<string, string>)
    requires Word(scr) && Word(pdr) && MapOfWords(info) && Lists(front + [last], info) && last !in front
    requires var size := |Spaced(TopologyWords(scr, pdr, front + [last], info))|;
             RECEIVE_LIMIT + 1 < size <= RECEIVE_LIMIT + 1 + |info[last]|
    ensures var size := |Spaced(TopologyWords(scr, pdr, front + [last], info))|;
            var kept := |info[last]| - (size - RECEIVE_LIMIT - 1);
            && ReadTopology(Received(Spaced(TopologyWords(scr, pdr, front + [last], info))))
                 == Topology(scr, pdr, info[last := info[last][..kept]])
            && info[last := info[last][..kept]] != info
  {
    var order := front + [last];
    var words := TopologyWords(scr, pdr, order, info);
    var text := Spaced(words);
    var kept := |info[last]| - (|text| - RECEIVE_LIMIT - 1);
    var cut := info[last := info[last][..kept]];
    var begin := Spaced([scr, pdr] + Pairs(front, info) + [last]);
    SpacedTopology(scr, pdr, front, last, info);
    PairsIgnore(front, info, last, info[last][..kept]);
    SpacedTopology(scr, pdr, front, last, cut);
    PairsAreWords(order, info);
    SpacedHasNoZero(words);
    assert text[..|text|] == text;
    IndexOfIs(text, '\0', |text|);
    assert Received(text) == text[..RECEIVE_LIMIT] == begin + info[last][..kept];
    var shorter := TopologyWords(scr, pdr, order, cut);
    assert Spaced(shorter) == begin + info[last][..kept] + " ";
    assert Chopped(shorter) == begin + info[last][..kept];
    ReadTopologyBack(Received(text), scr, pdr, order, cut);
    assert cut[last] != info[last];
  }

  lemma SpacedTopology(scr: string, pdr: string, front: seq<string>, last: string, info: map<string, string>)
    requires forall k :: k in front + [last] ==> k in info
    ensures (forall k :: k in front ==> k in info) && last in info
    ensures Spaced(TopologyWords(scr, pdr, front + [last], info))
         == Spaced([scr, pdr] + Pairs(front, info) + [last]) + info[last] + " "
  {
    assert forall k :: k in front ==> k in front + [last];
    assert last in front + [last];
    var begin := [scr, pdr] + Pairs(front, info) + [last];
    PairsAppend(front, info, last);
    assert TopologyWords(scr, pdr, front + [last], info) == begin + [info[last]];
    SpacedConcat(begin, [info[last]]);
    assert [info[last]][1..] == [];
    assert Spaced([info[last]]) == info[last] + " ";
  }

  lemma {:induction false} PairsIgnore(order: seq<string>, info: map<string, string>, k: string, v: string)
    requires (forall x :: x in order ==> x in info) && k !in order
    ensures Pairs(order, info[k := v]) == Pairs(order, info)
    decreases |order|
  {
    if order != [] {
      assert order[0] != k;
      PairsIgnore(order[1..], info, k, v);
    }
  }
}
