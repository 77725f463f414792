/** Topology messages longer than a datagram's receive limit: what a peer makes of one that was cut, and exactly when
    it still rebuilds the bootstrap's topology. */
module RingTruncation {
  import opened Text
  import opened RingMessages

  // ---------- reading a text that was cut ----------

  /** The first pair of a text cut after n characters. Right behind a key that is not empty the text still yields an
      entry for it: with the value read before. */
  lemma FirstPairCut(text: string, k: string, v: string, more: string, n: nat,
                     val: string, sofar: map<string, string>)
    requires Word(k) && Word(v) && text == k + " " + v + " " + more && n <= |text|
    ensures var read := ReadPairs(Open(text[..n]), val, sofar);
            if n >= |k| + |v| + 2 then
              read == ReadPairs(Open(more[..n - |k| - |v| - 2]), v, sofar[k := v])
            else if n > |k| then read == sofar[k := v[..n - |k| - 1]]
            else if n > 0 then read == sofar[k[..n] := val]
            else read == sofar
  {
    var cutText := text[..n];
    if n >= |k| + |v| + 2 {
      var left := more[..n - |k| - |v| - 2];
      assert cutText == k + [' '] + (v + [' '] + left);
      GetLineToken(k, v + [' '] + left, "", ' ');
      GetLineToken(v, left, val, ' ');
    } else if n > |k| {
      var cut := v[..n - |k| - 1];
      assert cutText == k + [' '] + cut;
      GetLineToken(k, cut, "", ' ');
      GetLineLast(cut, val, ' ');
      assert ReadPairs(Stream("", false), cut, sofar[k := cut]) == sofar[k := cut];
    } else {
      assert cutText == k[..n];
      GetLineLast(cutText, "", ' ');
      assert ReadPairs(Stream("", false), val, sofar[cutText := val]) == sofar[cutText := val];
    }
  }

  /** The two names in front of the pairs, likewise. */
  lemma NamesCut(text: string, scr: string, pdr: string, more: string, n: nat)
    requires Word(scr) && Word(pdr) && text == scr + " " + pdr + " " + more && n <= |text|
    ensures var t := ReadTopology(text[..n]);
            if n >= |scr| + |pdr| + 2 then
              t == Topology(scr, pdr, ReadPairs(Open(more[..n - |scr| - |pdr| - 2]), "", map[]))
            else if n > |scr| then t == Topology(scr, pdr[..n - |scr| - 1], map[])
            else t == Topology(scr[..n], "", map[])
  {
    var cutText := text[..n];
    if n >= |scr| + |pdr| + 2 {
      var left := more[..n - |scr| - |pdr| - 2];
      assert cutText == scr + [' '] + (pdr + [' '] + left);
      GetLineToken(scr, pdr + [' '] + left, "", ' ');
      GetLineToken(pdr, left, "", ' ');
    } else if n > |scr| {
      var cut := pdr[..n - |scr| - 1];
      assert cutText == scr + [' '] + cut;
      GetLineToken(scr, cut, "", ' ');
      GetLineLast(cut, "", ' ');
    } else {
      assert cutText == scr[..n];
      GetLineLast(cutText, "", ' ');
    }
  }

  // ---------- pairs ----------

  function Last(order: seq<string>): string
    requires order != []
  {
    order[|order| - 1]
  }

  predicate BeginsAnother(name: string, others: seq<string>) {
    exists i :: 0 <= i < |others| && name <= others[i]
  }

  /** The value read before the last one: that of the last key but one, or what the variable held at first. */
  function ValueBefore(order: seq<string>, info: map<string, string>, val: string): string
    requires order != [] && forall k :: k in order ==> k in info
  {
    if |order| == 1 then val else info[order[|order| - 2]]
  }

  /** The map with all pairs read. */
  function Filled(sofar: map<string, string>, order: seq<string>, info: map<string, string>): map<string, string>
    requires forall k :: k in order ==> k in info
    decreases |order|
  {
    if order == [] then sofar else Filled(sofar[order[0] := info[order[0]]], order[1..], info)
  }

  /** How many characters the pairs take up to the end of the last key. */
  function ToLastKey(order: seq<string>, info: map<string, string>): int
    requires order != [] && forall k :: k in order ==> k in info
  {
    |Spaced(Pairs(order, info))| - 2 - |info[Last(order)]|
  }

  /** A cut right behind the last key, whose value happens to be the one read before. */
  predicate LuckyCut(order: seq<string>, info: map<string, string>, n: nat, val: string)
    requires order != [] && forall k :: k in order ==> k in info
  {
    n == ToLastKey(order, info) && Last(order) != "" && info[Last(order)] == ValueBefore(order, info, val)
  }

  /** What is read of the pairs cut after n characters. */
  function ReadCut(order: seq<string>, info: map<string, string>, n: nat, val: string, sofar: map<string, string>)
    : map<string, string>
    requires (forall k :: k in order ==> k in info) && n <= |Spaced(Pairs(order, info))|
  {
    ReadPairs(Open(Spaced(Pairs(order, info))[..n]), val, sofar)
  }

  ghost predicate Sendable(order: seq<string>, info: map<string, string>) {
    MapOfWords(info) && Distinct(order) && forall k :: k in order ==> k in info
  }

  lemma SpacedPairs(order: seq<string>, info: map<string, string>)
    requires order != [] && forall k :: k in order ==> k in info
    ensures Spaced(Pairs(order, info))
         == order[0] + " " + info[order[0]] + " " + Spaced(Pairs(order[1..], info))
  {
    var k, rest := order[0], Pairs(order[1..], info);
    SpacedTwo(k, info[k]);
    SpacedConcat([k, info[k]], rest);
  }

  lemma {:induction false} LastKeyFits(order: seq<string>, info: map<string, string>)
    requires order != [] && forall k :: k in order ==> k in info
    ensures ToLastKey(order, info) >= |Last(order)|
    decreases |order|
  {
    SpacedPairs(order, info);
    if |order| > 1 {
      LastKeyFits(order[1..], info);
    }
  }

  /** Taking the first pair off. */
  lemma RestOfPairs(order: seq<string>, info: map<string, string>)
    requires |order| > 1 && Sendable(order, info)
    ensures var k, rest := order[0], order[1..];
            && Sendable(rest, info)
            && Last(rest) == Last(order)
            && ToLastKey(order, info) == |k| + |info[k]| + 2 + ToLastKey(rest, info)
            && ToLastKey(rest, info) >= |Last(rest)|
            && forall val: string :: ValueBefore(order, info, val) == ValueBefore(rest, info, info[k])
  {
    SpacedPairs(order, info);
    LastKeyFits(order[1..], info);
  }

  lemma {:induction false} FilledKnows(sofar: map<string, string>, order: seq<string>, info: map<string, string>)
    requires forall k :: k in order ==> k in info
    ensures var all := Filled(sofar, order, info);
            && (forall k :: k in order ==> k in all && all[k] == info[k])
            && (forall k :: k !in order ==> (k in all <==> k in sofar) && (k in sofar ==> all[k] == sofar[k]))
    decreases |order|
  {
    if order != [] {
      assert order == [order[0]] + order[1..];
      FilledKnows(sofar[order[0] := info[order[0]]], order[1..], info);
    }
  }

  predicate Unread(order: seq<string>, sofar: map<string, string>) {
    forall k :: k in order ==> k !in sofar
  }

  lemma RestIsUnread(order: seq<string>, val: string, sofar: map<string, string>)
    requires order != [] && Distinct(order) && Unread(order, sofar)
    ensures Unread(order[1..], sofar[order[0] := val])
  {
    assert order[0] !in order[1..];
    assert forall k :: k in order[1..] ==> k in order;
  }

  /** Pairs that lose more than their last blank are read back whole if and only if the cut is lucky. */
  lemma {:induction false} PairsCut(order: seq<string>, info: map<string, string>, n: nat,
                                    val: string, sofar: map<string, string>)
    requires order != [] && Sendable(order, info) && Unread(order, sofar)
    requires n < |Spaced(Pairs(order, info))| - 1
    ensures ReadCut(order, info, n, val, sofar) == Filled(sofar, order, info)
        <==> LuckyCut(order, info, n, val)
    decreases |order|
  {
    var k := order[0];
    if |order| == 1 {
      LastPairCut(order, info, n, val, sofar);
    } else if n >= |k| + |info[k]| + 2 {
      var left := LaterCut(order, info, n, val, sofar);
      PairsCut(order[1..], info, left, info[k], sofar[k := info[k]]);
    } else {
      PairLost(order, info, n, val, sofar);
    }
  }

  /** A cut behind the first pair is a cut of the others. */
  lemma LaterCut(order: seq<string>, info: map<string, string>, n: nat, val: string, sofar: map<string, string>)
    returns (left: nat)
    requires |order| > 1 && Sendable(order, info) && Unread(order, sofar)
    requires |order[0]| + |info[order[0]]| + 2 <= n < |Spaced(Pairs(order, info))| - 1
    ensures var k, rest := order[0], order[1..];
            && Sendable(rest, info) && Unread(rest, sofar[k := info[k]])
            && left < |Spaced(Pairs(rest, info))| - 1
            && ReadCut(order, info, n, val, sofar) == ReadCut(rest, info, left, info[k], sofar[k := info[k]])
            && Filled(sofar, order, info) == Filled(sofar[k := info[k]], rest, info)
            && (LuckyCut(order, info, n, val) <==> LuckyCut(rest, info, left, info[k]))
            && (n < ToLastKey(order, info) <==> left < ToLastKey(rest, info))
  {
    var k := order[0];
    left := n - |k| - |info[k]| - 2;
    FirstPairRead(order, info, n, val, sofar);
    RestIsUnread(order, info[k], sofar);
    RestOfPairs(order, info);
    SpacedPairs(order, info);
    assert ValueBefore(order, info, val) == ValueBefore(order[1..], info, info[k]);
  }

  lemma LastPairCut(order: seq<string>, info: map<string, string>, n: nat, val: string, sofar: map<string, string>)
    requires |order| == 1 && Sendable(order, info) && order[0] !in sofar
    requires n < |Spaced(Pairs(order, info))| - 1
    ensures ReadCut(order, info, n, val, sofar) == Filled(sofar, order, info)
        <==> LuckyCut(order, info, n, val)
  {
    var k, v := order[0], info[order[0]];
    SpacedPairs(order, info);
    FirstPairCut(Spaced(Pairs(order, info)), k, v, "", n, val, sofar);
    assert Filled(sofar[k := v], order[1..], info) == sofar[k := v];
    if n > |k| {
      assert sofar[k := v[..n - |k| - 1]][k] != v;
    } else if n == |k| && n > 0 {
      assert k[..n] == k;
      assert sofar[k := val][k] == val;
    } else if n > 0 {
      assert k !in sofar[k[..n] := val];
    }
  }

  /** A cut within a pair that is not the last loses some key. */
  lemma PairLost(order: seq<string>, info: map<string, string>, n: nat, val: string, sofar: map<string, string>)
    requires |order| > 1 && Sendable(order, info) && Unread(order, sofar)
    requires n < |order[0]| + |info[order[0]]| + 2 && n <= |Spaced(Pairs(order, info))|
    ensures var read := ReadCut(order, info, n, val, sofar);
            && (order[0] !in read || order[1] !in read)
            && (Last(order) in read ==> Last(order) <= order[0])
            && read != Filled(sofar, order, info)
    ensures n < ToLastKey(order, info) && !LuckyCut(order, info, n, val)
  {
    SpacedPairs(order, info);
    RestOfPairs(order, info);
    FirstPairCut(Spaced(Pairs(order, info)), order[0], info[order[0]], Spaced(Pairs(order[1..], info)), n, val, sofar);
    assert order[0] in order && order[1] in order;
    FilledKnows(sofar, order, info);
  }

  /** Some key is lost, and the last one unless it is the beginning of another. */
  ghost predicate Loses(order: seq<string>, read: map<string, string>)
    requires order != []
  {
    && (exists i :: 0 <= i < |order| && order[i] !in read)
    && (Last(order) in read ==> BeginsAnother(Last(order), order[..|order| - 1]))
  }

  /** A cut before the end of the last key loses a key. */
  lemma {:induction false} KeyLost(order: seq<string>, info: map<string, string>, n: nat,
                                   val: string, sofar: map<string, string>)
    requires order != [] && Sendable(order, info) && Unread(order, sofar)
    requires n < ToLastKey(order, info)
    ensures Loses(order, ReadCut(order, info, n, val, sofar))
    decreases |order|
  {
    var k := order[0];
    if |order| == 1 {
      OnlyKeyLost(order, info, n, val, sofar);
    } else if n >= |k| + |info[k]| + 2 {
      var left := LaterCut(order, info, n, val, sofar);
      KeyLost(order[1..], info, left, info[k], sofar[k := info[k]]);
      RestLoses(order, ReadCut(order, info, n, val, sofar));
    } else {
      PairLost(order, info, n, val, sofar);
      PairLoses(order, ReadCut(order, info, n, val, sofar));
    }
  }

  lemma PairLoses(order: seq<string>, read: map<string, string>)
    requires |order| > 1 && (order[0] !in read || order[1] !in read)
    requires Last(order) in read ==> Last(order) <= order[0]
    ensures Loses(order, read)
  {
    assert order[..|order| - 1][0] == order[0];
  }

  lemma RestLoses(order: seq<string>, read: map<string, string>)
    requires |order| > 1 && Loses(order[1..], read)
    ensures Loses(order, read)
  {
    var rest := order[1..];
    var i :| 0 <= i < |rest| && rest[i] !in read;
    assert order[i + 1] == rest[i];
    LaterInOrder(order, Last(order));
  }

  lemma FirstPairRead(order: seq<string>, info: map<string, string>, n: nat, val: string, sofar: map<string, string>)
    requires order != [] && Sendable(order, info)
    requires |order[0]| + |info[order[0]]| + 2 <= n <= |Spaced(Pairs(order, info))|
    ensures var k, left := order[0], n - |order[0]| - |info[order[0]]| - 2;
            && left <= |Spaced(Pairs(order[1..], info))|
            && ReadCut(order, info, n, val, sofar) == ReadCut(order[1..], info, left, info[k], sofar[k := info[k]])
  {
    var k, more := order[0], Spaced(Pairs(order[1..], info));
    var v := info[k];
    SpacedPairs(order, info);
    FirstPairCut(Spaced(Pairs(order, info)), k, v, more, n, val, sofar);
  }

  lemma LaterInOrder(order: seq<string>, name: string)
    requires |order| > 1
    ensures BeginsAnother(name, order[1..][..|order| - 2]) ==> BeginsAnother(name, order[..|order| - 1])
  {
    var rest := order[1..][..|order| - 2];
    if BeginsAnother(name, rest) {
      var i :| 0 <= i < |rest| && name <= rest[i];
      assert order[..|order| - 1][i + 1] == rest[i];
    }
  }

  lemma OnlyKeyLost(order: seq<string>, info: map<string, string>, n: nat, val: string, sofar: map<string, string>)
    requires |order| == 1 && Sendable(order, info) && order[0] !in sofar && n < ToLastKey(order, info)
    ensures Loses(order, ReadCut(order, info, n, val, sofar))
  {
    SpacedPairs(order, info);
    FirstPairCut(Spaced(Pairs(order, info)), order[0], info[order[0]], "", n, val, sofar);
  }

  // ---------- whole messages ----------

  function Message(scr: string, pdr: string, order: seq<string>, info: map<string, string>): string
    requires forall k :: k in order ==> k in info
  {
    Spaced(TopologyWords(scr, pdr, order, info))
  }

  /** The messages beyond the limit that are read right all the same. */
  predicate Lucky(scr: string, pdr: string, order: seq<string>, info: map<string, string>)
    requires forall k :: k in order ==> k in info
  {
    if order == [] then |scr| == RECEIVE_LIMIT && pdr == ""
    else
      && |Message(scr, pdr, order, info)| == RECEIVE_LIMIT + 2 + |info[Last(order)]|
      && Last(order) != ""
      && info[Last(order)] == ValueBefore(order, info, "")
  }

  lemma MessageText(scr: string, pdr: string, order: seq<string>, info: map<string, string>)
    requires Word(scr) && Word(pdr) && Sendable(order, info)
    ensures Message(scr, pdr, order, info) == scr + " " + pdr + " " + Spaced(Pairs(order, info))
    ensures |Message(scr, pdr, order, info)| > RECEIVE_LIMIT ==>
              Received(Message(scr, pdr, order, info)) == Message(scr, pdr, order, info)[..RECEIVE_LIMIT]
  {
    var text := Message(scr, pdr, order, info);
    SpacedConcat([scr, pdr], Pairs(order, info));
    SpacedTwo(scr, pdr);
    PairsAreWords(order, info);
    SpacedHasNoZero(TopologyWords(scr, pdr, order, info));
    assert text[..|text|] == text;
    IndexOfIs(text, '\0', |text|);
  }

  /** A message with two files. */
  lemma MessageSample()
    ensures Message("b:2", "c:3", ["x", "y"], map["x" := "a:1", "y" := "d:4"]) == "b:2 c:3 x a:1 y d:4 "
  {
    var info := map["x" := "a:1", "y" := "d:4"];
    SpacedTwo("b:2", "c:3");
    SpacedConcat(["b:2", "c:3"], Pairs(["x", "y"], info));
    assert ["x", "y"][1..] == ["y"] && ["y"][1..] == [];
    SpacedPairs(["x", "y"], info);
    SpacedPairs(["y"], info);
  }

  lemma FilledAll(order: seq<string>, info: map<string, string>)
    requires Lists(order, info)
    ensures Filled(map[], order, info) == info
  {
    FilledKnows(map[], order, info);
  }

  /** Exactly which messages the peer reads right, whatever their length: those of at most 1001 characters, and
      those cut right behind the last key when its value repeats the one before. */
  lemma RebuiltExactly(scr: string, pdr: string, order: seq<string>, info: map<string, string>)
    requires Word(scr) && Word(pdr) && MapOfWords(info) && Lists(order, info) && Distinct(order)
    ensures ReadTopology(Received(Message(scr, pdr, order, info))) == Topology(scr, pdr, info)
        <==> |Message(scr, pdr, order, info)| <= RECEIVE_LIMIT + 1 || Lucky(scr, pdr, order, info)
  {
    if |Message(scr, pdr, order, info)| <= RECEIVE_LIMIT + 1 {
      TopologyRoundTrip(scr, pdr, order, info);
    } else if order == [] {
      NoFilesCut(scr, pdr, info);
    } else if RECEIVE_LIMIT >= |scr| + |pdr| + 2 {
      FilesCut(scr, pdr, order, info);
    } else {
      NamesOnly(scr, pdr, order, info);
      assert order[0] in info;
    }
  }

  lemma NoFilesCut(scr: string, pdr: string, info: map<string, string>)
    requires Word(scr) && Word(pdr) && info == map[] && |Message(scr, pdr, [], info)| > RECEIVE_LIMIT + 1
    ensures ReadTopology(Received(Message(scr, pdr, [], info))) == Topology(scr, pdr, info)
        <==> Lucky(scr, pdr, [], info)
  {
    MessageText(scr, pdr, [], info);
    NamesCut(Message(scr, pdr, [], info), scr, pdr, "", RECEIVE_LIMIT);
    assert |scr| == RECEIVE_LIMIT ==> scr[..RECEIVE_LIMIT] == scr;
  }

  /** A cut within the names leaves no files. */
  lemma NamesOnly(scr: string, pdr: string, order: seq<string>, info: map<string, string>)
    requires Word(scr) && Word(pdr) && Sendable(order, info) && order != []
    requires |Message(scr, pdr, order, info)| > RECEIVE_LIMIT + 1 && RECEIVE_LIMIT < |scr| + |pdr| + 2
    ensures ReadTopology(Received(Message(scr, pdr, order, info))).myFileInfo == map[]
    ensures !Lucky(scr, pdr, order, info)
  {
    MessageText(scr, pdr, order, info);
    NamesCut(Message(scr, pdr, order, info), scr, pdr, Spaced(Pairs(order, info)), RECEIVE_LIMIT);
    LastKeyFits(order, info);
  }

  /** A cut behind the names is a cut within the pairs. */
  lemma PairsLeft(scr: string, pdr: string, order: seq<string>, info: map<string, string>) returns (n: nat)
    requires Word(scr) && Word(pdr) && Sendable(order, info) && order != []
    requires |Message(scr, pdr, order, info)| > RECEIVE_LIMIT + 1 && RECEIVE_LIMIT >= |scr| + |pdr| + 2
    ensures n == |Spaced(Pairs(order, info))| - (|Message(scr, pdr, order, info)| - RECEIVE_LIMIT)
    ensures ReadTopology(Received(Message(scr, pdr, order, info)))
         == Topology(scr, pdr, ReadCut(order, info, n, "", map[]))
  {
    var text, pairs := Message(scr, pdr, order, info), Spaced(Pairs(order, info));
    MessageText(scr, pdr, order, info);
    assert |text| == |scr| + |pdr| + 2 + |pairs|;
    n := RECEIVE_LIMIT - |scr| - |pdr| - 2;
    assert ReadTopology(text[..RECEIVE_LIMIT]) == Topology(scr, pdr, ReadPairs(Open(pairs[..n]), "", map[])) by {
      NamesCut(text, scr, pdr, pairs, RECEIVE_LIMIT);
    }
    assert Received(text) == text[..RECEIVE_LIMIT];
  }

  lemma FilesCut(scr: string, pdr: string, order: seq<string>, info: map<string, string>)
    requires Word(scr) && Word(pdr) && MapOfWords(info) && Lists(order, info) && Distinct(order) && order != []
    requires |Message(scr, pdr, order, info)| > RECEIVE_LIMIT + 1 && RECEIVE_LIMIT >= |scr| + |pdr| + 2
    ensures ReadTopology(Received(Message(scr, pdr, order, info))) == Topology(scr, pdr, info)
        <==> Lucky(scr, pdr, order, info)
  {
    var n := PairsLeft(scr, pdr, order, info);
    PairsCut(order, info, n, "", map[]);
    FilledAll(order, info);
  }

  /** A longer cut, before the end of the last key, loses a file: the last one listed, unless its name is the
      beginning of another's, which in ascending order it is not. */
  lemma LongerCutLosesKey(scr: string, pdr: string, order: seq<string>, info: map<string, string>)
    requires Word(scr) && Word(pdr) && MapOfWords(info) && Lists(order, info) && Distinct(order) && order != []
    requires |Message(scr, pdr, order, info)| > RECEIVE_LIMIT + 2 + |info[Last(order)]|
    ensures Loses(order, ReadTopology(Received(Message(scr, pdr, order, info))).myFileInfo)
  {
    if RECEIVE_LIMIT >= |scr| + |pdr| + 2 {
      var n := PairsLeft(scr, pdr, order, info);
      KeyLost(order, info, n, "", map[]);
    } else {
      NamesOnly(scr, pdr, order, info);
    }
  }

  /** One file of an owner with a name of 991 characters makes a message of 1002, and the peer reads it wrong. */
  lemma OneTooLong()
    ensures var owner := seq(991, _ => 'x');
            var info := map["f" := owner];
            && |Message("a:1", "b:2", ["f"], info)| == RECEIVE_LIMIT + 2
            && ReadTopology(Received(Message("a:1", "b:2", ["f"], info))) != Topology("a:1", "b:2", info)
  {
    var owner := seq(991, _ => 'x');
    var info := map["f" := owner];
    SpacedPairs(["f"], info);
    MessageText("a:1", "b:2", ["f"], info);
    RebuiltExactly("a:1", "b:2", ["f"], info);
  }

  /** Two files of one owner at the end of a message cut right behind the second name: nothing is lost. */
  lemma SameOwnerSurvives(scr: string, pdr: string, front: seq<string>, k1: string, k2: string,
                          info: map<string, string>)
    requires Word(scr) && Word(pdr) && MapOfWords(info)
    requires Lists(front + [k1, k2], info) && Distinct(front + [k1, k2])
    requires k1 in info && k2 in info && info[k1] == info[k2] && k2 != ""
    requires |Message(scr, pdr, front + [k1, k2], info)| == RECEIVE_LIMIT + 2 + |info[k2]|
    ensures ReadTopology(Received(Message(scr, pdr, front + [k1, k2], info))) == Topology(scr, pdr, info)
  {
    RebuiltExactly(scr, pdr, front + [k1, k2], info);
  }
}
