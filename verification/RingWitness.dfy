/** A run of the search service in which an answer appears on the wrong peer's screen: the request is one character
    longer than a datagram, so the asker's name loses its end and becomes the name of another peer. */
module RingWitness {
  import opened Wrappers
  import opened OatHash
  import opened Text
  import opened HashRing
  import opened RingMessages
  import opened RingSearch
  import opened RingProtocol
  import opened RingService

  /** A file name of 985 characters. */
  function LongName(): string { seq(985, _ => 'x') }

  /** Puts the three peers in the order in which they are listed here, and the file at the last. */
  function Placing(name: string): word { if name == "b:2" then 0 else if name == "b:22" then 1 else 2 }

  /** Three peers; the last one registers the file. */
  function Trio(): seq<Node> {
    [ Node("b", "2", "b:2", 0, "", "", [], map[]),
      Node("b", "22", "b:22", 1, "", "", [], map[]),
      Node("a", "1", "a:1", 2, "", "", [LongName()], map[]) ]
  }

  ghost function TrioService(address: string -> Address): World { Service(RingSetting(address, Placing, Trio())) }

  /** The peers' addresses. */
  predicate TrioAddressed(address: string -> Address) {
    && address("b:2") == Address("b", 2)
    && address("b:22") == Address("b", 22)
    && address("a:1") == Address("a", 1)
  }

  lemma TrioSpelled()
    ensures "b" + ":" + "2" == "b:2" && "b" + ":" + "22" == "b:22" && "a" + ":" + "1" == "a:1"
  {
  }

  lemma TrioAddresses()
    ensures TrioAddressed(AddressOf)
  {
    TrioSpelled();
    OneAddress("b", 2, "2", "b:2");
    OneAddress("b", 22, "22", "b:22");
    OneAddress("a", 1, "1", "a:1");
  }

  lemma OneAddress(ip: string, port: nat, digits: string, name: string)
    requires ':' !in ip && port < 100 && name == ip + ":" + digits
    requires digits == if port < 10 then [Digit(port)] else [Digit(port / 10), Digit(port % 10)]
    ensures AddressOf(name) == Address(ip, port)
  {
    AddressOfName(ip, port);
    assert port >= 10 ==> PrintNat(port) == PrintNat(port / 10) + [Digit(port % 10)];
    assert PrintInt(port) == digits;
  }

  lemma TooShort(name: string)
    requires |name| < 8
    ensures !Contains(name, "owner_of")
  {
  }

  lemma TrioRegistered(address: string -> Address)
    requires TrioAddressed(address)
    ensures Registrants(address, Trio())
  {
    var names := NodeNames(Trio());
    assert names[0] == "b:2" && names[1] == "b:22" && names[2] == "a:1";
    TrioFits(names);
    TrioApart(address, names);
  }

  lemma TrioFits(names: seq<string>)
    requires |names| == 3 && names[0] == "b:2" && names[1] == "b:22" && names[2] == "a:1"
    ensures FitNames(names)
  {
    forall i | 0 <= i < 3 ensures Word(names[i]) && !Contains(names[i], "owner_of") {
      TooShort(names[i]);
    }
  }

  lemma TrioApart(address: string -> Address, names: seq<string>)
    requires TrioAddressed(address)
    requires |names| == 3 && names[0] == "b:2" && names[1] == "b:22" && names[2] == "a:1"
    ensures OwnAddresses(address, names)
  {
  }

  /** The file belongs to the peer that registered it. */
  lemma TrioHome()
    ensures LastToList(Trio(), 2, LongName()) && HomeOf(Placing, Trio(), LongName()) == 2
  {
    var ids := Ids(Linked(Trio()));
    assert ids[0] == 0 && ids[1] == 1 && ids[2] == 2;
    assert Trio()[2].myFile[0] == LongName();
  }

  /** What becomes of a search of "b:22" for it: the answer goes to "b:2". */
  lemma CutToNeighbour()
    ensures |Request(LongName(), "b:22")| == RECEIVE_LIMIT + 1
    ensures Meant(Placing, Trio(), 1, LongName()) == LongName() && Addressee(Placing, Trio(), 1, LongName()) == "b:2"
  {
    TrioHome();
    assert "b:22"[..3] == "b:2";
    assert LongName()[..985] == LongName();
  }

  function TrioAnswer(): Datagram { Datagram(Address("b", 2), Reply(LongName(), "a:1")) }

  lemma TrioOutcome(address: string -> Address)
    requires TrioAddressed(address)
    ensures var w := TrioService(address);
            && w.n == 3 && w.hops(1, LongName()).Some? && w.text(Answered(1, LongName())) == TrioAnswer()
            && w.shows(1, LongName()) == Received(Reply(LongName(), "a:1"))
  {
    TrioHome();
    CutToNeighbour();
    AnsweredExactly(address, Placing, Trio(), 1, LongName());
    AnswerNames(address, Placing, Trio(), 1, LongName(), 2);
    RingNames(address, Placing, Trio());
  }

  lemma TrioNames()
    ensures Trio()[0].ipPort == "b:2" && Trio()[1].ipPort == "b:22" && Trio()[2].ipPort == "a:1"
  {
  }

  lemma TrioArrival(address: string -> Address, q: nat)
    requires TrioAddressed(address) && q < 3
    ensures TrioService(address).arrives(TrioAnswer(), q) <==> q == 0
  {
    ArrivesAtNode(address, Placing, Trio(), TrioAnswer(), q);
    TrioNames();
  }

  lemma LongNameIsAskable()
    ensures Word(LongName()) && !Contains(LongName(), "owner_of")
  {
    OnlyOneLetter(LongName());
  }

  lemma OnlyOneLetter(s: string)
    requires forall k :: 0 <= k < |s| ==> s[k] == 'x'
    ensures !Contains(s, "owner_of")
  {
    forall i ensures !At(s, "owner_of", i) {
      if 0 <= i <= |s| - 8 {
        assert s[i..i + 8][0] == s[i];
      }
    }
  }

  lemma TrioAskable(address: string -> Address)
    ensures Askable(RingSetting(address, Placing, Trio()), 1, LongName())
  {
    RingNames(address, Placing, Trio());
    LongNameIsAskable();
  }

  /** "b:22" searches for the file, and nothing is lost: "b:2", which asked for nothing, shows the answer, and "b:22"
      shows nothing. */
  lemma WrongPeerShows() returns (steps: seq<Step>)
    ensures ValidRun(TrioService(AddressOf), START, steps) && NothingLost(TrioService(AddressOf), steps)
    ensures WronglyShown(Run(TrioService(AddressOf), START, steps))
  {
    TrioAddresses();
    steps := TrioRun(AddressOf);
  }

  predicate WronglyShown(s: State) {
    && s.asked == {(1, LongName())}
    && (0, Received(Reply(LongName(), "a:1"))) in s.shown
    && forall a :: a in s.shown ==> a.0 != 1
  }

  lemma TrioRun(address: string -> Address) returns (steps: seq<Step>)
    requires TrioAddressed(address)
    ensures ValidRun(TrioService(address), START, steps) && NothingLost(TrioService(address), steps)
    ensures WronglyShown(Run(TrioService(address), START, steps))
  {
    var w := TrioService(address);
    TrioRegistered(address);
    SettingIsFaithful(address, Placing, Trio());
    TrioOutcome(address);
    forall q: nat | q < 3 ensures w.arrives(TrioAnswer(), q) <==> q == 0 {
      TrioArrival(address, q);
    }
    TrioAskable(address);
    steps := [Ask(1, LongName())] + Journey(w, 1, LongName(), 0, 1);
    JourneyLosesNothing(w, 1, LongName(), 0);
    OnlyOutcomeShown(w, steps);
  }

  lemma OnlyOutcomeShown(w: World, steps: seq<Step>)
    requires Faithful(w) && w.n == 3 && ValidRun(w, START, steps) && NothingLost(w, steps)
    requires Run(w, START, steps).asked == {(1, LongName())} && w.hops(1, LongName()).Some?
    requires forall q: nat :: q < 3 ==> (w.arrives(w.text(Answered(1, LongName())), q) <==> q == 0)
    ensures (0, w.shows(1, LongName())) in Run(w, START, steps).shown
    ensures forall a :: a in Run(w, START, steps).shown ==> a.0 != 1
  {
    var s := Run(w, START, steps);
    assert Outcome(w, 1, LongName(), 0, w.shows(1, LongName()));
    ShownExactly(w, steps, 0, w.shows(1, LongName()));
    AnswersAreRight(w, steps);
    forall a | a in s.shown ensures a.0 != 1 {
      assert RightlyShown(w, s.asked, a);
      var i: nat, f :| (i, f) in s.asked && Outcome(w, i, f, a.0, a.1);
      assert (i, f) == (1, LongName());
    }
  }

  /** The file can be registered, and its peer's mail arrives: both messages fit a datagram. */
  lemma TrioMessagesFit()
    ensures |Spaced(RegistrationWords("a", "1", 1, [LongName()]))| <= RECEIVE_LIMIT
    ensures var info := map[LongName() := "a:1"];
            |Spaced(TopologyWords("b:2", "b:22", [LongName()], info))| <= RECEIVE_LIMIT
  {
    var f, info := LongName(), map[LongName() := "a:1"];
    assert PrintInt(1) == "1";
    SpacedThree("a", "1", "1");
    SpacedConcat(["a", "1", "1"], [f]);
    assert [f][1..] == [] && Spaced([f]) == f + " ";
    SpacedTwo("b:2", "b:22");
    SpacedTwo(f, "a:1");
    assert [f][1..] == [] && Pairs([f], info) == [f, "a:1"];
    SpacedConcat(["b:2", "b:22"], [f, "a:1"]);
  }
}
