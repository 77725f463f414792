/** Runs of the search service over a network that loses, reorders and duplicates: what is sent stays available
    for delivery, any number of times or never. How messages look as text is left open here: a World says what a
    message is sent as and what a peer does with what it receives, and Faithful what that must amount to. */
module RingProtocol {
  import opened Wrappers
  import opened HashRing
  import opened RingSearch

  /** What a datagram can mean: the search of peer i for f, k steps from i, or the answer to it. */
  datatype Message = Forwarded(i: nat, f: string, k: nat) | Answered(i: nat, f: string)

  /** `hops` is how often a search is forwarded until somebody answers it, None if nobody does; `shows` is what a peer
      that the answer arrives at shows. Nothing says that this is the peer that asked. */
  datatype World = World(
    n: nat,
    askable: (nat, string) -> bool,
    hops: (nat, string) -> Option<nat>,
    begin: (nat, string) -> Datagram,
    text: Message -> Datagram,
    arrives: (Datagram, nat) -> bool,
    react: (Datagram, nat) -> Action,
    shows: (nat, string) -> string)

  datatype State = State(sent: set<Datagram>, asked: set<(nat, string)>, shown: set<(nat, string)>)

  datatype Step = Ask(i: nat, file: string) | Deliver(d: Datagram, i: nat)

  const START := State({}, {}, {})

  predicate Enabled(w: World, s: State, step: Step) {
    match step
    case Ask(i, f) => i < w.n && w.askable(i, f)
    case Deliver(d, i) => d in s.sent && i < w.n && w.arrives(d, i)
  }

  /** A user's search is handled by the asking peer itself; a datagram by the dispatch loop. */
  function Advance(w: World, s: State, step: Step): State {
    match step
    case Ask(i, f) => s.(asked := s.asked + {(i, f)}, sent := s.sent + {w.begin(i, f)})
    case Deliver(d, i) =>
      match w.react(d, i)
      case Show(text) => s.(shown := s.shown + {(i, text)})
      case Send(next) => s.(sent := s.sent + {next})
      case Ignore => s
  }

  predicate ValidRun(w: World, s: State, steps: seq<Step>)
    decreases |steps|
  {
    steps != [] ==> Enabled(w, s, steps[0]) && ValidRun(w, Advance(w, s, steps[0]), steps[1..])
  }

  function Run(w: World, s: State, steps: seq<Step>): State
    decreases |steps|
  {
    if steps == [] then s else Run(w, Advance(w, s, steps[0]), steps[1..])
  }

  /** The peer k successor steps from i: (i + k) mod n. */
  function Place(n: nat, i: nat, k: nat): (p: nat)
    requires i < n
    ensures p < n
  {
    if k == 0 then i else Next(n, Place(n, i, k - 1))
  }

  lemma {:induction false} PlaceIsAround(n: nat, i: nat, k: nat)
    requires i < n && k <= n
    ensures Place(n, i, k) == Around(n, i, k)
  {
    if k > 0 {
      PlaceIsAround(n, i, k - 1);
    }
  }

  predicate Meaningful(w: World, m: Message) {
    && m.i < w.n
    && w.askable(m.i, m.f)
    && (m.Answered? ==> w.hops(m.i, m.f).Some?)
    && (m.Forwarded? ==> 1 <= m.k && (w.hops(m.i, m.f).Some? ==> m.k <= w.hops(m.i, m.f).value))
  }

  /** What the asker itself sends. */
  function First(w: World, i: nat, f: string): Message {
    if w.hops(i, f) == Some(0) then Answered(i, f) else Forwarded(i, f, 1)
  }

  /** What a peer that receives a forwarded search sends: the answer at the last hop, else the search again. */
  function Follow(w: World, m: Message): Message
    requires m.Forwarded?
  {
    if w.hops(m.i, m.f) == Some(m.k) then Answered(m.i, m.f) else Forwarded(m.i, m.f, m.k + 1)
  }

  /** The message that must have come before, if any. */
  function Cause(w: World, m: Message): Option<Message> {
    match m
    case Forwarded(i, f, k) => if k > 1 then Some(Forwarded(i, f, k - 1)) else None
    case Answered(i, f) =>
      var hops := w.hops(i, f);
      if hops.Some? && hops.value > 0 then Some(Forwarded(i, f, hops.value)) else None
  }

  /** A search begins with its first message. */
  ghost predicate Begins(w: World, i: nat, f: string) {
    i < w.n && w.askable(i, f) ==> w.begin(i, f) == w.text(First(w, i, f))
  }

  /** A forwarded search reaches the next peer and nobody else, who searches on; whoever an answer reaches shows it. */
  ghost predicate Handled(w: World, m: Message, p: nat) {
    Meaningful(w, m) && p < w.n ==>
      if m.Forwarded? then
        && (w.arrives(w.text(m), p) <==> p == Place(w.n, m.i, m.k))
        && (p == Place(w.n, m.i, m.k) ==> w.react(w.text(m), p) == Send(w.text(Follow(w, m))))
      else w.arrives(w.text(m), p) ==> w.react(w.text(m), p) == Show(w.shows(m.i, m.f))
  }

  /** Answers can be told from requests. */
  ghost predicate Legible(w: World, m: Message) {
    Meaningful(w, m) ==> (Contains(w.text(m).text, "owner_of") <==> m.Answered?)
  }

  /** The texts do what the messages mean. */
  ghost predicate Faithful(w: World) {
    && w.n > 0
    && (forall i: nat, f {:trigger Begins(w, i, f)} :: Begins(w, i, f))
    && (forall m, p: nat {:trigger Handled(w, m, p)} :: Handled(w, m, p))
    && (forall m {:trigger Legible(w, m)} :: Legible(w, m))
  }

  /** What a search comes to: its answer arrives at p, where t is shown. */
  predicate Outcome(w: World, i: nat, f: string, p: nat, t: string) {
    w.hops(i, f).Some? && w.arrives(w.text(Answered(i, f)), p) && t == w.shows(i, f)
  }

  // ---------- what every run keeps ----------

  ghost predicate CauseLogged(w: World, log: set<Message>, m: Message) {
    Cause(w, m).Some? ==> Cause(w, m).value in log
  }

  /** The log is made of meaningful messages, and with every message holds its cause. */
  ghost predicate Causal(w: World, asked: set<(nat, string)>, log: set<Message>) {
    && (forall m :: m in log ==> Meaningful(w, m) && (m.i, m.f) in asked)
    && (forall m {:trigger CauseLogged(w, log, m)} :: m in log ==> CauseLogged(w, log, m))
  }

  ghost predicate Means(w: World, log: set<Message>, d: Datagram) {
    exists m :: m in log && w.text(m) == d
  }

  /** A peer shows only outcomes of searches that were made. */
  ghost predicate RightlyShown(w: World, asked: set<(nat, string)>, a: (nat, string)) {
    exists i: nat, f :: (i, f) in asked && Outcome(w, i, f, a.0, a.1)
  }

  ghost predicate Started(w: World, log: set<Message>, a: (nat, string)) {
    a.0 < w.n && w.askable(a.0, a.1) && First(w, a.0, a.1) in log
  }

  /** The log is what the sent datagrams mean. */
  ghost predicate SentMeans(w: World, sent: set<Datagram>, log: set<Message>) {
    && (forall m :: m in log ==> w.text(m) in sent)
    && (forall d {:trigger Means(w, log, d)} :: d in sent ==> Means(w, log, d))
  }

  ghost predicate AllStarted(w: World, asked: set<(nat, string)>, log: set<Message>) {
    forall a {:trigger Started(w, log, a)} :: a in asked ==> Started(w, log, a)
  }

  ghost predicate AllRightlyShown(w: World, asked: set<(nat, string)>, shown: set<(nat, string)>) {
    forall a {:trigger RightlyShown(w, asked, a)} :: a in shown ==> RightlyShown(w, asked, a)
  }

  /** `log` explains the state. */
  ghost predicate Explains(w: World, s: State, log: set<Message>) {
    && Causal(w, s.asked, log)
    && SentMeans(w, s.sent, log)
    && AllStarted(w, s.asked, log)
    && AllRightlyShown(w, s.asked, s.shown)
  }

  lemma SentMeansGrows(w: World, sent: set<Datagram>, log: set<Message>, m: Message)
    requires SentMeans(w, sent, log)
    ensures SentMeans(w, sent + {w.text(m)}, log + {m})
  {
    forall d | d in sent + {w.text(m)} ensures Means(w, log + {m}, d) {
      if d == w.text(m) {
        assert m in log + {m};
      } else {
        assert Means(w, log, d);
        var x :| x in log && w.text(x) == d;
        assert x in log + {m};
      }
    }
  }

  lemma CausalGrows(w: World, asked: set<(nat, string)>, log: set<Message>, m: Message)
    requires Causal(w, asked, log)
    requires Meaningful(w, m) && (m.i, m.f) in asked && (Cause(w, m).Some? ==> Cause(w, m).value in log)
    ensures Causal(w, asked, log + {m})
  {
    forall x | x in log + {m} ensures CauseLogged(w, log + {m}, x) {
      assert x in log ==> CauseLogged(w, log, x);
    }
  }

  lemma StartedGrows(w: World, asked: set<(nat, string)>, log: set<Message>, m: Message)
    requires AllStarted(w, asked, log)
    ensures AllStarted(w, asked, log + {m})
  {
    forall a | a in asked ensures Started(w, log + {m}, a) {
      assert Started(w, log, a);
    }
  }

  /** Sending one more meaningful message whose cause is known. */
  lemma LogMessage(w: World, s: State, log: set<Message>, m: Message)
    requires Explains(w, s, log)
    requires Meaningful(w, m) && (m.i, m.f) in s.asked && (Cause(w, m).Some? ==> Cause(w, m).value in log)
    ensures Explains(w, s.(sent := s.sent + {w.text(m)}), log + {m})
  {
    CausalGrows(w, s.asked, log, m);
    SentMeansGrows(w, s.sent, log, m);
    StartedGrows(w, s.asked, log, m);
  }

  lemma AskKeeps(w: World, s: State, log: set<Message>, i: nat, f: string)
    requires Faithful(w) && Explains(w, s, log) && Enabled(w, s, Ask(i, f))
    ensures Explains(w, Advance(w, s, Ask(i, f)), log + {First(w, i, f)})
  {
    var m := First(w, i, f);
    assert Begins(w, i, f);
    assert Meaningful(w, m) && Cause(w, m).None?;
    AddAsked(w, s, log, i, f);
  }

  lemma AddAsked(w: World, s: State, log: set<Message>, i: nat, f: string)
    requires Explains(w, s, log) && i < w.n && w.askable(i, f)
    requires Meaningful(w, First(w, i, f)) && Cause(w, First(w, i, f)).None?
    ensures Explains(w, State(s.sent + {w.text(First(w, i, f))}, s.asked + {(i, f)}, s.shown), log + {First(w, i, f)})
  {
    var asked := s.asked + {(i, f)};
    SentMeansGrows(w, s.sent, log, First(w, i, f));
    CausalGrows(w, asked, log, First(w, i, f));
    StartedGrows(w, s.asked, log, First(w, i, f));
    assert Started(w, log + {First(w, i, f)}, (i, f));
    forall a | a in s.shown ensures RightlyShown(w, asked, a) {
      assert RightlyShown(w, s.asked, a);
      var j: nat, g :| (j, g) in s.asked && Outcome(w, j, g, a.0, a.1);
      assert (j, g) in asked;
    }
  }

  lemma DeliverKeeps(w: World, s: State, log: set<Message>, d: Datagram, p: nat) returns (log': set<Message>)
    requires Faithful(w) && Explains(w, s, log) && Enabled(w, s, Deliver(d, p))
    ensures Explains(w, Advance(w, s, Deliver(d, p)), log')
  {
    assert Means(w, log, d);
    var m :| m in log && w.text(m) == d;
    assert Handled(w, m, p);
    log' := log;
    if m.Forwarded? {
      assert Meaningful(w, Follow(w, m)) && Cause(w, Follow(w, m)) == Some(m);
      LogMessage(w, s, log, Follow(w, m));
      log' := log + {Follow(w, m)};
    } else {
      AddShown(w, s, log, m, p);
    }
  }

  lemma AddShown(w: World, s: State, log: set<Message>, m: Message, p: nat)
    requires Explains(w, s, log) && m in log && m.Answered? && w.arrives(w.text(m), p)
    ensures Explains(w, s.(shown := s.shown + {(p, w.shows(m.i, m.f))}), log)
  {
    assert Meaningful(w, m) && (m.i, m.f) in s.asked && m == Answered(m.i, m.f);
    var t := s.(shown := s.shown + {(p, w.shows(m.i, m.f))});
    forall a | a in t.shown ensures RightlyShown(w, t.asked, a) {
      assert a in s.shown ==> RightlyShown(w, s.asked, a);
      assert Outcome(w, m.i, m.f, p, w.shows(m.i, m.f));
    }
  }

  lemma {:induction false} RunKeeps(w: World, s: State, log: set<Message>, steps: seq<Step>)
    returns (log': set<Message>)
    requires Faithful(w) && Explains(w, s, log) && ValidRun(w, s, steps)
    ensures Explains(w, Run(w, s, steps), log')
    decreases |steps|
  {
    log' := log;
    if steps != [] {
      match steps[0] {
        case Ask(i, f) =>
          AskKeeps(w, s, log, i, f);
          log' := log + {First(w, i, f)};
        case Deliver(d, p) =>
          log' := DeliverKeeps(w, s, log, d, p);
      }
      log' := RunKeeps(w, Advance(w, s, steps[0]), log', steps[1..]);
    }
  }

  /** In every state any run reaches, every answer that was sent is the answer to a search that was made, and everything
      shown is the outcome of one; searches that nobody answers come to nothing. */
  lemma AnswersAreRight(w: World, steps: seq<Step>)
    requires Faithful(w) && ValidRun(w, START, steps)
    ensures var s := Run(w, START, steps);
            && (forall d :: d in s.sent && Contains(d.text, "owner_of") ==>
                  exists i: nat, f :: (i, f) in s.asked && w.hops(i, f).Some? && d == w.text(Answered(i, f)))
            && (forall a :: a in s.shown ==> RightlyShown(w, s.asked, a))
  {
    var s := Run(w, START, steps);
    var log := RunKeeps(w, START, {}, steps);
    forall d | d in s.sent && Contains(d.text, "owner_of")
      ensures exists i: nat, f :: (i, f) in s.asked && w.hops(i, f).Some? && d == w.text(Answered(i, f))
    {
      assert Means(w, log, d);
      var m :| m in log && w.text(m) == d;
      assert Legible(w, m);
      assert m == Answered(m.i, m.f) && (m.i, m.f) in s.asked;
    }
    forall a | a in s.shown ensures RightlyShown(w, s.asked, a) {
      assert RightlyShown(w, s.asked, a);
    }
  }

  lemma {:induction false} CausesSent(w: World, asked: set<(nat, string)>, log: set<Message>, i: nat, f: string, k: nat)
    requires Causal(w, asked, log) && Forwarded(i, f, k) in log
    ensures forall j: nat :: 1 <= j <= k ==> Forwarded(i, f, j) in log
    decreases k
  {
    if k > 1 {
      assert CauseLogged(w, log, Forwarded(i, f, k));
      assert Cause(w, Forwarded(i, f, k)) == Some(Forwarded(i, f, k - 1));
      CausesSent(w, asked, log, i, f, k - 1);
    }
  }

  /** All the forwards of an answered search are among the datagrams. */
  ghost predicate ForwardsSent(w: World, sent: set<Datagram>, i: nat, f: string) {
    w.hops(i, f).Some? && forall k: nat :: 1 <= k <= w.hops(i, f).value ==> w.text(Forwarded(i, f, k)) in sent
  }

  /** No answer without all its forwards: when a search is answered, the request has been sent to each of the peers
      from the asker's successor to the one that answers. */
  lemma AnswerNeedsAllForwards(w: World, steps: seq<Step>, d: Datagram)
    requires Faithful(w) && ValidRun(w, START, steps)
    requires d in Run(w, START, steps).sent && Contains(d.text, "owner_of")
    ensures exists i: nat, f :: d == w.text(Answered(i, f)) && ForwardsSent(w, Run(w, START, steps).sent, i, f)
  {
    var s := Run(w, START, steps);
    var log := RunKeeps(w, START, {}, steps);
    assert Means(w, log, d);
    var m :| m in log && w.text(m) == d;
    assert Legible(w, m);
    assert m == Answered(m.i, m.f);
    LoggedForwardsSent(w, s, log, m.i, m.f);
  }

  lemma LoggedForwardsSent(w: World, s: State, log: set<Message>, i: nat, f: string)
    requires Explains(w, s, log) && Answered(i, f) in log
    ensures ForwardsSent(w, s.sent, i, f)
  {
    assert Meaningful(w, Answered(i, f));
    var hops := w.hops(i, f).value;
    if hops > 0 {
      assert CauseLogged(w, log, Answered(i, f));
      CausesSent(w, s.asked, log, i, f, hops);
    }
  }

  // ---------- when nothing is lost ----------

  /** Everything that was sent has been delivered, at least once and at some point, to whom it arrives. */
  ghost predicate NothingLost(w: World, steps: seq<Step>)
    requires ValidRun(w, START, steps)
  {
    forall d, p: nat :: d in Run(w, START, steps).sent && p < w.n && w.arrives(d, p) ==> Deliver(d, p) in steps
  }

  /** What a peer does with a datagram has been done. */
  ghost predicate Reacted(w: World, s: State, d: Datagram, p: nat) {
    match w.react(d, p)
    case Show(text) => (p, text) in s.shown
    case Send(next) => next in s.sent
    case Ignore => true
  }

  lemma {:induction false} RunGrows(w: World, s: State, steps: seq<Step>)
    ensures s.sent <= Run(w, s, steps).sent && s.shown <= Run(w, s, steps).shown
    decreases |steps|
  {
    if steps != [] {
      RunGrows(w, Advance(w, s, steps[0]), steps[1..]);
    }
  }

  lemma {:induction false} DeliveredIsReacted(w: World, s: State, steps: seq<Step>, d: Datagram, p: nat)
    requires Deliver(d, p) in steps
    ensures Reacted(w, Run(w, s, steps), d, p)
    decreases |steps|
  {
    var next := Advance(w, s, steps[0]);
    if steps[0] == Deliver(d, p) {
      RunGrows(w, next, steps[1..]);
    } else {
      DeliveredIsReacted(w, next, steps[1..], d, p);
    }
  }

  /** What a message leads to when nothing is lost. */
  lemma ReceivedIsHandled(w: World, steps: seq<Step>, m: Message, p: nat)
    requires Faithful(w) && ValidRun(w, START, steps) && NothingLost(w, steps)
    requires Meaningful(w, m) && w.text(m) in Run(w, START, steps).sent
    requires p < w.n && if m.Forwarded? then p == Place(w.n, m.i, m.k) else w.arrives(w.text(m), p)
    ensures var s := Run(w, START, steps);
            if m.Forwarded? then w.text(Follow(w, m)) in s.sent else (p, w.shows(m.i, m.f)) in s.shown
  {
    assert Handled(w, m, p);
    DeliveredIsReacted(w, START, steps, w.text(m), p);
  }

  /** Then every search that somebody answers is answered. */
  lemma AnswerIsSent(w: World, steps: seq<Step>, i: nat, f: string)
    requires Faithful(w) && ValidRun(w, START, steps) && NothingLost(w, steps)
    requires (i, f) in Run(w, START, steps).asked && w.hops(i, f).Some?
    ensures i < w.n && w.askable(i, f) && w.text(Answered(i, f)) in Run(w, START, steps).sent
  {
    var log := RunKeeps(w, START, {}, steps);
    assert Started(w, log, (i, f));
    if w.hops(i, f).value > 0 {
      ForwardedOn(w, steps, i, f, 1);
    }
  }

  lemma {:induction false} ForwardedOn(w: World, steps: seq<Step>, i: nat, f: string, k: nat)
    requires Faithful(w) && ValidRun(w, START, steps) && NothingLost(w, steps)
    requires i < w.n && w.askable(i, f) && w.hops(i, f).Some? && 1 <= k <= w.hops(i, f).value
    requires w.text(Forwarded(i, f, k)) in Run(w, START, steps).sent
    ensures w.text(Answered(i, f)) in Run(w, START, steps).sent
    decreases w.hops(i, f).value - k
  {
    ReceivedIsHandled(w, steps, Forwarded(i, f, k), Place(w.n, i, k));
    if k < w.hops(i, f).value {
      ForwardedOn(w, steps, i, f, k + 1);
    }
  }

  /** In every run in which nothing is lost, whatever goes on in it, exactly the outcomes of the searches made are
      shown. */
  lemma ShownExactly(w: World, steps: seq<Step>, p: nat, t: string)
    requires Faithful(w) && ValidRun(w, START, steps) && NothingLost(w, steps) && p < w.n
    ensures (p, t) in Run(w, START, steps).shown <==> RightlyShown(w, Run(w, START, steps).asked, (p, t))
  {
    var s := Run(w, START, steps);
    AnswersAreRight(w, steps);
    if RightlyShown(w, s.asked, (p, t)) {
      var i: nat, f :| (i, f) in s.asked && Outcome(w, i, f, p, t);
      AnswerIsSent(w, steps, i, f);
      ReceivedIsHandled(w, steps, Answered(i, f), p);
    }
  }

  /** The deliveries that bring a search from its k-th forward to the screen of p. */
  function Journey(w: World, i: nat, f: string, p: nat, k: nat): seq<Step>
    requires i < w.n && w.hops(i, f).Some? && 1 <= k <= w.hops(i, f).value + 1
    decreases w.hops(i, f).value - k
  {
    if k > w.hops(i, f).value then [Deliver(w.text(Answered(i, f)), p)]
    else [Deliver(w.text(Forwarded(i, f, k)), Place(w.n, i, k))] + Journey(w, i, f, p, k + 1)
  }

  lemma {:induction false} JourneySteps(w: World, i: nat, f: string, p: nat, k: nat)
    requires i < w.n && w.hops(i, f).Some? && 1 <= k <= w.hops(i, f).value + 1
    ensures var steps, left := Journey(w, i, f, p, k), w.hops(i, f).value - k + 1;
            && |steps| == left + 1 && steps[left] == Deliver(w.text(Answered(i, f)), p)
            && forall j :: 0 <= j < left ==> steps[j] == Deliver(w.text(Forwarded(i, f, k + j)), Place(w.n, i, k + j))
    decreases w.hops(i, f).value - k
  {
    if k <= w.hops(i, f).value {
      JourneySteps(w, i, f, p, k + 1);
    }
  }

  /** And no more deliveries than that are needed. After any run in which an answerable search was made, its request
      delivered once at each peer from the asker's successor to the one that answers, and then the answer, show it. */
  lemma SearchIsAnswered(w: World, steps: seq<Step>, i: nat, f: string, p: nat)
    requires Faithful(w) && ValidRun(w, START, steps) && i < w.n && p < w.n
    requires (i, f) in Run(w, START, steps).asked && Outcome(w, i, f, p, w.shows(i, f))
    ensures ValidRun(w, Run(w, START, steps), Journey(w, i, f, p, 1))
    ensures (p, w.shows(i, f)) in Run(w, Run(w, START, steps), Journey(w, i, f, p, 1)).shown
  {
    var s := Run(w, START, steps);
    var log := RunKeeps(w, START, {}, steps);
    assert Started(w, log, (i, f));
    DeliverOn(w, s, i, f, p, 1);
  }

  /** What is under way before the k-th delivery of a journey. */
  function Due(w: World, i: nat, f: string, k: nat): Message {
    if w.hops(i, f).Some? && k > w.hops(i, f).value then Answered(i, f) else Forwarded(i, f, k)
  }

  lemma DeliverAnswer(w: World, s: State, i: nat, f: string, p: nat)
    requires Faithful(w) && i < w.n && p < w.n && w.askable(i, f) && Outcome(w, i, f, p, w.shows(i, f))
    requires w.text(Answered(i, f)) in s.sent
    ensures var step := Deliver(w.text(Answered(i, f)), p);
            && ValidRun(w, s, [step])
            && Run(w, s, [step]) == s.(shown := s.shown + {(p, w.shows(i, f))})
  {
    var step := Deliver(w.text(Answered(i, f)), p);
    assert Handled(w, Answered(i, f), p);
    assert [step][1..] == [];
    assert Run(w, s, [step]) == Run(w, Advance(w, s, step), []);
  }

  /** The delivery of one forwarded request. */
  lemma DeliverForward(w: World, s: State, m: Message)
    requires Faithful(w) && Meaningful(w, m) && m.Forwarded? && w.text(m) in s.sent
    ensures var step := Deliver(w.text(m), Place(w.n, m.i, m.k));
            && Enabled(w, s, step)
            && Advance(w, s, step) == s.(sent := s.sent + {w.text(Follow(w, m))})
  {
    assert Handled(w, m, Place(w.n, m.i, m.k));
  }

  lemma {:induction false} DeliverOn(w: World, s: State, i: nat, f: string, p: nat, k: nat)
    requires Faithful(w) && i < w.n && p < w.n && w.askable(i, f) && Outcome(w, i, f, p, w.shows(i, f))
    requires 1 <= k <= w.hops(i, f).value + 1 && w.text(Due(w, i, f, k)) in s.sent
    ensures ValidRun(w, s, Journey(w, i, f, p, k))
    ensures (p, w.shows(i, f)) in Run(w, s, Journey(w, i, f, p, k)).shown
    decreases w.hops(i, f).value - k
  {
    if k > w.hops(i, f).value {
      DeliverAnswer(w, s, i, f, p);
    } else {
      var m := Forwarded(i, f, k);
      DeliverForward(w, s, m);
      DeliverOn(w, s.(sent := s.sent + {w.text(Follow(w, m))}), i, f, p, k + 1);
      assert Journey(w, i, f, p, k)[1..] == Journey(w, i, f, p, k + 1);
    }
  }

  /** A search and its journey are a run in which nothing is lost, provided the answer arrives at one peer only. */
  lemma JourneyLosesNothing(w: World, i: nat, f: string, p: nat)
    requires Faithful(w) && i < w.n && p < w.n && w.askable(i, f) && Outcome(w, i, f, p, w.shows(i, f))
    requires forall q: nat :: q < w.n && w.arrives(w.text(Answered(i, f)), q) ==> q == p
    ensures var steps := [Ask(i, f)] + Journey(w, i, f, p, 1);
            ValidRun(w, START, steps) && NothingLost(w, steps) && Run(w, START, steps).asked == {(i, f)}
  {
    var steps, first := [Ask(i, f)] + Journey(w, i, f, p, 1), Advance(w, START, Ask(i, f));
    assert steps[1..] == Journey(w, i, f, p, 1);
    assert Begins(w, i, f);
    assert OnJourney(w, i, f, w.text(First(w, i, f)));
    DeliverOn(w, first, i, f, p, 1);
    JourneySends(w, first, i, f, p, 1);
    forall d, q: nat | d in Run(w, START, steps).sent && q < w.n && w.arrives(d, q) ensures Deliver(d, q) in steps {
      assert OnJourney(w, i, f, d);
      JourneyDelivers(w, i, f, p, d, q);
      assert Deliver(d, q) in Journey(w, i, f, p, 1);
    }
  }

  /** A datagram of the search. */
  ghost predicate OnJourney(w: World, i: nat, f: string, d: Datagram) {
    w.hops(i, f).Some?
    && (d == w.text(Answered(i, f))
        || exists k: nat :: 1 <= k <= w.hops(i, f).value && d == w.text(Forwarded(i, f, k)))
  }

  lemma JourneyDelivers(w: World, i: nat, f: string, p: nat, d: Datagram, q: nat)
    requires Faithful(w) && i < w.n && w.askable(i, f) && OnJourney(w, i, f, d) && q < w.n && w.arrives(d, q)
    requires forall x: nat :: x < w.n && w.arrives(w.text(Answered(i, f)), x) ==> x == p
    ensures Deliver(d, q) in Journey(w, i, f, p, 1)
  {
    JourneySteps(w, i, f, p, 1);
    var steps := Journey(w, i, f, p, 1);
    if d == w.text(Answered(i, f)) {
      assert steps[w.hops(i, f).value] == Deliver(d, q);
    } else {
      var k: nat :| 1 <= k <= w.hops(i, f).value && d == w.text(Forwarded(i, f, k));
      assert Handled(w, Forwarded(i, f, k), q);
      assert steps[k - 1] == Deliver(d, q);
    }
  }

  lemma {:induction false} JourneySends(w: World, s: State, i: nat, f: string, p: nat, k: nat)
    requires Faithful(w) && i < w.n && p < w.n && w.askable(i, f) && Outcome(w, i, f, p, w.shows(i, f))
    requires 1 <= k <= w.hops(i, f).value + 1 && w.text(Due(w, i, f, k)) in s.sent
    requires forall d :: d in s.sent ==> OnJourney(w, i, f, d)
    ensures forall d :: d in Run(w, s, Journey(w, i, f, p, k)).sent ==> OnJourney(w, i, f, d)
    ensures Run(w, s, Journey(w, i, f, p, k)).asked == s.asked
    decreases w.hops(i, f).value - k
  {
    if k > w.hops(i, f).value {
      DeliverAnswer(w, s, i, f, p);
    } else {
      var m := Forwarded(i, f, k);
      DeliverForward(w, s, m);
      assert OnJourney(w, i, f, w.text(Follow(w, m)));
      JourneySends(w, s.(sent := s.sent + {w.text(Follow(w, m))}), i, f, p, k + 1);
      assert Journey(w, i, f, p, k)[1..] == Journey(w, i, f, p, k + 1);
    }
  }

  // ---------- searches nobody answers ----------

  /** As long as only such searches are made, no answer is ever sent or shown: whatever is under way is a request. */
  lemma UnplacedIsNeverAnswered(w: World, steps: seq<Step>)
    requires Faithful(w) && ValidRun(w, START, steps)
    requires forall a :: a in Run(w, START, steps).asked ==> w.hops(a.0, a.1).None?
    ensures var s := Run(w, START, steps);
            && s.shown == {}
            && forall d :: d in s.sent ==> Circulating(w, s.asked, d)
  {
    var s := Run(w, START, steps);
    var log := RunKeeps(w, START, {}, steps);
    assert forall a :: a in s.shown ==> RightlyShown(w, s.asked, a);
    forall d | d in s.sent ensures Circulating(w, s.asked, d) {
      assert Means(w, log, d);
      var m :| m in log && w.text(m) == d;
      assert Meaningful(w, m) && w.hops((m.i, m.f).0, (m.i, m.f).1).None?;
      assert m == Forwarded(m.i, m.f, m.k) && (m.i, m.f) in s.asked;
    }
  }

  ghost predicate Circulating(w: World, asked: set<(nat, string)>, d: Datagram) {
    exists i: nat, f, k: nat :: (i, f) in asked && 1 <= k && d == w.text(Forwarded(i, f, k))
  }

  /** The deliveries from the k-th forward of a request to the n-th. */
  function Lap(w: World, i: nat, f: string, k: nat): seq<Step>
    requires i < w.n && 1 <= k <= w.n + 1
    decreases w.n + 1 - k
  {
    if k > w.n then []
    else [Deliver(w.text(Forwarded(i, f, k)), Place(w.n, i, k))] + Lap(w, i, f, k + 1)
  }

  lemma {:induction false} LapSteps(w: World, i: nat, f: string, k: nat)
    requires i < w.n && 1 <= k <= w.n + 1
    ensures |Lap(w, i, f, k)| == w.n + 1 - k
    ensures forall j :: 0 <= j < |Lap(w, i, f, k)| ==>
              Lap(w, i, f, k)[j] == Deliver(w.text(Forwarded(i, f, k + j)), Place(w.n, i, k + j))
    decreases w.n + 1 - k
  {
    if k <= w.n {
      LapSteps(w, i, f, k + 1);
    }
  }

  /** n deliveries take the request through the other n - 1 peers and back to its asker, who sends it on again; nobody
      shows anything. */
  predicate GoesRound(w: World, s: State, i: nat, f: string)
    requires i < w.n
  {
    var lap := Lap(w, i, f, 1);
    && |lap| == w.n && lap[w.n - 1] == Deliver(w.text(Forwarded(i, f, w.n)), i)
    && (forall j :: 0 <= j < w.n - 1 ==> lap[j].Deliver? && lap[j].i != i)
    && ValidRun(w, s, lap)
    && Run(w, s, lap).shown == s.shown
    && w.react(w.text(Forwarded(i, f, w.n)), i) == Send(w.text(Forwarded(i, f, w.n + 1)))
  }

  /** A search nobody answers goes round: wherever its first request is under way. */
  lemma UnplacedSearchCirculates(w: World, s: State, i: nat, f: string)
    requires Faithful(w) && i < w.n && w.askable(i, f) && w.hops(i, f).None?
    requires w.text(Forwarded(i, f, 1)) in s.sent
    ensures GoesRound(w, s, i, f)
  {
    LapSteps(w, i, f, 1);
    GoRound(w, s, i, f, 1);
    forall k: nat | k <= w.n ensures Place(w.n, i, k) == Around(w.n, i, k) {
      PlaceIsAround(w.n, i, k);
    }
    assert Handled(w, Forwarded(i, f, w.n), i);
  }

  lemma {:induction false} GoRound(w: World, s: State, i: nat, f: string, k: nat)
    requires Faithful(w) && i < w.n && w.askable(i, f) && w.hops(i, f).None?
    requires 1 <= k <= w.n + 1 && w.text(Forwarded(i, f, k)) in s.sent
    ensures ValidRun(w, s, Lap(w, i, f, k)) && Run(w, s, Lap(w, i, f, k)).shown == s.shown
    decreases w.n + 1 - k
  {
    if k <= w.n {
      var m := Forwarded(i, f, k);
      DeliverForward(w, s, m);
      GoRound(w, s.(sent := s.sent + {w.text(Follow(w, m))}), i, f, k + 1);
      assert Lap(w, i, f, k)[1..] == Lap(w, i, f, k + 1);
    }
  }
}
